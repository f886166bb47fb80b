/** What scores, what suits a node and which node comes first, said without the code that decides it
    (packages/dialogue-engine/src/matcher.ts, node-matcher.ts). */
module MatchingFacts {
  import opened Prelude
  import opened Dialogue
  import opened Matching

  // ---------------------------------------------------------------- scores

  ghost predicate StandsIn(part: string, whole: string, i: nat)
  {
    i + |part| <= |whole| && whole[i..i + |part|] == part
  }

  ghost predicate Contains(whole: string, part: string) { exists i: nat :: StandsIn(part, whole, i) }

  lemma StandsBehind(part: string, whole: string, i: nat)
    requires whole != []
    ensures StandsIn(part, whole[1..], i) <==> StandsIn(part, whole, i + 1)
  {
    if i + |part| < |whole| {
      assert whole[1..][i..i + |part|] == whole[i + 1..i + 1 + |part|];
    }
  }

  lemma {:induction false} SubstringIff(part: string, whole: string)
    ensures IsSubstring(part, whole) <==> Contains(whole, part)
  {
    assert part <= whole <==> StandsIn(part, whole, 0);
    hide StandsIn;
    if whole != [] {
      SubstringIff(part, whole[1..]);
      forall i: nat ensures StandsIn(part, whole[1..], i) <==> StandsIn(part, whole, i + 1) {
        StandsBehind(part, whole, i);
      }
      if i: nat :| StandsIn(part, whole, i) && i > 0 {
        assert StandsIn(part, whole[1..], i - 1);
      }
    } else {
      EmptyContains(part);
    }
  }

  lemma EmptyContains(part: string)
    ensures Contains("", part) <==> part == ""
  {
    assert part == "" ==> StandsIn(part, "", 0);
  }

  /** An empty text scores nothing; the very text scores a thousand more than its length; where parts count, a text inside
      the other scores its length. */
  ghost predicate TextScores(input: string, norm: string, exactOnly: bool, score: nat)
  {
    if norm == "" then score == 0
    else if input == norm then score == 1000 + |norm|
    else if !exactOnly && Contains(input, norm) then score == |norm|
    else if !exactOnly && Contains(norm, input) then score == |input|
    else score == 0
  }

  lemma TextScoreIs(input: string, norm: string, exactOnly: bool)
    ensures TextScores(input, norm, exactOnly, TextScore(input, norm, exactOnly))
  {
    SubstringIff(norm, input);
    SubstringIff(input, norm);
  }

  /** An example of a favoured intent scores a hundred thousand more, if it scores at all. */
  ghost predicate ExampleScores(lib: Lib, input: string, intent: Intent, example: string, boost: seq<Id>, exactOnly: bool, score: nat)
  {
    exists plain: nat :: TextScores(input, lib.normalize(example), exactOnly, plain)
      && score == if plain > 0 && intent.id in boost then plain + 100000 else plain
  }

  ghost predicate IsExample(intents: seq<Intent>, intent: Intent, example: string) { intent in intents && example in intent.examples }

  ghost predicate ComesFrom(lib: Lib, intents: seq<Intent>, e: Example, intent: Intent)
  {
    IsExample(intents, intent, e.original) && e.intentId == intent.id && e.norm == lib.normalize(e.original)
  }

  lemma {:induction false} ExamplesOf(lib: Lib, id: Id, examples: seq<string>, e: Example)
    ensures e in IntentExamples(lib, id, examples) <==> e.intentId == id && e.original in examples && e.norm == lib.normalize(e.original)
  {
    if examples != [] {
      ExamplesOf(lib, id, examples[1..], e);
      assert forall x :: x in examples <==> x == examples[0] || x in examples[1..];
    }
  }

  lemma {:induction false} AllExamplesAre(lib: Lib, intents: seq<Intent>, e: Example)
    ensures e in AllExamples(lib, intents) <==> exists intent :: ComesFrom(lib, intents, e, intent)
  {
    if intents != [] {
      ExamplesOf(lib, intents[0].id, intents[0].examples, e);
      AllExamplesAre(lib, intents[1..], e);
      assert forall x :: x in intents <==> x == intents[0] || x in intents[1..];
      if e in IntentExamples(lib, intents[0].id, intents[0].examples) {
        assert ComesFrom(lib, intents, e, intents[0]);
      }
      if intent :| ComesFrom(lib, intents[1..], e, intent) {
        assert ComesFrom(lib, intents, e, intent);
      }
      if intent :| ComesFrom(lib, intents, e, intent) {
        assert intent != intents[0] ==> ComesFrom(lib, intents[1..], e, intent);
      }
    }
  }

  lemma ExampleScoreIs(lib: Lib, input: string, intents: seq<Intent>, e: Example, intent: Intent, boost: seq<Id>, exactOnly: bool)
    requires ComesFrom(lib, intents, e, intent)
    ensures ExampleScores(lib, input, intent, e.original, boost, exactOnly, Score(input, e, boost, exactOnly))
  {
    hide TextScore, TextScores;
    TextScoreIs(input, e.norm, exactOnly);
    assert TextScores(input, lib.normalize(e.original), exactOnly, TextScore(input, e.norm, exactOnly));
  }

  ghost predicate Wins(lib: Lib, input: string, intents: seq<Intent>, boost: seq<Id>, exactOnly: bool, m: IntentMatch, intent: Intent, score: nat)
  {
    && score > 0 && IsExample(intents, intent, m.matchedExample) && m.intentId == intent.id
    && ExampleScores(lib, input, intent, m.matchedExample, boost, exactOnly, score)
    && forall s: nat :: SomeScores(lib, input, intents, boost, exactOnly, s) ==> s <= score
  }

  ghost predicate SomeScores(lib: Lib, input: string, intents: seq<Intent>, boost: seq<Id>, exactOnly: bool, s: nat)
  {
    exists intent, example :: IsExample(intents, intent, example) && ExampleScores(lib, input, intent, example, boost, exactOnly, s)
  }

  lemma OneScore(lib: Lib, input: string, intent: Intent, example: string, boost: seq<Id>, exactOnly: bool, a: nat, b: nat)
    requires ExampleScores(lib, input, intent, example, boost, exactOnly, a)
    requires ExampleScores(lib, input, intent, example, boost, exactOnly, b)
    ensures a == b
  {
  }

  /** Among the examples of all intents, one with the highest score wins, and nothing wins exactly when nothing scores. */
  lemma ChosenWins(lib: Lib, input: string, intents: seq<Intent>, boost: seq<Id>, exactOnly: bool)
    requires input != ""
    ensures var r := ChooseExample(input, AllExamples(lib, intents), boost, exactOnly);
      && (r.Some? ==> exists intent, score: nat :: Wins(lib, input, intents, boost, exactOnly, r.value, intent, score))
      && (r.None? ==> forall s: nat :: SomeScores(lib, input, intents, boost, exactOnly, s) ==> s == 0)
  {
    hide AllExamples, Score, Best, Scores, ExampleScores, IsExample;
    var es := AllExamples(lib, intents);
    var scores := Scores(input, es, boost, exactOnly);
    var best := Best(scores);
    forall s: nat | SomeScores(lib, input, intents, boost, exactOnly, s) ensures exists i :: 0 <= i < |es| && scores[i] == s {
      var intent, example :| IsExample(intents, intent, example) && ExampleScores(lib, input, intent, example, boost, exactOnly, s);
      var e := Example(intent.id, lib.normalize(example), example);
      assert ComesFrom(lib, intents, e, intent);
      AllExamplesAre(lib, intents, e);
      var i :| 0 <= i < |es| && es[i] == e;
      ExampleScoreIs(lib, input, intents, e, intent, boost, exactOnly);
      OneScore(lib, input, intent, example, boost, exactOnly, s, Score(input, e, boost, exactOnly));
      assert scores[i] == s;
    }
    if best.Some? {
      var e := es[best.value];
      AllExamplesAre(lib, intents, e);
      var intent :| ComesFrom(lib, intents, e, intent);
      ExampleScoreIs(lib, input, intents, e, intent, boost, exactOnly);
      assert Wins(lib, input, intents, boost, exactOnly, IntentMatch(e.intentId, e.original), intent, scores[best.value]);
    }
  }

  // ---------------------------------------------------------------- questions

  ghost predicate Asked(faqs: seq<Faq>, faq: Faq, text: string)
  {
    faq in faqs && faq.enabled && (text == faq.question || text in faq.altQuestions)
  }

  ghost predicate FaqScores(lib: Lib, input: string, faqs: seq<Faq>, exactOnly: bool, s: nat)
  {
    exists faq, text :: Asked(faqs, faq, text) && TextScores(input, lib.normalize(text), exactOnly, s)
  }

  /** A wording of an enabled question, with its answer. */
  ghost predicate Worded(lib: Lib, faqs: seq<Faq>, c: FaqCandidate, faq: Faq, text: string)
  {
    Asked(faqs, faq, text) && c == FaqCandidate(faq.id, faq.answer, lib.normalize(text))
  }

  lemma {:induction false} FaqTextsAre(lib: Lib, faq: Faq, texts: seq<string>, c: FaqCandidate)
    ensures c in FaqTexts(lib, faq, texts) <==> exists text :: text in texts && c == FaqCandidate(faq.id, faq.answer, lib.normalize(text))
  {
    if texts != [] {
      FaqTextsAre(lib, faq, texts[1..], c);
      assert forall x :: x in texts <==> x == texts[0] || x in texts[1..];
    }
  }

  lemma {:induction false} CandidatesAre(lib: Lib, faqs: seq<Faq>, c: FaqCandidate)
    ensures c in FaqCandidates(lib, faqs) <==> exists faq, text :: Worded(lib, faqs, c, faq, text)
  {
    if faqs != [] {
      var texts := [faqs[0].question] + faqs[0].altQuestions;
      FaqTextsAre(lib, faqs[0], texts, c);
      CandidatesAre(lib, faqs[1..], c);
      assert forall x :: x in texts <==> x == faqs[0].question || x in faqs[0].altQuestions;
      assert forall x :: x in faqs <==> x == faqs[0] || x in faqs[1..];
      if text :| text in texts && faqs[0].enabled && c == FaqCandidate(faqs[0].id, faqs[0].answer, lib.normalize(text)) {
        assert Worded(lib, faqs, c, faqs[0], text);
      }
      if faq, text :| Worded(lib, faqs[1..], c, faq, text) {
        assert Worded(lib, faqs, c, faq, text);
      }
      if faq, text :| Worded(lib, faqs, c, faq, text) {
        if faq != faqs[0] {
          assert Worded(lib, faqs[1..], c, faq, text);
        } else {
          assert text in texts;
        }
      }
    }
  }

  /** Among the wordings of all enabled questions, one with the highest score is found, and none exactly when none scores. */
  lemma FoundQuestionWins(lib: Lib, input: string, faqs: seq<Faq>, exactOnly: bool)
    requires input != ""
    ensures var r := MatchFaq(lib, input, faqs, exactOnly);
      && (r.Some? ==> exists faq, text, score: nat ::
            Worded(lib, faqs, r.value, faq, text) && score > 0 && TextScores(input, lib.normalize(text), exactOnly, score)
            && forall s: nat :: FaqScores(lib, input, faqs, exactOnly, s) ==> s <= score)
      && (r.None? ==> forall s: nat :: FaqScores(lib, input, faqs, exactOnly, s) ==> s == 0)
  {
    hide FaqCandidates, TextScore, TextScores, Best, Asked;
    var cs := FaqCandidates(lib, faqs);
    var scores := seq(|cs|, i requires 0 <= i < |cs| => TextScore(input, cs[i].norm, exactOnly));
    var best := Best(scores);
    forall s: nat | FaqScores(lib, input, faqs, exactOnly, s) ensures exists i :: 0 <= i < |cs| && scores[i] == s {
      var faq, text :| Asked(faqs, faq, text) && TextScores(input, lib.normalize(text), exactOnly, s);
      var c := FaqCandidate(faq.id, faq.answer, lib.normalize(text));
      assert Worded(lib, faqs, c, faq, text);
      CandidatesAre(lib, faqs, c);
      var i :| 0 <= i < |cs| && cs[i] == c;
      TextScoreIs(input, c.norm, exactOnly);
      OneTextScore(input, c.norm, exactOnly, s, TextScore(input, c.norm, exactOnly));
      assert scores[i] == s;
    }
    if best.Some? {
      var c := cs[best.value];
      CandidatesAre(lib, faqs, c);
      var faq, text :| Worded(lib, faqs, c, faq, text);
      TextScoreIs(input, c.norm, exactOnly);
      assert TextScores(input, lib.normalize(text), exactOnly, scores[best.value]);
    }
  }

  lemma OneTextScore(input: string, norm: string, exactOnly: bool, a: nat, b: nat)
    requires TextScores(input, norm, exactOnly, a) && TextScores(input, norm, exactOnly, b)
    ensures a == b
  {
  }

  // ---------------------------------------------------------------- which nodes a text suits

  ghost predicate Known(intents: seq<Intent>, id: Id) { exists intent :: intent in intents && intent.id == id }

  /** The first keyword with this id. */
  ghost predicate FirstKeyword(keywords: seq<Keyword>, id: Id, k: nat): (b: bool)
    ensures b ==> k < |keywords|
  {
    k < |keywords| && keywords[k].id == id && forall j :: 0 <= j < k ==> keywords[j].id != id
  }

  /** The text holds the name of the keyword or one of its synonyms as a word. */
  ghost predicate Speaks(lib: Lib, norm: string, keyword: Keyword)
  {
    || lib.containsWord(norm, lib.normalize(keyword.name))
    || exists i :: 0 <= i < |keyword.synonyms| && lib.containsWord(norm, lib.normalize(keyword.synonyms[i]))
  }


  ghost predicate UsesIntents(b: Bundle, n: Node) { exists id :: id in n.intentIds && Known(b.intents, id) }

  ghost predicate IntentHolds(b: Bundle, n: Node, intentId: Option<Id>)
  {
    intentId.Some? && intentId.value in n.intentIds && Known(b.intents, intentId.value)
  }

  ghost predicate UsesKeywords(b: Bundle, n: Node) { exists id, k: nat :: id in n.keywordIds && FirstKeyword(b.keywords, id, k) }

  ghost predicate KeywordHolds(lib: Lib, b: Bundle, n: Node, norm: string)
  {
    exists id, k: nat :: id in n.keywordIds && FirstKeyword(b.keywords, id, k) && Speaks(lib, norm, b.keywords[k])
  }

  ghost predicate UsesForm(b: Bundle, n: Node)
  {
    n.contextVariableId.Some? && exists f :: f in b.contexts && f.id == n.contextVariableId.value
  }

  /** The text suits a node that has a condition on something that exists: every such condition if it wants them all, else
      one of them. A condition on nothing that exists does not count. */
  ghost predicate Suits(lib: Lib, b: Bundle, norm: string, intentId: Option<Id>, completedForm: Option<Id>, n: Node)
  {
    if n.matchAll then
      && (UsesIntents(b, n) || UsesKeywords(b, n) || UsesForm(b, n))
      && (UsesIntents(b, n) ==> IntentHolds(b, n, intentId))
      && (UsesKeywords(b, n) ==> KeywordHolds(lib, b, n, norm))
      && (UsesForm(b, n) ==> completedForm == n.contextVariableId)
    else IntentHolds(b, n, intentId) || KeywordHolds(lib, b, n, norm) || (UsesForm(b, n) && completedForm == n.contextVariableId)
  }

  lemma {:induction false} KnownIff(intents: seq<Intent>, id: Id)
    ensures HasIntent(intents, id) <==> Known(intents, id)
  {
    if intents != [] {
      KnownIff(intents[1..], id);
      assert forall x :: x in intents <==> x == intents[0] || x in intents[1..];
    }
  }

  lemma {:induction false} ExistingIntentsAre(intents: seq<Intent>, ids: seq<Id>)
    ensures forall id :: id in ExistingIntents(intents, ids) <==> id in ids && Known(intents, id)
  {
    hide HasIntent, Known;
    if ids != [] {
      KnownIff(intents, ids[0]);
      ExistingIntentsAre(intents, ids[1..]);
      assert forall x :: x in ids <==> x == ids[0] || x in ids[1..];
    }
  }

  lemma {:induction false} KeywordFound(keywords: seq<Keyword>, id: Id)
    ensures FindKeyword(keywords, id).Some? ==> exists k: nat :: FirstKeyword(keywords, id, k) && keywords[k] == FindKeyword(keywords, id).value
    ensures FindKeyword(keywords, id).None? ==> forall k: nat :: !FirstKeyword(keywords, id, k)
  {
    if keywords != [] {
      KeywordFound(keywords[1..], id);
      if keywords[0].id == id {
        assert FirstKeyword(keywords, id, 0);
      } else {
        forall k: nat ensures k > 0 ==> (FirstKeyword(keywords, id, k) <==> FirstKeyword(keywords[1..], id, k - 1)) {
          if k > 0 && FirstKeyword(keywords[1..], id, k - 1) {
            forall j | 0 <= j < k ensures keywords[j].id != id {
              assert j > 0 ==> keywords[j] == keywords[1..][j - 1];
            }
          }
          if k > 0 && FirstKeyword(keywords, id, k) {
            forall j | 0 <= j < k - 1 ensures keywords[1..][j].id != id {
              assert keywords[j + 1].id != id;
            }
          }
        }
        if FindKeyword(keywords, id).Some? {
          var k: nat :| FirstKeyword(keywords[1..], id, k) && keywords[1..][k] == FindKeyword(keywords, id).value;
          assert FirstKeyword(keywords, id, k + 1);
        }
      }
    }
  }

  lemma OneFirstKeyword(keywords: seq<Keyword>, id: Id, i: nat, j: nat)
    requires FirstKeyword(keywords, id, i) && FirstKeyword(keywords, id, j)
    ensures i == j
  {
  }

  ghost predicate NamedFirst(keywords: seq<Keyword>, ids: seq<Id>, keyword: Keyword)
  {
    exists id, k: nat :: id in ids && FirstKeyword(keywords, id, k) && keywords[k] == keyword
  }

  lemma {:induction false} ExistingKeywordsAre(keywords: seq<Keyword>, ids: seq<Id>)
    ensures forall keyword :: keyword in ExistingKeywords(keywords, ids) <==> NamedFirst(keywords, ids, keyword)
  {
    hide FirstKeyword;
    if ids != [] {
      ExistingKeywordsAre(keywords, ids[1..]);
      FirstNamed(keywords, ids);
    }
  }

  ghost predicate FoundOrLater(keywords: seq<Keyword>, ids: seq<Id>, keyword: Keyword)
    requires ids != []
  {
    FindKeyword(keywords, ids[0]) == Some(keyword) || NamedFirst(keywords, ids[1..], keyword)
  }

  lemma FirstNamed(keywords: seq<Keyword>, ids: seq<Id>)
    requires ids != []
    ensures forall keyword :: NamedFirst(keywords, ids, keyword) <==> FoundOrLater(keywords, ids, keyword)
  {
    hide FirstKeyword, FindKeyword;
    KeywordFound(keywords, ids[0]);
    assert forall x :: x in ids <==> x == ids[0] || x in ids[1..];
    forall keyword ensures NamedFirst(keywords, ids, keyword) <==> FoundOrLater(keywords, ids, keyword) {
      if id, k: nat :| id in ids && FirstKeyword(keywords, id, k) && keywords[k] == keyword {
        if id == ids[0] {
          var j: nat :| FirstKeyword(keywords, id, j) && keywords[j] == FindKeyword(keywords, id).value;
          OneFirstKeyword(keywords, id, j, k);
        }
      }
    }
  }

  lemma {:induction false} HintIff(lib: Lib, norm: string, hints: seq<string>)
    ensures NamesHint(lib, norm, hints) <==> exists i :: 0 <= i < |hints| && lib.containsWord(norm, lib.normalize(hints[i]))
  {
    if hints != [] {
      HintIff(lib, norm, hints[1..]);
      if i :| 0 <= i < |hints| && lib.containsWord(norm, lib.normalize(hints[i])) {
        assert i > 0 ==> hints[1..][i - 1] == hints[i];
      }
      if i :| 0 <= i < |hints[1..]| && lib.containsWord(norm, lib.normalize(hints[1..][i])) {
        assert hints[i + 1] == hints[1..][i];
      }
    }
  }

  lemma SpeaksIff(lib: Lib, norm: string, keyword: Keyword)
    ensures NamesHint(lib, norm, [keyword.name] + keyword.synonyms) <==> Speaks(lib, norm, keyword)
  {
    hide NamesHint;
    var words := [keyword.name] + keyword.synonyms;
    HintIff(lib, norm, words);
    if i :| 0 <= i < |words| && lib.containsWord(norm, lib.normalize(words[i])) {
      assert i > 0 ==> words[i] == keyword.synonyms[i - 1];
    }
    if i :| 0 <= i < |keyword.synonyms| && lib.containsWord(norm, lib.normalize(keyword.synonyms[i])) {
      assert words[i + 1] == keyword.synonyms[i];
    }
    assert words[0] == keyword.name;
  }

  lemma {:induction false} SomeSpeaks(lib: Lib, norm: string, ks: seq<Keyword>)
    ensures NamesKeyword(lib, norm, ks) <==> exists keyword :: keyword in ks && Speaks(lib, norm, keyword)
  {
    hide NamesHint, Speaks;
    if ks != [] {
      SpeaksIff(lib, norm, ks[0]);
      SomeSpeaks(lib, norm, ks[1..]);
      assert forall x :: x in ks <==> x == ks[0] || x in ks[1..];
    }
  }

  lemma KeywordHoldsIff(lib: Lib, b: Bundle, n: Node, norm: string)
    ensures var ks := ExistingKeywords(b.keywords, n.keywordIds);
      && (ks != [] <==> UsesKeywords(b, n))
      && (NamesKeyword(lib, norm, ks) <==> KeywordHolds(lib, b, n, norm))
  {
    hide ExistingKeywords, NamesKeyword, FirstKeyword, Speaks;
    var ks := ExistingKeywords(b.keywords, n.keywordIds);
    ExistingKeywordsAre(b.keywords, n.keywordIds);
    SomeSpeaks(lib, norm, ks);
    if ks != [] {
      assert ks[0] in ks;
    }
    if id, k: nat :| id in n.keywordIds && FirstKeyword(b.keywords, id, k) {
      assert NamedFirst(b.keywords, n.keywordIds, b.keywords[k]);
    }
    if id, k: nat :| id in n.keywordIds && FirstKeyword(b.keywords, id, k) && Speaks(lib, norm, b.keywords[k]) {
      assert NamedFirst(b.keywords, n.keywordIds, b.keywords[k]);
    }
  }

  /** One condition: nothing when it is on nothing, else whether it holds. */
  lemma ThreeResults(x: seq<bool>, y: seq<bool>, z: seq<bool>)
    requires |x| <= 1 && |y| <= 1 && |z| <= 1
    ensures false in x + y + z <==> x == [false] || y == [false] || z == [false]
    ensures true in x + y + z <==> x == [true] || y == [true] || z == [true]
    ensures x + y + z == [] <==> x == [] && y == [] && z == []
  {
    One(x);
    One(y);
    One(z);
  }

  lemma One(x: seq<bool>)
    requires |x| <= 1
    ensures x == [] || x == [true] || x == [false]
  {
    if x != [] && x[0] {
      assert x == [true];
    } else if x != [] {
      assert x == [false];
    }
  }

  lemma IntentHoldsIff(b: Bundle, n: Node, intentId: Option<Id>)
    ensures var intents := ExistingIntents(b.intents, n.intentIds);
      && (UsesIntents(b, n) <==> intents != [])
      && (IntentHolds(b, n, intentId) <==> intentId.Some? && intentId.value in intents)
  {
    hide ExistingIntents, Known;
    var intents := ExistingIntents(b.intents, n.intentIds);
    ExistingIntentsAre(b.intents, n.intentIds);
    assert intents != [] ==> intents[0] in intents;
  }

  lemma FormUsedIff(b: Bundle, n: Node)
    ensures UsesForm(b, n) <==> n.contextVariableId.Some? && FindForm(b.contexts, n.contextVariableId.value).Some?
  {
    hide FindForm;
  }

  lemma SuitsIff(lib: Lib, b: Bundle, norm: string, intentId: Option<Id>, completedForm: Option<Id>, n: Node)
    ensures NodeMatches(lib, b, norm, intentId, completedForm, n) <==> Suits(lib, b, norm, intentId, completedForm, n)
  {
    hide ExistingIntents, ExistingKeywords, NamesKeyword, KeywordHolds, UsesKeywords, UsesIntents, UsesForm, IntentHolds, FindForm;
    var intents, keywords := ExistingIntents(b.intents, n.intentIds), ExistingKeywords(b.keywords, n.keywordIds);
    IntentHoldsIff(b, n, intentId);
    KeywordHoldsIff(lib, b, n, norm);
    FormUsedIff(b, n);
    var x := if intents != [] then [intentId.Some? && intentId.value in intents] else [];
    var y := if keywords != [] then [NamesKeyword(lib, norm, keywords)] else [];
    var z := if n.contextVariableId.Some? && FindForm(b.contexts, n.contextVariableId.value).Some?
             then [completedForm == n.contextVariableId] else [];
    ThreeResults(x, y, z);
    NoKeywordHolds(lib, b, n, norm);
  }

  lemma NoKeywordHolds(lib: Lib, b: Bundle, n: Node, norm: string)
    ensures KeywordHolds(lib, b, n, norm) ==> UsesKeywords(b, n)
  {
    hide FirstKeyword, Speaks;
  }

  // ---------------------------------------------------------------- which node comes first

  /** `a` and `b` agree up to place `k`, where `a` ends or has the smaller character. */
  ghost predicate DifferAt(a: string, b: string, k: nat)
  {
    k <= |a| && k < |b| && a[..k] == b[..k] && (k == |a| || a[k] < b[k])
  }

  ghost predicate Sooner(a: string, b: string) { exists k: nat :: DifferAt(a, b, k) }

  lemma AgreeFirst(a: string, b: string, k: nat)
    requires DifferAt(a, b, k) && k > 0
    ensures a != [] && a[0] == b[0]
  {
    assert a[0] == a[..k][0] && b[0] == b[..k][0];
  }

  lemma {:induction false} LexLessIff(a: string, b: string)
    ensures LexLess(a, b) <==> Sooner(a, b)
  {
    if a != [] && b != [] && a[0] == b[0] {
      LexLessIff(a[1..], b[1..]);
      if k: nat :| DifferAt(a[1..], b[1..], k) {
        assert a[..k + 1] == [a[0]] + a[1..][..k] && b[..k + 1] == [b[0]] + b[1..][..k];
        assert DifferAt(a, b, k + 1);
      }
      if k: nat :| DifferAt(a, b, k) {
        assert k > 0;
        assert a[1..][..k - 1] == a[..k][1..] && b[1..][..k - 1] == b[..k][1..];
        assert DifferAt(a[1..], b[1..], k - 1);
      }
    } else if b != [] {
      if a == [] || a[0] < b[0] {
        assert DifferAt(a, b, 0);
      }
      if k: nat :| DifferAt(a, b, k) && k > 0 {
        AgreeFirst(a, b, k);
      }
    }
  }

  /** How many conditions a node has. */
  ghost function Weight(n: Node): nat { |n.intentIds + n.keywordIds| + if n.contextVariableId == None then 0 else 1 }

  /** The higher priority, then the more conditions, then all rather than any, then the later update, then the smaller id. */
  ghost predicate Precedes(a: Node, b: Node)
  {
    || a.priority > b.priority
    || (a.priority == b.priority && Weight(a) > Weight(b))
    || (a.priority == b.priority && Weight(a) == Weight(b) && a.matchAll && !b.matchAll)
    || (a.priority == b.priority && Weight(a) == Weight(b) && a.matchAll == b.matchAll && a.updatedAt > b.updatedAt)
    || (a.priority == b.priority && Weight(a) == Weight(b) && a.matchAll == b.matchAll && a.updatedAt == b.updatedAt && Sooner(a.id, b.id))
  }

  lemma PrecedesIff(a: Node, b: Node)
    ensures Before(a, b) <==> Precedes(a, b)
  {
    hide LexLess, Sooner;
    LexLessIff(a.id, b.id);
  }
}
