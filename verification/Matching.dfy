/** Choosing an intent, a node or a question for a text: scoring, ranking and the prebuilt index
    (packages/dialogue-engine/src/matcher.ts, node-matcher.ts, faq.ts, homonym.ts, dialogue-index.ts). */
module Matching {
  import opened Prelude
  import opened Dialogue

  // ---------------------------------------------------------------- first-wins argmax

  /** The first position holding the greatest score, when some score is positive. */
  function Best(scores: seq<nat>): (r: Option<nat>)
    ensures r.None? <==> forall i :: 0 <= i < |scores| ==> scores[i] == 0
    ensures r.Some? ==> r.value < |scores| && scores[r.value] > 0
    ensures r.Some? ==> forall i :: 0 <= i < |scores| ==> scores[i] <= scores[r.value]
    ensures r.Some? ==> forall i :: 0 <= i < r.value ==> scores[i] < scores[r.value]
  {
    if scores == [] then None
    else
      var front, last := scores[..|scores| - 1], scores[|scores| - 1];
      var best := Best(front);
      if last > (if best.Some? then front[best.value] else 0) then Some(|front|) else best
  }

  predicate IsSubstring(a: string, b: string)
  {
    a <= b || (b != [] && IsSubstring(a, b[1..]))
  }

  function TextScore(input: string, norm: string, exactOnly: bool): nat
  {
    if norm == [] then 0
    else if input == norm then |norm| + 1000
    else if !exactOnly && (IsSubstring(norm, input) || IsSubstring(input, norm)) then Min(|input|, |norm|)
    else 0
  }

  // ---------------------------------------------------------------- intents

  datatype Example = Example(intentId: Id, norm: string, original: string)

  datatype IntentMatch = IntentMatch(intentId: Id, matchedExample: string)

  const BOOST_SCORE := 100000

  function Score(input: string, e: Example, boost: seq<Id>, exactOnly: bool): nat
  {
    var s := TextScore(input, e.norm, exactOnly);
    if s == 0 then 0 else if e.intentId in boost then s + BOOST_SCORE else s
  }

  function Scores(input: string, es: seq<Example>, boost: seq<Id>, exactOnly: bool): (r: seq<nat>)
    ensures |r| == |es|
    ensures forall i :: 0 <= i < |es| ==> r[i] == Score(input, es[i], boost, exactOnly)
  {
    seq(|es|, i requires 0 <= i < |es| => Score(input, es[i], boost, exactOnly))
  }

  function ChooseExample(input: string, es: seq<Example>, boost: seq<Id>, exactOnly: bool): Option<IntentMatch>
  {
    var best := Best(Scores(input, es, boost, exactOnly));
    if input == [] || best.None? then None else Some(IntentMatch(es[best.value].intentId, es[best.value].original))
  }

  function IntentExamples(lib: Lib, id: Id, examples: seq<string>): seq<Example>
  {
    if examples == [] then []
    else [Example(id, lib.normalize(examples[0]), examples[0])] + IntentExamples(lib, id, examples[1..])
  }

  /** Every example of every intent, normalised, in bundle order. */
  function AllExamples(lib: Lib, intents: seq<Intent>): seq<Example>
  {
    if intents == [] then [] else IntentExamples(lib, intents[0].id, intents[0].examples) + AllExamples(lib, intents[1..])
  }

  /** The loop of `matchIntent`. */
  method MatchIntent(input: string, es: seq<Example>, boost: seq<Id>, exactOnly: bool) returns (r: Option<IntentMatch>)
    ensures r == ChooseExample(input, es, boost, exactOnly)
  {
    if input == [] {
      return None;
    }
    var best: Option<IntentMatch> := None;
    var bestScore := 0;
    ghost var scores := Scores(input, es, boost, exactOnly);
    for i := 0 to |es|
      invariant var b := Best(scores[..i]);
                && best == (if b.None? then None else Some(IntentMatch(es[b.value].intentId, es[b.value].original)))
                && bestScore == if b.None? then 0 else scores[b.value]
    {
      var s := Score(input, es[i], boost, exactOnly);
      assert scores[..i + 1][..i] == scores[..i] && scores[i] == s;
      if s > bestScore {
        bestScore := s;
        best := Some(IntentMatch(es[i].intentId, es[i].original));
      }
    }
    assert scores[..|es|] == scores;
    r := best;
  }

  // ---------------------------------------------------------------- questions

  datatype FaqCandidate = FaqCandidate(faqId: Id, answer: string, norm: string)

  function FaqTexts(lib: Lib, faq: Faq, texts: seq<string>): seq<FaqCandidate>
  {
    if texts == [] then [] else [FaqCandidate(faq.id, faq.answer, lib.normalize(texts[0]))] + FaqTexts(lib, faq, texts[1..])
  }

  function FaqCandidates(lib: Lib, faqs: seq<Faq>): seq<FaqCandidate>
  {
    if faqs == [] then []
    else (if faqs[0].enabled then FaqTexts(lib, faqs[0], [faqs[0].question] + faqs[0].altQuestions) else [])
         + FaqCandidates(lib, faqs[1..])
  }

  function MatchFaq(lib: Lib, input: string, faqs: seq<Faq>, exactOnly: bool): Option<FaqCandidate>
  {
    var cs := FaqCandidates(lib, faqs);
    var best := Best(seq(|cs|, i requires 0 <= i < |cs| => TextScore(input, cs[i].norm, exactOnly)));
    if input == [] || best.None? then None else Some(cs[best.value])
  }

  // ---------------------------------------------------------------- homonyms

  datatype HomonymStatus = Resolved(intentId: Option<Id>) | Ambiguous | Ignored

  datatype HomonymEvaluation = NoHomonym | Evaluated(dict: Homonym, status: HomonymStatus)

  predicate NamesHint(lib: Lib, norm: string, hints: seq<string>)
  {
    hints != [] && (lib.containsWord(norm, lib.normalize(hints[0])) || NamesHint(lib, norm, hints[1..]))
  }

  /** Meanings with a hint in the text. */
  function Hinted(lib: Lib, norm: string, ms: seq<Meaning>): seq<Meaning>
  {
    if ms == [] then [] else (if NamesHint(lib, norm, ms[0].hints) then [ms[0]] else []) + Hinted(lib, norm, ms[1..])
  }

  function EvaluateHomonym(lib: Lib, norm: string, dict: Homonym): HomonymStatus
  {
    var hinted := Hinted(lib, norm, dict.meanings);
    if |hinted| == 1 then Resolved(hinted[0].intentId)
    else if dict.policy == IGNORE then Ignored
    else if dict.policy == DEFAULT_MEANING && dict.defaultMeaning.Some? && dict.defaultMeaning.value < |dict.meanings| then
      Resolved(dict.meanings[dict.defaultMeaning.value].intentId)
    else Ambiguous
  }

  function ResolveHomonym(lib: Lib, norm: string, dicts: seq<Homonym>): (r: HomonymEvaluation)
    ensures r.Evaluated? ==> r.dict in dicts
  {
    if dicts == [] then NoHomonym
    else if lib.containsWord(norm, lib.normalize(dicts[0].word)) then Evaluated(dicts[0], EvaluateHomonym(lib, norm, dicts[0]))
    else ResolveHomonym(lib, norm, dicts[1..])
  }

  // ---------------------------------------------------------------- nodes

  predicate HasIntent(intents: seq<Intent>, id: Id)
  {
    intents != [] && (intents[0].id == id || HasIntent(intents[1..], id))
  }

  function ExistingIntents(intents: seq<Intent>, ids: seq<Id>): seq<Id>
  {
    if ids == [] then [] else (if HasIntent(intents, ids[0]) then [ids[0]] else []) + ExistingIntents(intents, ids[1..])
  }

  function ExistingKeywords(keywords: seq<Keyword>, ids: seq<Id>): seq<Keyword>
  {
    if ids == [] then []
    else
      var k := FindKeyword(keywords, ids[0]);
      (if k.Some? then [k.value] else []) + ExistingKeywords(keywords, ids[1..])
  }

  predicate NamesKeyword(lib: Lib, norm: string, ks: seq<Keyword>)
  {
    ks != [] && (NamesHint(lib, norm, [ks[0].name] + ks[0].synonyms) || NamesKeyword(lib, norm, ks[1..]))
  }

  /** `evaluateNode`: broken references are left out; a node without a usable condition matches nothing. */
  predicate NodeMatches(lib: Lib, b: Bundle, norm: string, intentId: Option<Id>, completedForm: Option<Id>, n: Node)
  {
    var intents, keywords := ExistingIntents(b.intents, n.intentIds), ExistingKeywords(b.keywords, n.keywordIds);
    var results :=
      (if intents != [] then [intentId.Some? && intentId.value in intents] else [])
      + (if keywords != [] then [NamesKeyword(lib, norm, keywords)] else [])
      + (if n.contextVariableId.Some? && FindForm(b.contexts, n.contextVariableId.value).Some?
         then [completedForm == n.contextVariableId] else []);
    results != [] && if n.matchAll then false !in results else true in results
  }

  function Conditions(n: Node): nat
  {
    |n.intentIds| + |n.keywordIds| + if n.contextVariableId.Some? then 1 else 0
  }

  predicate LexLess(a: string, b: string)
  {
    b != [] && (a == [] || a[0] < b[0] || (a[0] == b[0] && LexLess(a[1..], b[1..])))
  }

  /** The five-key comparator of `rankNodes`: does `a` come strictly before `b`? */
  predicate Before(a: Node, b: Node)
  {
    if a.priority != b.priority then a.priority > b.priority
    else if Conditions(a) != Conditions(b) then Conditions(a) > Conditions(b)
    else if a.matchAll != b.matchAll then a.matchAll
    else if a.updatedAt != b.updatedAt then a.updatedAt > b.updatedAt
    else LexLess(a.id, b.id)
  }

  /** Inserts after every node that does not come later, as a stable sort does. */
  function InsertNode(n: Node, ranked: seq<Node>): seq<Node>
  {
    if ranked == [] then [n]
    else if Before(n, ranked[0]) then [n] + ranked
    else [ranked[0]] + InsertNode(n, ranked[1..])
  }

  function RankNodes(nodes: seq<Node>): seq<Node>
  {
    if nodes == [] then [] else InsertNode(nodes[|nodes| - 1], RankNodes(nodes[..|nodes| - 1]))
  }

  /** The first node of the ranking that may answer and does. */
  function FirstMatch(lib: Lib, b: Bundle, norm: string, intentId: Option<Id>, form: Option<Id>, ranked: seq<Node>): (r: Option<Node>)
    ensures r.Some? ==> r.value in ranked && r.value.enabled && r.value.kind != FALLBACK
  {
    if ranked == [] then None
    else if ranked[0].enabled && ranked[0].kind != FALLBACK && NodeMatches(lib, b, norm, intentId, form, ranked[0]) then Some(ranked[0])
    else FirstMatch(lib, b, norm, intentId, form, ranked[1..])
  }

  lemma {:induction false} InsertedNodes(n: Node, ranked: seq<Node>)
    ensures multiset(InsertNode(n, ranked)) == multiset{n} + multiset(ranked)
  {
    if ranked != [] {
      assert ranked == [ranked[0]] + ranked[1..];
      if !Before(n, ranked[0]) {
        InsertedNodes(n, ranked[1..]);
      }
    }
  }

  lemma {:induction false} RankedNodes(nodes: seq<Node>)
    ensures multiset(RankNodes(nodes)) == multiset(nodes)
  {
    if nodes != [] {
      var front, last := nodes[..|nodes| - 1], nodes[|nodes| - 1];
      RankedNodes(front);
      InsertedNodes(last, RankNodes(front));
      assert nodes == front + [last];
    }
  }

  // ---------------------------------------------------------------- the prebuilt index

  datatype Index = Index(examples: seq<Example>, nodesRanked: seq<Node>, nodesById: map<Id, Node>)

  /** Examples that normalise to nothing are not indexed. */
  function WithText(es: seq<Example>): seq<Example>
  {
    if es == [] then [] else (if es[0].norm == [] then [] else [es[0]]) + WithText(es[1..])
  }

  /** Later nodes overwrite earlier ones of the same id. */
  function ById(nodes: seq<Node>): map<Id, Node>
  {
    if nodes == [] then map[] else ById(nodes[..|nodes| - 1])[nodes[|nodes| - 1].id := nodes[|nodes| - 1]]
  }

  function IndexOf(lib: Lib, b: Bundle): Index
  {
    Index(WithText(AllExamples(lib, b.intents)), RankNodes(b.nodes), ById(b.nodes))
  }

  /** The parts of `buildDialogueIndex` that the resolver reads. */
  method BuildIndex(lib: Lib, b: Bundle) returns (r: Index)
    ensures r == IndexOf(lib, b)
  {
    var examples: seq<Example> := [];
    var all := AllExamples(lib, b.intents);
    for i := 0 to |all|
      invariant WithText(all) == examples + WithText(all[i..])
    {
      assert all[i..][1..] == all[i + 1..];
      if all[i].norm != [] {
        examples := examples + [all[i]];
      }
    }
    assert all[|all|..] == [];
    var byId: map<Id, Node> := map[];
    for i := 0 to |b.nodes|
      invariant byId == ById(b.nodes[..i])
    {
      assert b.nodes[..i + 1][..i] == b.nodes[..i];
      byId := byId[b.nodes[i].id := b.nodes[i]];
    }
    assert b.nodes[..|b.nodes|] == b.nodes;
    r := Index(examples, RankNodes(b.nodes), byId);
  }
}
