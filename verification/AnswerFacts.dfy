/** What the stages of the pipeline mean for the one who asked: which fallback, question or meaning answers, what a
    button offers, what a finished survey leaves behind. */
module AnswerFacts {
  import opened Prelude
  import opened Dialogue
  import opened Matching
  import opened ApiCalls
  import opened Resolver
  import opened PipelineFacts
  import ContextForms
  import ExecutorFacts
  import IndexFacts
  import OutputExecutor
  import SurveyAnswers
  import SurveySessions

  // ---------------------------------------------------------------- fallback

  /** The first listed enabled fallback node. */
  ghost predicate FirstFallback(nodes: seq<Node>, i: int)
  {
    0 <= i < |nodes| && IsFallback(nodes[i]) && forall j :: 0 <= j < i ==> !IsFallback(nodes[j])
  }

  /** The oldest enabled error response, the first listed among equally old ones. */
  ghost predicate OldestApology(faqs: seq<Faq>, i: int)
  {
    && 0 <= i < |faqs| && IsApology(faqs[i])
    && (forall j :: 0 <= j < i && IsApology(faqs[j]) ==> faqs[i].createdAt < faqs[j].createdAt)
    && (forall j :: i < j < |faqs| && IsApology(faqs[j]) ==> faqs[i].createdAt <= faqs[j].createdAt)
  }

  lemma {:induction false} FallbackIsFirst(nodes: seq<Node>) returns (i: int)
    requires FindFallback(nodes).Some?
    ensures FirstFallback(nodes, i) && FindFallback(nodes) == Some(nodes[i])
  {
    if IsFallback(nodes[0]) {
      i := 0;
    } else {
      i := FallbackIsFirst(nodes[1..]);
      i := i + 1;
      assert forall j :: 0 < j < |nodes| ==> nodes[j] == nodes[1..][j - 1];
    }
  }

  lemma {:induction false} ApologyIsOldest(faqs: seq<Faq>) returns (i: int)
    requires OldestErrorFaq(faqs).Some?
    ensures OldestApology(faqs, i) && OldestErrorFaq(faqs) == Some(faqs[i])
  {
    assert forall j :: 0 < j < |faqs| ==> faqs[j] == faqs[1..][j - 1];
    var rest := OldestErrorFaq(faqs[1..]);
    if rest.Some? && (!IsApology(faqs[0]) || rest.value.createdAt < faqs[0].createdAt) {
      i := ApologyIsOldest(faqs[1..]);
      i := i + 1;
    } else {
      i := 0;
    }
  }

  /** The turn ends with one more output and runs no node; the sessions and the surveys are what they were at this site. */
  ghost predicate EndsWith(r: Resolution, s: Site, o: Output)
  {
    && r.outputs == s.carry + [o] && r.nextSession == s.override && TakesPart(s, None, r.survey)
    && r.apiCall.None? && r.matchedNodeId.None? && r.unsupported == [] && r.workflow.None?
  }

  lemma MergeTakesPart(s: Site)
    ensures TakesPart(s, None, MergeSurvey(s.eventsSoFar, s.surveyTurn, None, s.consumed))
  {
  }

  /** A fallback that runs no node. */
  ghost predicate Apologises(r: Resolution, t: Turn, s: Site, text: string)
  {
    EndsWith(r, s, Text(text)) && r.pending.None? && r.matchedIntentId.None?
  }

  /** The first enabled fallback node is run if there is one; otherwise the oldest enabled error response is given;
      the default text only when there is neither. */
  ghost predicate FallsBack(t: Turn, s: Site, r: Resolution)
  {
    var nodes, faqs := t.bundle.nodes, t.bundle.faqs;
    || (exists i :: FirstFallback(nodes, i) && r == RunNode(t.lib, t.bundle, t.now, s, nodes[i]))
    || ((forall n :: n in nodes ==> !IsFallback(n))
        && exists i :: OldestApology(faqs, i) && Apologises(r, t, s, faqs[i].answer) && r.matchedFaqId == Some(faqs[i].id))
    || ((forall n :: n in nodes ==> !IsFallback(n)) && (forall f :: f in faqs ==> !IsApology(f))
        && Apologises(r, t, s, t.options.defaultFallback.GetOr(OutputExecutor.DEFAULT_FALLBACK_RESPONSE)) && r.matchedFaqId.None?)
  }

  lemma FallbackOrder(t: Turn, s: Site)
    ensures FallsBack(t, s, Fallback(t, s))
  {
    hide RunNode, FindFallback, OldestErrorFaq, IsFallback, IsApology, FirstFallback, OldestApology, MergeSurvey, TakesPart;
    MergeTakesPart(s);
    if FindFallback(t.bundle.nodes).Some? {
      var i := FallbackIsFirst(t.bundle.nodes);
    } else if OldestErrorFaq(t.bundle.faqs).Some? {
      var i := ApologyIsOldest(t.bundle.faqs);
    }
  }

  // ---------------------------------------------------------------- question, intent, fallback

  /** The candidate at `i` scores, more than those before it and no less than those after it. */
  ghost predicate BestQuestion(cs: seq<FaqCandidate>, norm: string, exactOnly: bool, i: int)
  {
    && 0 <= i < |cs| && TextScore(norm, cs[i].norm, exactOnly) > 0
    && (forall j :: 0 <= j < i ==> TextScore(norm, cs[j].norm, exactOnly) < TextScore(norm, cs[i].norm, exactOnly))
    && (forall j :: i < j < |cs| ==> TextScore(norm, cs[j].norm, exactOnly) <= TextScore(norm, cs[i].norm, exactOnly))
  }

  ghost predicate NoQuestion(cs: seq<FaqCandidate>, norm: string, exactOnly: bool)
  {
    forall i :: 0 <= i < |cs| ==> TextScore(norm, cs[i].norm, exactOnly) == 0
  }

  lemma MatchedQuestion(lib: Lib, norm: string, faqs: seq<Faq>, exactOnly: bool) returns (i: int)
    requires norm != []
    ensures var r, cs := MatchFaq(lib, norm, faqs, exactOnly), FaqCandidates(lib, faqs);
      (r.None? <==> NoQuestion(cs, norm, exactOnly)) && (r.Some? ==> BestQuestion(cs, norm, exactOnly, i) && r.value == cs[i])
  {
    hide FaqCandidates, TextScore;
    var cs := FaqCandidates(lib, faqs);
    var scores := seq(|cs|, i requires 0 <= i < |cs| => TextScore(norm, cs[i].norm, exactOnly));
    var best := Best(scores);
    i := if best.Some? then best.value else 0;
    assert forall j :: 0 <= j < |cs| ==> scores[j] == TextScore(norm, cs[j].norm, exactOnly);
  }

  ghost predicate Says(r: Resolution, s: Site, o: Output, faqId: Option<Id>, intentId: Option<Id>)
  {
    EndsWith(r, s, o) && r.matchedFaqId == faqId && r.matchedIntentId == intentId && r.pending.None?
  }

  /** A button for each candidate that sends the candidate, or its first 200 characters, and shows it, or its first 39 and an
      ellipsis. */
  ghost predicate Offers(candidates: seq<string>, o: Output)
  {
    && o.Buttons? && o.prompt == Some("이 중에 해당하는 게 있을까요?") && !o.quickReply && |o.buttons| == |candidates|
    && forall i :: 0 <= i < |candidates| ==>
         && o.buttons[i].action == MESSAGE
         && o.buttons[i].value == (if |candidates[i]| > 200 then candidates[i][..200] else candidates[i])
         && o.buttons[i].caption == (if |candidates[i]| > 40 then candidates[i][..39] + "…" else candidates[i])
  }

  lemma {:induction false} CandidatesOffered(texts: seq<string>)
    ensures Offers(texts, CandidateOutput(texts))
  {
    if texts != [] {
      CandidatesOffered(texts[1..]);
    }
  }

  /** The example that matched, or else the first of the intent, if it has one. */
  ghost predicate FitsIntent(t: Turn, norm: string, boost: seq<Id>, id: Id, example: string)
  {
    var intent := IntentFor(t, norm, boost);
    if intent.Some? then example == intent.value.matchedExample
    else example == "" || exists i :: 0 <= i < |t.bundle.intents| && t.bundle.intents[i].id == id && FirstOf(t.bundle.intents[i], example)
  }

  ghost predicate FirstOf(intent: Intent, example: string) { intent.examples != [] && example == intent.examples[0] }

  lemma {:induction false} FirstExampleIs(intents: seq<Intent>, id: Id)
    ensures var example := FirstExample(intents, id);
      example == "" || exists i :: 0 <= i < |intents| && intents[i].id == id && FirstOf(intents[i], example)
  {
    if intents != [] && intents[0].id != id {
      FirstExampleIs(intents[1..], id);
      var example := FirstExample(intents, id);
      if i :| 0 <= i < |intents[1..]| && intents[1..][i].id == id && FirstOf(intents[1..][i], example) {
        assert intents[i + 1] == intents[1..][i];
      }
    }
  }

  ghost predicate NamesIntent(t: Turn, norm: string, boost: seq<Id>, id: Id, text: string)
  {
    exists example :: FitsIntent(t, norm, boost, id, example) && text == "[" + id + "] 의도로 매칭되었습니다 (예문: \"" + example + "\")"
  }

  /** The best scoring question answers, intent or not; next the semantically confirmed question, or a choice of
      candidates; next the bare intent; and only then the fallback. */
  ghost predicate AnswersUnmatched(t: Turn, norm: string, s: Site, boost: seq<Id>, clarified: Option<Id>, r: Resolution)
  {
    var cs, semantic := FaqCandidates(t.lib, t.bundle.faqs), t.options.semantic;
    var seen, silent := SeenIntent(t, norm, boost, clarified), NoQuestion(cs, norm, semantic.Some?);
    || (exists i :: BestQuestion(cs, norm, semantic.Some?, i) && Says(r, s, Text(cs[i].answer), Some(cs[i].faqId), seen))
    || (silent && exists f :: ConfirmedFaq(t, f) && Says(r, s, Text(f.answer), Some(f.id), seen))
    || (silent && semantic.Some? && semantic.value.AmbiguousBand? && SaysOffer(r, s, semantic.value.candidates))
    || (silent && NoBand(t) && seen.Some?
        && exists text :: NamesIntent(t, norm, boost, seen.value, text) && Says(r, s, Text(text), None, seen))
    || (silent && NoBand(t) && seen.None? && r == Fallback(t, s.(matchedIntentId := None)))
  }

  ghost predicate SaysOffer(r: Resolution, s: Site, candidates: seq<string>)
  {
    exists o :: Offers(candidates, o) && Says(r, s, o, None, None)
  }

  /** So it is when no node is eligible. */
  lemma QuestionBeforeIntent(t: Turn, norm: string, s: Site, boost: seq<Id>, clarified: Option<Id>)
    requires UniqueIds(t.bundle.nodes) && t.options.index.None? && norm != []
    requires NothingEligible(t.lib, t.bundle, CueOf(t, norm, s, boost, clarified))
    ensures AnswersUnmatched(t, norm, s, boost, clarified, Answer(t, norm, s, boost, clarified))
  {
    hide FirstMatch, RankNodes, RunNode, NothingEligible, Foremost, IntentFor, ConfirmedIntentId, FaqReply, Fallback, UniqueIds;
    hide NoQuestion, BestQuestion, FaqCandidates, NoBand, ConfirmedFaq, MergeSurvey, FirstExample;
    var cue := CueOf(t, norm, s, boost, clarified);
    ChosenNode(t.lib, t.bundle, cue);
    FaqReplyMeans(t, norm, s, cue.intentId);
    if FaqReply(t, norm, s, cue.intentId).None? && cue.intentId.Some? {
      IntentSays(t, norm, s, boost, clarified);
    }
  }

  /** The foremost eligible node is run; when there is none, the answer is found as above. */
  ghost predicate AnswersInOrder(t: Turn, norm: string, s: Site, boost: seq<Id>, clarified: Option<Id>, r: Resolution)
  {
    var cue := CueOf(t, norm, s, boost, clarified);
    || (exists n :: Foremost(t.lib, t.bundle, cue, n)
                    && r == RunNode(t.lib, t.bundle, t.now, s.(matchedIntentId := cue.intentId), n))
    || (NothingEligible(t.lib, t.bundle, cue) && AnswersUnmatched(t, norm, s, boost, clarified, r))
  }

  lemma AnswerOrder(t: Turn, norm: string, s: Site, boost: seq<Id>, clarified: Option<Id>)
    requires UniqueIds(t.bundle.nodes) && t.options.index.None? && norm != []
    ensures AnswersInOrder(t, norm, s, boost, clarified, Answer(t, norm, s, boost, clarified))
  {
    hide Answer, RunNode, NothingEligible, Foremost, UniqueIds, AnswersUnmatched, CueOf;
    var n := ForemostNodeAnswers(t, norm, s, boost, clarified);
    if n.None? {
      QuestionBeforeIntent(t, norm, s, boost, clarified);
    }
  }

  /** An enabled question that the semantic scores confirm. */
  ghost predicate ConfirmedFaq(t: Turn, f: Faq)
  {
    && t.options.semantic.Some? && t.options.semantic.value.ConfirmedFaq? && f in t.bundle.faqs
    && f.id == t.options.semantic.value.faqId && f.enabled
  }

  /** The semantic scores, if any, neither confirm an enabled question nor leave a choice. */
  ghost predicate NoBand(t: Turn)
  {
    t.options.semantic.Some? ==> !t.options.semantic.value.AmbiguousBand? && forall f :: f in t.bundle.faqs ==> !ConfirmedFaq(t, f)
  }

  lemma {:induction false} FoundFaq(faqs: seq<Faq>, id: Id)
    ensures var r := FindFaq(faqs, id);
      && (r.Some? ==> r.value in faqs && r.value.id == id && r.value.enabled)
      && (r.None? ==> forall f :: f in faqs ==> f.id != id || !f.enabled)
  {
    if faqs != [] {
      FoundFaq(faqs[1..], id);
    }
  }

  lemma FaqReplyMeans(t: Turn, norm: string, s: Site, intentId: Option<Id>)
    requires norm != []
    ensures var r, cs, semantic := FaqReply(t, norm, s, intentId), FaqCandidates(t.lib, t.bundle.faqs), t.options.semantic;
      var silent := NoQuestion(cs, norm, semantic.Some?);
      && (r.None? ==> silent && NoBand(t))
      && (r.Some? ==>
            || (exists i :: BestQuestion(cs, norm, semantic.Some?, i) && Says(r.value, s, Text(cs[i].answer), Some(cs[i].faqId), intentId))
            || (silent && exists f :: ConfirmedFaq(t, f) && Says(r.value, s, Text(f.answer), Some(f.id), intentId))
            || (silent && semantic.Some? && semantic.value.AmbiguousBand? && SaysOffer(r.value, s, semantic.value.candidates)))
  {
    hide MatchFaq, FaqCandidates, FindFaq, NoQuestion, BestQuestion, CandidateOutput, MergeSurvey, TakesPart, Offers;
    MergeTakesPart(s);
    if t.options.semantic.Some? && t.options.semantic.value.AmbiguousBand? {
      CandidatesOffered(t.options.semantic.value.candidates);
    }
    var i := MatchedQuestion(t.lib, norm, t.bundle.faqs, t.options.semantic.Some?);
    if t.options.semantic.Some? && t.options.semantic.value.ConfirmedFaq? {
      FoundFaq(t.bundle.faqs, t.options.semantic.value.faqId);
    }
  }

  lemma IntentSays(t: Turn, norm: string, s: Site, boost: seq<Id>, clarified: Option<Id>)
    requires var cue := CueOf(t, norm, s, boost, clarified);
      && FirstMatch(t.lib, t.bundle, norm, cue.intentId, cue.form, Ranking(t)).None?
      && FaqReply(t, norm, s, cue.intentId).None? && cue.intentId.Some?
    ensures var seen := SeenIntent(t, norm, boost, clarified);
      exists text :: NamesIntent(t, norm, boost, seen.value, text) && Says(Answer(t, norm, s, boost, clarified), s, Text(text), None, seen)
  {
    hide FirstMatch, IntentFor, ConfirmedIntentId, FaqReply, MergeSurvey, FirstExample, IntentText, TakesPart;
    MergeTakesPart(s);
    var intent, seen := IntentFor(t, norm, boost), SeenIntent(t, norm, boost, clarified);
    var example := if intent.Some? then intent.value.matchedExample else FirstExample(t.bundle.intents, seen.value);
    FirstExampleIs(t.bundle.intents, seen.value);
    IntentIsText(seen.value, example);
    assert FitsIntent(t, norm, boost, seen.value, example);
    assert Says(Answer(t, norm, s, boost, clarified), s, IntentText(seen.value, example), None, seen);
  }

  lemma IntentIsText(id: Id, example: string)
    ensures IntentText(id, example) == Text("[" + id + "] 의도로 매칭되었습니다 (예문: \"" + example + "\")")
  {
  }

  // ---------------------------------------------------------------- offered questions

  predicate Asks(f: Faq, text: string) { f.enabled && text in [f.question] + f.altQuestions }

  lemma {:induction false} TextIsCandidate(lib: Lib, f: Faq, texts: seq<string>, text: string)
    requires text in texts
    ensures FaqCandidate(f.id, f.answer, lib.normalize(text)) in FaqTexts(lib, f, texts)
  {
    if texts[0] != text {
      TextIsCandidate(lib, f, texts[1..], text);
    }
  }

  lemma {:induction false} QuestionIsCandidate(lib: Lib, faqs: seq<Faq>, f: Faq, text: string)
    requires f in faqs && Asks(f, text)
    ensures FaqCandidate(f.id, f.answer, lib.normalize(text)) in FaqCandidates(lib, faqs)
  {
    hide FaqTexts;
    if faqs[0] == f {
      TextIsCandidate(lib, f, [f.question] + f.altQuestions, text);
    } else {
      QuestionIsCandidate(lib, faqs[1..], f, text);
    }
  }

  lemma {:induction false} CandidateButton(texts: seq<string>, k: nat)
    requires k < |texts|
    ensures var bs := CandidateButtons(texts);
      && bs[k].action == MESSAGE && |bs[k].caption| <= 40
      && (|texts[k]| <= 200 ==> bs[k].value == texts[k])
  {
    if k > 0 {
      CandidateButton(texts[1..], k - 1);
    } else if |texts| > 1 {
      CandidateButton(texts[1..], 0);
    }
  }

  /** A question offered as a candidate is answered when its button is pressed: what the button sends, up to the 200
      characters a button may send, matches a question of exactly that text. */
  lemma OfferedQuestionIsAnswered(lib: Lib, faqs: seq<Faq>, f: Faq, texts: seq<string>, k: nat, exactOnly: bool)
    requires k < |texts| && |texts[k]| <= 200 && f in faqs && Asks(f, texts[k]) && lib.normalize(texts[k]) != []
    ensures var norm := lib.normalize(CandidateButtons(texts)[k].value);
      var r := MatchFaq(lib, norm, faqs, exactOnly);
      norm == lib.normalize(texts[k]) && r.Some? && r.value.norm == norm
  {
    hide FaqCandidates, MatchFaq, CandidateButtons, IsSubstring, Asks;
    CandidateButton(texts, k);
    var norm := lib.normalize(texts[k]);
    var cs := FaqCandidates(lib, faqs);
    QuestionIsCandidate(lib, faqs, f, texts[k]);
    var j :| 0 <= j < |cs| && cs[j] == FaqCandidate(f.id, f.answer, norm);
    assert TextScore(norm, cs[j].norm, exactOnly) == |norm| + 1000;
    var i := MatchedQuestion(lib, norm, faqs, exactOnly);
    ExactWins(norm, cs[i].norm, exactOnly);
  }

  lemma ExactWins(input: string, norm: string, exactOnly: bool)
    ensures TextScore(input, norm, exactOnly) >= |input| + 1000 ==> norm == input
  {
  }

  /** Some enabled question reads like this. */
  ghost predicate IsKnown(lib: Lib, faqs: seq<Faq>, norm: string)
  {
    exists f, text :: f in faqs && Asks(f, text) && lib.normalize(text) == norm
  }

  lemma {:induction false} CandidateIsText(lib: Lib, f: Faq, texts: seq<string>, c: FaqCandidate) returns (text: string)
    requires c in FaqTexts(lib, f, texts)
    ensures text in texts && lib.normalize(text) == c.norm
  {
    if c == FaqCandidate(f.id, f.answer, lib.normalize(texts[0])) {
      text := texts[0];
    } else {
      text := CandidateIsText(lib, f, texts[1..], c);
    }
  }

  lemma {:induction false} CandidateIsQuestion(lib: Lib, faqs: seq<Faq>, c: FaqCandidate)
    requires c in FaqCandidates(lib, faqs)
    ensures IsKnown(lib, faqs, c.norm)
  {
    hide FaqTexts;
    if faqs[0].enabled && c in FaqTexts(lib, faqs[0], [faqs[0].question] + faqs[0].altQuestions) {
      var text := CandidateIsText(lib, faqs[0], [faqs[0].question] + faqs[0].altQuestions, c);
      assert Asks(faqs[0], text);
    } else {
      CandidateIsQuestion(lib, faqs[1..], c);
      var f, text :| f in faqs[1..] && Asks(f, text) && lib.normalize(text) == c.norm;
      assert f in faqs;
    }
  }

  /** A question may be longer than what a button sends. So by exact match its button is recognised exactly when the
      question is no longer than that, or when what is left of it happens to read like some question. */
  lemma OfferedQuestionIff(lib: Lib, faqs: seq<Faq>, f: Faq, texts: seq<string>, k: nat)
    requires k < |texts| && f in faqs && Asks(f, texts[k]) && lib.normalize(CandidateButtons(texts)[k].value) != []
    ensures var norm := lib.normalize(CandidateButtons(texts)[k].value);
      MatchFaq(lib, norm, faqs, true).Some? <==> |texts[k]| <= 200 || IsKnown(lib, faqs, norm)
  {
    hide FaqCandidates, MatchFaq, CandidateButtons, IsSubstring, Asks, IsKnown;
    var norm := lib.normalize(CandidateButtons(texts)[k].value);
    var cs := FaqCandidates(lib, faqs);
    CandidateButton(texts, k);
    var i := MatchedQuestion(lib, norm, faqs, true);
    if MatchFaq(lib, norm, faqs, true).Some? {
      CandidateIsQuestion(lib, faqs, cs[i]);
      assert cs[i].norm == norm;
    } else if |texts[k]| <= 200 {
      OfferedQuestionIsAnswered(lib, faqs, f, texts, k, true);
    } else if IsKnown(lib, faqs, norm) {
      KnownIsCandidate(lib, faqs, norm);
    }
  }

  lemma KnownIsCandidate(lib: Lib, faqs: seq<Faq>, norm: string)
    requires IsKnown(lib, faqs, norm) && norm != []
    ensures !NoQuestion(FaqCandidates(lib, faqs), norm, true)
  {
    hide FaqCandidates, Asks;
    var f, text :| f in faqs && Asks(f, text) && lib.normalize(text) == norm;
    QuestionIsCandidate(lib, faqs, f, text);
    var cs := FaqCandidates(lib, faqs);
    var j :| 0 <= j < |cs| && cs[j] == FaqCandidate(f.id, f.answer, norm);
    assert TextScore(norm, cs[j].norm, true) > 0;
  }

  /** In a turn with semantic scores, which only matches exactly, the question stage replies to the button exactly when
      the match finds something or the scores of the text sent confirm a question or leave a choice. */
  lemma OfferedQuestionRepliedIff(t: Turn, s: Site, intentId: Option<Id>, f: Faq, texts: seq<string>, k: nat)
    requires t.options.semantic.Some? && k < |texts| && f in t.bundle.faqs && Asks(f, texts[k])
    requires t.lib.normalize(CandidateButtons(texts)[k].value) != []
    ensures var norm := t.lib.normalize(CandidateButtons(texts)[k].value);
      FaqReply(t, norm, s, intentId).Some? <==> |texts[k]| <= 200 || IsKnown(t.lib, t.bundle.faqs, norm) || !NoBand(t)
  {
    hide MatchFaq, CandidateButtons, Asks, IsKnown, NoBand, FindFaq, MergeSurvey, CandidateOutput;
    OfferedQuestionIff(t.lib, t.bundle.faqs, f, texts, k);
    var norm := t.lib.normalize(CandidateButtons(texts)[k].value);
    if MatchFaq(t.lib, norm, t.bundle.faqs, true).None? {
      ReplyWithoutMatch(t, norm, s, intentId);
    }
  }

  lemma ReplyWithoutMatch(t: Turn, norm: string, s: Site, intentId: Option<Id>)
    requires t.options.semantic.Some? && MatchFaq(t.lib, norm, t.bundle.faqs, true).None?
    ensures FaqReply(t, norm, s, intentId).Some? <==> !NoBand(t)
  {
    hide MatchFaq, FindFaq, MergeSurvey, CandidateOutput;
    if t.options.semantic.value.ConfirmedFaq? {
      FoundFaq(t.bundle.faqs, t.options.semantic.value.faqId);
    }
  }

  /** A question of 201 letters is offered, and its button finds nothing: not by exact match, and so not in a turn whose
      scores fail. */
  lemma LongQuestionIsCutOff(t: Turn, s: Site, intentId: Option<Id>, f: Faq)
    requires t.options.semantic == Some(FailedBand) && t.bundle.faqs == [f]
    requires f.enabled && |f.question| == 201 && f.altQuestions == []
    requires t.lib.normalize(f.question) == f.question && t.lib.normalize(f.question[..200]) == f.question[..200]
    ensures var sent := CandidateButtons([f.question])[0].value;
      && sent == f.question[..200]
      && MatchFaq(t.lib, t.lib.normalize(sent), t.bundle.faqs, true).None?
      && FaqReply(t, t.lib.normalize(sent), s, intentId).None?
  {
    hide MatchFaq, IsKnown, FaqReply;
    if IsKnown(t.lib, [f], f.question[..200]) {
      OnlyQuestion(t.lib, f, f.question[..200]);
    }
    assert Asks(f, f.question);
    OfferedQuestionIff(t.lib, [f], f, [f.question], 0);
    OfferedQuestionRepliedIff(t, s, intentId, f, [f.question], 0);
  }

  lemma OnlyQuestion(lib: Lib, f: Faq, norm: string)
    requires f.altQuestions == [] && IsKnown(lib, [f], norm)
    ensures norm == lib.normalize(f.question)
  {
  }

  // ---------------------------------------------------------------- asking back

  /** The first homonym whose word is in the text. */
  ghost predicate FirstNamed(lib: Lib, norm: string, dicts: seq<Homonym>, i: int)
  {
    && 0 <= i < |dicts| && lib.containsWord(norm, lib.normalize(dicts[i].word))
    && forall j :: 0 <= j < i ==> !lib.containsWord(norm, lib.normalize(dicts[j].word))
  }

  lemma {:induction false} ResolvedHomonym(lib: Lib, norm: string, dicts: seq<Homonym>) returns (i: int)
    ensures var r := ResolveHomonym(lib, norm, dicts);
      && (r.NoHomonym? ==> forall j :: !FirstNamed(lib, norm, dicts, j))
      && (r.Evaluated? ==> FirstNamed(lib, norm, dicts, i) && r == Evaluated(dicts[i], EvaluateHomonym(lib, norm, dicts[i])))
  {
    i := 0;
    if dicts != [] && !lib.containsWord(norm, lib.normalize(dicts[0].word)) {
      i := ResolvedHomonym(lib, norm, dicts[1..]);
      assert forall j :: FirstNamed(lib, norm, dicts, j) ==> FirstNamed(lib, norm, dicts[1..], j - 1);
      assert forall j :: 0 < j < |dicts| ==> dicts[j] == dicts[1..][j - 1];
      i := i + 1;
    }
  }

  lemma FirstNamedOnce(lib: Lib, norm: string, dicts: seq<Homonym>, i: int, j: int)
    requires FirstNamed(lib, norm, dicts, i) && FirstNamed(lib, norm, dicts, j)
    ensures i == j
  {
  }

  /** The text names a homonym first that asks, and the hints single out no meaning of it. */
  ghost predicate Unclear(lib: Lib, norm: string, dicts: seq<Homonym>, i: int)
  {
    FirstNamed(lib, norm, dicts, i) && dicts[i].policy == ASK && |Hinted(lib, norm, dicts[i].meanings)| != 1
  }

  lemma FallbackAsksNothing(t: Turn, s: Site)
    ensures Fallback(t, s).pending.None?
  {
    hide FindFallback, OldestErrorFaq, MergeSurvey, OutputExecutor.Execute;
  }

  lemma AnswerAsksNothing(t: Turn, norm: string, s: Site, boost: seq<Id>, clarified: Option<Id>)
    ensures Answer(t, norm, s, boost, clarified).pending.None?
  {
    hide IntentFor, FirstMatch, Ranking, ConfirmedIntentId, MatchFaq, FindFaq, MergeSurvey, Fallback, FirstExample, OutputExecutor.Execute;
    forall u ensures Fallback(t, u).pending.None? {
      FallbackAsksNothing(t, u);
    }
  }

  /** A text is answered with a question back exactly when it settles no pending question and its first homonym is
      unclear; the question back then names that homonym, offers its first five meanings and runs no node. */
  ghost predicate AsksBack(t: Turn, norm: string, s: Site, pending: Option<PendingClarify>, r: Resolution)
  {
    var dicts := t.bundle.homonyms;
    && (r.pending.Some? <==> Clarified(t, norm, pending).None? && exists i :: Unclear(t.lib, norm, dicts, i))
    && (forall i :: r.pending.Some? && Unclear(t.lib, norm, dicts, i) ==>
          && r.pending.value == PendingClarify(dicts[i].id, dicts[i].word, t.now)
          && exists o :: AskedAs(dicts[i], o) && EndsWith(r, s, o))
  }

  /** The homonym's own words, or the question which of its meanings is meant, with a button for each of the first five. */
  ghost predicate AskedAs(dict: Homonym, o: Output)
  {
    var own := if dict.clarifyPrompt.Some? then Trim(dict.clarifyPrompt.value) else "";
    && o.Buttons? && !o.quickReply && o.prompt == Some(if own != "" then own else "어떤 '" + dict.word + "'를 말씀하시는 건가요?")
    && |o.buttons| == Min(5, |dict.meanings|)
    && forall k :: 0 <= k < |o.buttons| ==> o.buttons[k] == Button(dict.meanings[k].caption, MESSAGE, dict.meanings[k].caption)
  }

  lemma {:induction false} MeaningsButtons(ms: seq<Meaning>)
    ensures forall k :: 0 <= k < |ms| ==> MeaningButtons(ms)[k] == Button(ms[k].caption, MESSAGE, ms[k].caption)
  {
    if ms != [] {
      MeaningsButtons(ms[1..]);
    }
  }

  lemma ClarifyAsks(dict: Homonym)
    ensures AskedAs(dict, ClarifyOutput(dict))
  {
    hide MeaningButtons, Trim;
    MeaningsButtons(dict.meanings[..Min(5, |dict.meanings|)]);
  }

  lemma AskedBackIff(t: Turn, norm: string, s: Site, pending: Option<PendingClarify>)
    ensures AsksBack(t, norm, s, pending, Disambiguate(t, norm, s, pending))
  {
    hide Answer, Clarified, ResolveHomonym, MergeSurvey, ClarifyOutput, AskedAs, TakesPart, Hinted, FirstNamed;
    MergeTakesPart(s);
    var dicts := t.bundle.homonyms;
    var h := ResolveHomonym(t.lib, norm, dicts);
    var k := ResolvedHomonym(t.lib, norm, dicts);
    forall i | FirstNamed(t.lib, norm, dicts, i) ensures h.Evaluated? && i == k {
      if h.Evaluated? {
        FirstNamedOnce(t.lib, norm, dicts, i, k);
      }
    }
    forall boost, c ensures Answer(t, norm, s, boost, c).pending.None? {
      AnswerAsksNothing(t, norm, s, boost, c);
    }
    if h.Evaluated? {
      ClarifyAsks(h.dict);
    }
    assert h.Evaluated? && h.status.Ambiguous? && h.dict.policy == ASK <==> Unclear(t.lib, norm, dicts, k);
  }

  predicate NamedBy(lib: Lib, norm: string, m: Meaning)
  {
    lib.normalize(m.caption) == norm || lib.containsWord(norm, lib.normalize(m.caption)) || NamesHint(lib, norm, m.hints)
  }

  /** A pending question is settled exactly while it lives, its homonym still exists and the text names a meaning. */
  lemma ClarifiedIff(t: Turn, norm: string, pending: Option<PendingClarify>)
    ensures Clarified(t, norm, pending).Some? <==>
      && pending.Some? && t.now - pending.value.askedAt <= t.options.ClarifyTtl()
      && var dict := FindHomonym(t.bundle.homonyms, pending.value.homonymId);
         dict.Some? && exists m :: m in dict.value.meanings && NamedBy(t.lib, norm, m)
  {
    hide MeaningByLabel, MeaningByWord, MeaningByHint, NamesHint;
    if pending.Some? {
      var dict := FindHomonym(t.bundle.homonyms, pending.value.homonymId);
      if dict.Some? {
        MeaningFound(t.lib, dict.value.meanings, norm);
      }
    }
  }

  lemma {:induction false} MeaningFound(lib: Lib, ms: seq<Meaning>, norm: string)
    ensures var named, word, hint := MeaningByLabel(lib, ms, norm), MeaningByWord(lib, ms, norm), MeaningByHint(lib, ms, norm);
      && (named.Some? <==> exists m :: m in ms && lib.normalize(m.caption) == norm)
      && (word.Some? <==> exists m :: m in ms && lib.containsWord(norm, lib.normalize(m.caption)))
      && (hint.Some? <==> exists m :: m in ms && NamesHint(lib, norm, m.hints))
      && (named.Some? ==> named.value in ms && lib.normalize(named.value.caption) == norm)
  {
    hide NamesHint;
    if ms != [] {
      MeaningFound(lib, ms[1..], norm);
      assert forall m :: m in ms <==> m == ms[0] || m in ms[1..];
      assert ms[0] in ms;
    }
  }

  lemma {:induction false} MeaningButton(ms: seq<Meaning>, k: nat)
    requires k < |ms|
    ensures MeaningButtons(ms)[k] == Button(ms[k].caption, MESSAGE, ms[k].caption)
  {
    if k > 0 {
      MeaningButton(ms[1..], k - 1);
    } else if |ms| > 1 {
      MeaningButton(ms[1..], 0);
    }
  }

  lemma {:induction false} HomonymFound(dicts: seq<Homonym>, i: nat)
    requires i < |dicts| && forall j :: 0 <= j < i ==> dicts[j].id != dicts[i].id
    ensures FindHomonym(dicts, dicts[i].id) == Some(dicts[i])
  {
    if i > 0 {
      HomonymFound(dicts[1..], i - 1);
    }
  }

  /** Each meaning offered is understood: the text of its button, sent back in time, settles the question with a meaning
      of that label, and with that very meaning when labels differ. */
  lemma OfferedMeaningIsUnderstood(t: Turn, later: Turn, i: nat, k: nat)
    requires var dicts := t.bundle.homonyms; i < |dicts| && forall j :: 0 <= j < i ==> dicts[j].id != dicts[i].id
    requires later.lib == t.lib && later.bundle == t.bundle && later.now - t.now <= later.options.ClarifyTtl()
    requires k < 5 && k < |t.bundle.homonyms[i].meanings|
    ensures var dict := t.bundle.homonyms[i];
      && |ClarifyOutput(dict).buttons| == Min(5, |dict.meanings|)
      && var norm := t.lib.normalize(ClarifyOutput(dict).buttons[k].value);
         var m := Clarified(later, norm, Some(PendingClarify(dict.id, dict.word, t.now)));
         && m.Some? && m.value in dict.meanings && t.lib.normalize(m.value.caption) == norm
         && (SettledBy(t.lib, dict.meanings, norm) ==> m.value == dict.meanings[k])
  {
    hide MeaningByLabel, MeaningByWord, MeaningByHint, MeaningButtons, SettledBy;
    var dict := t.bundle.homonyms[i];
    HomonymFound(t.bundle.homonyms, i);
    var shown := dict.meanings[..Min(5, |dict.meanings|)];
    MeaningButton(shown, k);
    var norm := t.lib.normalize(dict.meanings[k].caption);
    MeaningFound(t.lib, dict.meanings, norm);
    assert dict.meanings[k] in dict.meanings;
    var m := MeaningByLabel(t.lib, dict.meanings, norm).value;
    if SettledBy(t.lib, dict.meanings, norm) {
      SettledOnce(t.lib, dict.meanings, norm, m, dict.meanings[k]);
    }
  }

  /** Only one meaning has this label. */
  ghost predicate SettledBy(lib: Lib, ms: seq<Meaning>, norm: string)
  {
    forall m, n :: m in ms && n in ms && lib.normalize(m.caption) == norm && lib.normalize(n.caption) == norm ==> m == n
  }

  lemma SettledOnce(lib: Lib, ms: seq<Meaning>, norm: string, m: Meaning, n: Meaning)
    requires SettledBy(lib, ms, norm) && m in ms && n in ms && lib.normalize(m.caption) == norm && lib.normalize(n.caption) == norm
    ensures m == n
  {
  }

  // ---------------------------------------------------------------- after a survey

  /** The surveys counted as completed from this turn on, carried over a pending call if need be. */
  function CompletedAfter(r: Resolution): Option<seq<Id>>
  {
    if r.apiCall.Some? then
      (if r.apiCall.value.resume.survey.Some? then Some(r.apiCall.value.resume.survey.value.completedIds) else None)
    else if r.survey.Some? then Some(r.survey.value.completedIds) else None
  }

  /** The survey was opened by this output of its node. */
  ghost predicate OpenedBy(nodes: seq<Node>, session: SurveySession, o: Output)
  {
    exists n :: n in nodes && Some(n.id) == session.nodeId && o in n.outputs
  }

  lemma TargetIsNamed(t: Turn, session: SurveySession)
    ensures var target := SurveyCompletionTarget(t, session);
      target.Some? ==> target.value in t.bundle.nodes && target.value.enabled
                       && OpenedBy(t.bundle.nodes, session, SurveyV2(session.surveyId, Some(target.value.id)))
  {
    var target := SurveyCompletionTarget(t, session);
    if target.Some? {
      var n := FindNode(t.bundle.nodes, session.nodeId.value).value;
      assert n.outputs[session.outputIndex] == SurveyV2(session.surveyId, Some(target.value.id));
    }
  }

  /** The node that follows says its part after the survey's, and whatever survey it opens is another one. */
  lemma FollowUpRun(t: Turn, advance: SurveySessions.SurveyAdvance, ids: seq<Id>, n: Node)
    requires advance.Consumed? && n in t.bundle.nodes
    ensures var r := RunNode(t.lib, t.bundle, t.now, CompletionSite(t, advance, ids), n);
      && r.matchedNodeId == Some(n.id) && CompletedAfter(r) == Some(ids)
      && (r.apiCall.None? ==> r.survey.Some? && r.survey.value.consumed && advance.outputs <= r.outputs && advance.events <= r.survey.value.events)
      && (r.apiCall.None? ==> r.survey.value.next.Some? ==> r.survey.value.next.value.surveyId !in ids)
      && (r.apiCall.Some? ==> advance.outputs <= r.apiCall.value.resume.carry && r.apiCall.value.resume.survey.value.eventsSoFar == advance.events)
  {
    hide OutputExecutor.Execute, CarryWorkflow, SurveyAnswers.QuestionOutputs;
    var s := CompletionSite(t, advance, ids);
    ExecutorFacts.ExecutionBehaves(SiteConfig(t.lib, t.bundle, t.now, s), n, 1);
  }

  /** A survey joins the completed ones exactly when its last question was settled. The node that then runs is the one
      named where the survey was opened; it does not open this survey again. */
  ghost predicate SurveyConcludes(t: Turn, session: SurveySession, advance: SurveySessions.SurveyAdvance, r: Resolution)
    requires advance.Consumed?
  {
    && CompletedAfter(r) == Some(if advance.completed then PushCompleted(t.surveys.completedIds, session.surveyId) else t.surveys.completedIds)
    && (r.matchedNodeId.Some? ==> advance.completed && OpenedBy(t.bundle.nodes, session, SurveyV2(session.surveyId, r.matchedNodeId)))
    && (r.apiCall.None? ==> r.survey.Some? && r.survey.value.consumed && advance.outputs <= r.outputs && advance.events <= r.survey.value.events)
    && (r.apiCall.None? && advance.completed && r.survey.value.next.Some? ==> r.survey.value.next.value.surveyId != session.surveyId)
    && (r.apiCall.Some? ==> advance.outputs <= r.apiCall.value.resume.carry && r.apiCall.value.resume.survey.value.eventsSoFar == advance.events)
  }

  lemma FinishedSurvey(t: Turn, session: SurveySession, advance: SurveySessions.SurveyAdvance)
    requires advance.Consumed?
    ensures SurveyConcludes(t, session, advance, SurveyReply(t, session, advance))
  {
    hide RunNode, SurveyCompletionTarget, PushCompleted, OpenedBy;
    if advance.completed {
      TargetIsNamed(t, session);
      var target := SurveyCompletionTarget(t, session);
      if target.Some? {
        FollowUpRun(t, advance, PushCompleted(t.surveys.completedIds, session.surveyId), target.value);
      }
    }
  }

  // ---------------------------------------------------------------- a pressed button

  ghost predicate CanRun(nodes: seq<Node>, id: Id) { exists n :: n in nodes && n.id == id && n.enabled }

  /** The form that was running is cancelled, at once or when the call returns, unless another one has begun. */
  ghost predicate FormGivenUp(t: Turn, r: Resolution)
  {
    && (r.apiCall.None? ==> r.nextSession == CancelledSession(t)
                            || exists f :: f in t.bundle.contexts && r.nextSession == Some(ContextForms.Start(f, t.now)))
    && (r.apiCall.Some? ==> r.apiCall.value.resume.sessionFallback == CancelledSession(t))
  }

  lemma ButtonRun(t: Turn, n: Node)
    requires n in t.bundle.nodes
    ensures var r := RunNode(t.lib, t.bundle, t.now, ButtonSite(t), n); r.matchedNodeId == Some(n.id) && FormGivenUp(t, r)
  {
    hide OutputExecutor.Execute, CarryWorkflow, CancelledSession, ContextForms.Start;
    ExecutorFacts.ExecutionBehaves(SiteConfig(t.lib, t.bundle, t.now, ButtonSite(t)), n, 0);
  }

  lemma ButtonFallback(t: Turn)
    ensures var r := Fallback(t, ButtonSite(t));
      FormGivenUp(t, r) && (r.matchedNodeId.Some? ==> exists n :: n in t.bundle.nodes && n.enabled && r.matchedNodeId == Some(n.id))
  {
    hide RunNode, FindFallback, OldestErrorFaq, CancelledSession, MergeSurvey;
    var node := FindFallback(t.bundle.nodes);
    if node.Some? {
      ButtonRun(t, node.value);
    }
  }

  lemma LookedUp(t: Turn, nodeId: Id)
    requires UniqueIds(t.bundle.nodes) && (t.options.index.Some? ==> t.options.index.value == IndexOf(t.lib, t.bundle))
    ensures var node := LookupNode(t, nodeId);
      && (CanRun(t.bundle.nodes, nodeId) <==> node.Some? && node.value.enabled)
      && (node.Some? ==> node.value in t.bundle.nodes && node.value.id == nodeId)
  {
    hide RankNodes, ById;
    IndexFacts.SameLookup(t.bundle.nodes, nodeId);
    var node := FindNode(t.bundle.nodes, nodeId);
    if CanRun(t.bundle.nodes, nodeId) {
      var n :| n in t.bundle.nodes && n.id == nodeId && n.enabled;
      assert node.value == n;
    }
  }

  /** A button runs the node it names exactly when that node exists and is enabled, with the prebuilt index or without;
      otherwise it falls back. Either way the running form is given up. */
  ghost predicate ButtonAnswers(t: Turn, nodeId: Id, r: Resolution)
  {
    && (r.matchedNodeId == Some(nodeId) <==> CanRun(t.bundle.nodes, nodeId))
    && (CanRun(t.bundle.nodes, nodeId) ==>
          exists n :: n in t.bundle.nodes && n.id == nodeId && r == RunNode(t.lib, t.bundle, t.now, ButtonSite(t), n))
    && (!CanRun(t.bundle.nodes, nodeId) ==> r == Fallback(t, ButtonSite(t)))
    && FormGivenUp(t, r)
  }

  lemma ButtonRunsIff(t: Turn, nodeId: Id)
    requires UniqueIds(t.bundle.nodes) && (t.options.index.Some? ==> t.options.index.value == IndexOf(t.lib, t.bundle))
    ensures ButtonAnswers(t, nodeId, RespondToButton(t, nodeId))
  {
    hide RunNode, LookupNode, Fallback, UniqueIds, FormGivenUp;
    LookedUp(t, nodeId);
    ButtonFallback(t);
    var node := LookupNode(t, nodeId);
    if node.Some? {
      ButtonRun(t, node.value);
    }
  }
}
