/** The response pipeline (packages/dialogue-engine/src/resolver.ts): survey, form, pending question, homonym, node,
    question, intent, fallback. */
module Resolver {
  import opened Prelude
  import opened Dialogue
  import opened Matching
  import opened Envelopes
  import opened ApiCalls
  import ContextForms
  import OutputExecutor
  import SurveySessions

  const HOP_LIMIT := 10
  const MAX_INPUT_LENGTH := 1000
  const EMPTY_INPUT_RESPONSE := "메시지를 입력해 주세요."
  const FORM_CHANGED_MESSAGE := "진행 중이던 내용의 설정이 변경되어 처음부터 다시 시작해 주세요."

  // ---------------------------------------------------------------- options

  /** The band that the semantic scores of the turn fall in, when they are supplied. */
  datatype Band = ConfirmedIntent(id: Id) | ConfirmedFaq(faqId: Id) | AmbiguousBand(candidates: seq<string>) | FailedBand

  datatype Options = Options(index: Option<Index>, hopLimit: Option<int>, maxInputLength: Option<nat>,
                             defaultFallback: Option<string>, clarifyTtlMs: Option<int>, stateMaxAgeMs: Option<int>,
                             semantic: Option<Band>, surveyPreview: bool)
  {
    function Hops(): int { hopLimit.GetOr(HOP_LIMIT) }
    function MaxInput(): nat { maxInputLength.GetOr(MAX_INPUT_LENGTH) }
    function ClarifyTtl(): int { clarifyTtlMs.GetOr(CLARIFY_TTL_MS) }
    function StateLimits(): Limits { Limits(stateMaxAgeMs.GetOr(STATE_MAX_AGE_MS), ClarifyTtl()) }
  }

  /** What one call to the pipeline works on, apart from its input. */
  datatype Turn = Turn(lib: Lib, bundle: Bundle, now: Time, options: Options, surveys: SurveyTurn,
                       session: Option<FormSession>)

  // ---------------------------------------------------------------- replies

  /** A reply that runs no node. */
  function Reply(outputs: seq<Output>, session: Option<FormSession>, survey: Option<SurveyOutcome>): Resolution
  {
    Resolution(outputs, session, None, [], survey, None, None, None, None, None)
  }

  /** The survey is put last; when the list is full the oldest one falls out. */
  function PushCompleted(ids: seq<Id>, id: Id): (r: seq<Id>)
    ensures r != [] && r[|r| - 1] == id && (forall x :: x in r ==> x == id || x in ids)
    ensures |ids| <= COMPLETED_SURVEYS_MAX ==> |r| <= COMPLETED_SURVEYS_MAX
    ensures |ids| < COMPLETED_SURVEYS_MAX ==> forall x :: x in ids ==> x in r
  {
    var deduped := Without(ids, id) + [id];
    if |deduped| > COMPLETED_SURVEYS_MAX then deduped[|deduped| - COMPLETED_SURVEYS_MAX..] else deduped
  }

  predicate IsFallback(n: Node) { n.kind == FALLBACK && n.enabled }

  function FindFallback(nodes: seq<Node>): (r: Option<Node>)
    ensures r.Some? ==> r.value in nodes && IsFallback(r.value)
    ensures r.None? ==> forall n :: n in nodes ==> !IsFallback(n)
  {
    if nodes == [] then None
    else if IsFallback(nodes[0]) then Some(nodes[0])
    else FindFallback(nodes[1..])
  }

  predicate IsApology(f: Faq) { f.errorResponse && f.enabled }

  /** The oldest enabled error response, the first listed among equally old ones. */
  function OldestErrorFaq(faqs: seq<Faq>): (r: Option<Faq>)
    ensures r.Some? ==> r.value in faqs && IsApology(r.value)
    ensures r.Some? ==> forall f :: f in faqs && IsApology(f) ==> r.value.createdAt <= f.createdAt
    ensures r.None? ==> forall f :: f in faqs ==> !IsApology(f)
  {
    if faqs == [] then None
    else
      var rest := OldestErrorFaq(faqs[1..]);
      if !IsApology(faqs[0]) then rest
      else if rest.Some? && rest.value.createdAt < faqs[0].createdAt then rest
      else Some(faqs[0])
  }

  /** `resolveFallback`: fallback node, error response, default text. */
  function Fallback(t: Turn, s: Site): Resolution
  {
    var node := FindFallback(t.bundle.nodes);
    if node.Some? then RunNode(t.lib, t.bundle, t.now, s, node.value)
    else
      var survey := MergeSurvey(s.eventsSoFar, s.surveyTurn, None, s.consumed);
      var faq := OldestErrorFaq(t.bundle.faqs);
      if faq.Some? then Reply(s.carry + [Text(faq.value.answer)], s.override, survey).(matchedFaqId := Some(faq.value.id))
      else Reply(s.carry + [Text(t.options.defaultFallback.GetOr(OutputExecutor.DEFAULT_FALLBACK_RESPONSE))], s.override, survey)
  }

  // ---------------------------------------------------------------- S0: survey session

  function SurveyCompletionTarget(t: Turn, session: SurveySession): Option<Node>
  {
    var node := if session.nodeId.Some? then FindNode(t.bundle.nodes, session.nodeId.value) else None;
    var output := if node.Some? && 0 <= session.outputIndex < |node.value.outputs|
                  then Some(node.value.outputs[session.outputIndex]) else None;
    if output.Some? && output.value.SurveyV2? && output.value.surveyId == session.surveyId
       && output.value.onCompleteNodeId.Some? && output.value.onCompleteNodeId.value != []
    then FindEnabled(t.bundle.nodes, output.value.onCompleteNodeId.value) else None
  }

  function CompletionSite(t: Turn, advance: SurveySessions.SurveyAdvance, ids: seq<Id>): Site
    requires advance.Consumed?
  {
    Site(advance.outputs, None, None, t.surveys.(completedIds := ids), advance.events, true, None, t.options.Hops(), 1, None)
  }

  /** A text consumed by the running survey. */
  function SurveyReply(t: Turn, session: SurveySession, advance: SurveySessions.SurveyAdvance): Resolution
    requires advance.Consumed?
  {
    if !advance.completed then
      Reply(advance.outputs, t.session, Some(SurveyOutcome(advance.next, t.surveys.completedIds, advance.events, true)))
    else
      var ids := PushCompleted(t.surveys.completedIds, session.surveyId);
      var target := SurveyCompletionTarget(t, session);
      if target.Some? then RunNode(t.lib, t.bundle, t.now, CompletionSite(t, advance, ids), target.value)
      else Reply(advance.outputs, None, Some(SurveyOutcome(None, ids, advance.events, true)))
  }

  // ---------------------------------------------------------------- S1: form session

  predicate StructureBroken(form: Option<Form>, s: FormSession)
  {
    || form.None?
    || s.currentSlotIndex > |form.value.slots|
    || exists k :: k in s.filledValues && forall i :: 0 <= i < |form.value.slots| ==> form.value.slots[i].name != k
  }

  lemma BrokenIfGone(s: FormSession)
    ensures StructureBroken(None, s)
  {
  }

  // ---------------------------------------------------------------- S1.5: pending question

  function MeaningByLabel(lib: Lib, ms: seq<Meaning>, norm: string): Option<Meaning>
  {
    if ms == [] then None else if lib.normalize(ms[0].caption) == norm then Some(ms[0]) else MeaningByLabel(lib, ms[1..], norm)
  }

  function MeaningByWord(lib: Lib, ms: seq<Meaning>, norm: string): Option<Meaning>
  {
    if ms == [] then None
    else if lib.containsWord(norm, lib.normalize(ms[0].caption)) then Some(ms[0])
    else MeaningByWord(lib, ms[1..], norm)
  }

  function MeaningByHint(lib: Lib, ms: seq<Meaning>, norm: string): Option<Meaning>
  {
    if ms == [] then None else if NamesHint(lib, norm, ms[0].hints) then Some(ms[0]) else MeaningByHint(lib, ms[1..], norm)
  }

  /** The meaning that answers the pending question, with its intent; nothing when the question is given up. */
  function Clarified(t: Turn, norm: string, pending: Option<PendingClarify>): Option<Meaning>
  {
    if pending.None? || t.now - pending.value.askedAt > t.options.ClarifyTtl() then None
    else
      var dict := FindHomonym(t.bundle.homonyms, pending.value.homonymId);
      if dict.None? then None
      else
        var ms := dict.value.meanings;
        MeaningByLabel(t.lib, ms, norm).OrElse(MeaningByWord(t.lib, ms, norm)).OrElse(MeaningByHint(t.lib, ms, norm))
  }

  // ---------------------------------------------------------------- S2 to S6

  function ClarifyOutput(dict: Homonym): Output
  {
    var custom := if dict.clarifyPrompt.Some? then Trim(dict.clarifyPrompt.value) else "";
    var prompt := if custom != [] then custom else "어떤 '" + dict.word + "'를 말씀하시는 건가요?";
    Buttons(Some(prompt), MeaningButtons(dict.meanings[..Min(5, |dict.meanings|)]), false)
  }

  function MeaningButtons(ms: seq<Meaning>): (r: seq<Button>)
    ensures |r| == |ms|
  {
    if ms == [] then [] else [Button(ms[0].caption, MESSAGE, ms[0].caption)] + MeaningButtons(ms[1..])
  }

  function CandidateButtons(texts: seq<string>): (r: seq<Button>)
    ensures |r| == |texts|
  {
    if texts == [] then []
    else
      var caption := if |texts[0]| <= 40 then texts[0] else texts[0][..39] + "…";
      [Button(caption, MESSAGE, if |texts[0]| > 200 then texts[0][..200] else texts[0])] + CandidateButtons(texts[1..])
  }

  function CandidateOutput(candidates: seq<string>): Output
  {
    Buttons(Some("이 중에 해당하는 게 있을까요?"), CandidateButtons(candidates), false)
  }

  function ConfirmedIntentId(t: Turn): Option<Id>
  {
    if t.options.semantic.Some? && t.options.semantic.value.ConfirmedIntent? && HasIntent(t.bundle.intents, t.options.semantic.value.id)
    then Some(t.options.semantic.value.id) else None
  }

  function FindFaq(faqs: seq<Faq>, id: Id): Option<Faq>
  {
    if faqs == [] then None else if faqs[0].id == id && faqs[0].enabled then Some(faqs[0]) else FindFaq(faqs[1..], id)
  }

  function FirstExample(intents: seq<Intent>, id: Id): string
  {
    if intents == [] then ""
    else if intents[0].id == id then (if intents[0].examples == [] then "" else intents[0].examples[0])
    else FirstExample(intents[1..], id)
  }

  function IntentText(id: Id, example: string): Output
  {
    Text("[" + id + "] 의도로 매칭되었습니다 (예문: \"" + example + "\")")
  }

  /** S4: the answer of a question, or a choice of candidates. */
  function FaqReply(t: Turn, norm: string, s: Site, intentId: Option<Id>): Option<Resolution>
  {
    var survey := MergeSurvey(s.eventsSoFar, s.surveyTurn, None, s.consumed);
    var matched := MatchFaq(t.lib, norm, t.bundle.faqs, t.options.semantic.Some?);
    var confirmed := if t.options.semantic.Some? && t.options.semantic.value.ConfirmedFaq?
                     then FindFaq(t.bundle.faqs, t.options.semantic.value.faqId) else None;
    if matched.Some? then
      Some(Reply(s.carry + [Text(matched.value.answer)], s.override, survey)
             .(matchedIntentId := intentId, matchedFaqId := Some(matched.value.faqId)))
    else if confirmed.Some? then
      Some(Reply(s.carry + [Text(confirmed.value.answer)], s.override, survey)
             .(matchedIntentId := intentId, matchedFaqId := Some(confirmed.value.id)))
    else if t.options.semantic.Some? && t.options.semantic.value.AmbiguousBand? then
      Some(Reply(s.carry + [CandidateOutput(t.options.semantic.value.candidates)], s.override, survey))
    else None
  }

  function IntentFor(t: Turn, norm: string, boost: seq<Id>): Option<IntentMatch>
  {
    var examples := if t.options.index.Some? then t.options.index.value.examples else AllExamples(t.lib, t.bundle.intents);
    ChooseExample(norm, examples, boost, t.options.semantic.Some?)
  }

  function Ranking(t: Turn): seq<Node>
  {
    if t.options.index.Some? then t.options.index.value.nodesRanked else RankNodes(t.bundle.nodes)
  }

  /** S3 to S6, for a text whose homonyms are settled. */
  function Answer(t: Turn, norm: string, s: Site, boost: seq<Id>, clarifiedIntent: Option<Id>): Resolution
  {
    var intent := IntentFor(t, norm, boost);
    var intentId := (if intent.Some? then Some(intent.value.intentId) else None).OrElse(clarifiedIntent).OrElse(ConfirmedIntentId(t));
    var form := if s.completedForm.Some? then Some(s.completedForm.value.contextVariableId) else None;
    var node := FirstMatch(t.lib, t.bundle, norm, intentId, form, Ranking(t));
    var site := s.(matchedIntentId := intentId);
    if node.Some? then RunNode(t.lib, t.bundle, t.now, site, node.value)
    else
      var faq := FaqReply(t, norm, s, intentId);
      if faq.Some? then faq.value
      else if intentId.Some? then
        var example := if intent.Some? then intent.value.matchedExample else FirstExample(t.bundle.intents, intentId.value);
        Reply(s.carry + [IntentText(intentId.value, example)], s.override, MergeSurvey(s.eventsSoFar, s.surveyTurn, None, s.consumed))
          .(matchedIntentId := intentId)
      else Fallback(t, site)
  }

  function Boosted(id: Option<Id>): seq<Id> { if id.Some? && id.value != [] then [id.value] else [] }

  /** S1.5 and S2, then the rest. */
  function Disambiguate(t: Turn, norm: string, s: Site, pending: Option<PendingClarify>): Resolution
  {
    var clarified := Clarified(t, norm, pending);
    if clarified.Some? then Answer(t, norm, s, Boosted(clarified.value.intentId), clarified.value.intentId)
    else
      var homonym := ResolveHomonym(t.lib, norm, t.bundle.homonyms);
      if homonym.Evaluated? && homonym.status.Ambiguous? && homonym.dict.policy == ASK then
        Reply(s.carry + [ClarifyOutput(homonym.dict)], s.override, MergeSurvey(s.eventsSoFar, s.surveyTurn, None, s.consumed))
          .(pending := Some(PendingClarify(homonym.dict.id, homonym.dict.word, t.now)))
      else
        Answer(t, norm, s, if homonym.Evaluated? && homonym.status.Resolved? then Boosted(homonym.status.intentId) else [], None)
  }

  function TextSite(t: Turn, carry: seq<Output>, events: seq<SurveyEvent>, form: Option<CompletedForm>): Site
  {
    Site(carry, None, t.session, t.surveys, events, false, form, t.options.Hops(), 0, None)
  }

  /** S1 and what follows it; `carry` and `events` come from a survey that was just released. */
  function FormStage(t: Turn, raw: string, carry: seq<Output>, events: seq<SurveyEvent>, pending: Option<PendingClarify>): Resolution
  {
    var norm := t.lib.normalize(raw);
    if !FormIsRunning(t.session) then Disambiguate(t, norm, TextSite(t, carry, events, None), pending)
    else
      var session := t.session.value;
      var form := FindForm(t.bundle.contexts, session.contextVariableId);
      var survey := MergeSurvey(events, t.surveys, None, false);
      if StructureBroken(form, session) then
        Reply([Text(FORM_CHANGED_MESSAGE)], Some(session.(status := CANCELLED, lastInteractedAt := t.now)), survey)
      else
        var advance := ContextForms.Step(t.lib, session, raw, form.value, t.now, t.bundle.keywords);
        if advance.state.status != COMPLETED then Reply(advance.outputs, Some(advance.state), survey)
        else
          var completed := CompletedForm(form.value.id, advance.state.filledValues);
          Disambiguate(t, norm, TextSite(t, carry + advance.outputs, events, Some(completed)), None)
  }

  /** `resolveResponse`. */
  function Respond(t: Turn, input: string, pending: Option<PendingClarify>): Resolution
  {
    var raw := if |input| > t.options.MaxInput() then input[..t.options.MaxInput()] else input;
    var survey := if t.surveys.session.Some? then FindSurvey(t.bundle.surveys, t.surveys.session.value.surveyId) else None;
    if t.lib.normalize(raw) == [] then Reply([Text(EMPTY_INPUT_RESPONSE)], t.session, None)
    else if survey.None? then FormStage(t, raw, [], [], pending)
    else
      var advance := SurveySessions.Step(t.lib, t.surveys.session.value, raw, survey.value, t.now, t.surveys.preview);
      if advance.Consumed? then SurveyReply(t, t.surveys.session.value, advance)
      else FormStage(t, raw, advance.carry, advance.events, None)
  }

  // ---------------------------------------------------------------- button entry

  function LookupNode(t: Turn, id: Id): Option<Node>
  {
    if t.options.index.Some? && id in t.options.index.value.nodesById then Some(t.options.index.value.nodesById[id])
    else FindNode(t.bundle.nodes, id)
  }

  function CancelledSession(t: Turn): Option<FormSession>
  {
    if FormIsRunning(t.session) then Some(t.session.value.(status := CANCELLED, lastInteractedAt := t.now)) else t.session
  }

  function SwitchEvents(t: Turn): seq<SurveyEvent>
  {
    if t.surveys.session.Some? then [Abandoned(SurveySessions.AttemptOf(t.surveys.session.value), Switched)] else []
  }

  function ButtonSite(t: Turn): Site
  {
    Site([], CancelledSession(t), t.session, t.surveys, SwitchEvents(t), false, None, t.options.Hops(), 0, None)
  }

  /** `resolveByNodeId`. */
  function RespondToButton(t: Turn, nodeId: Id): Resolution
  {
    var node := LookupNode(t, nodeId);
    if node.Some? && node.value.enabled then RunNode(t.lib, t.bundle, t.now, ButtonSite(t), node.value)
    else Fallback(t, ButtonSite(t))
  }
}
