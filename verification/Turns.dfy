/** One turn of a conversation (packages/dialogue-engine/src/turn.ts). */
module Turns {
  import opened Prelude
  import opened Dialogue
  import opened Envelopes
  import opened ApiCalls
  import opened Resolver

  datatype TurnInput = Message(text: string) | NodeButton(nodeId: Id)

  function TurnOf(lib: Lib, b: Bundle, now: Time, options: Options, e: Envelope): Turn
  {
    Turn(lib, b, now, options, SurveyTurn(e.survey, e.completedIds, options.surveyPreview), e.form)
  }

  function Resolve(lib: Lib, b: Bundle, now: Time, options: Options, input: TurnInput, e: Envelope): Resolution
  {
    var t := TurnOf(lib, b, now, options, e);
    match input
    case Message(text) => Respond(t, text, e.pending)
    case NodeButton(id) => RespondToButton(t, id)
  }

  /** The turn of a resolution that did not suspend. A turn in which no survey took part keeps the survey fields. */
  function Settle(r: Resolution, before: Sanitized): TurnResult
  {
    var survey := if r.survey.Some? then r.survey.value.next else before.state.survey;
    var ids := if r.survey.Some? then r.survey.value.completedIds else before.state.completedIds;
    TurnResult(r.outputs, r.nextSession, r.pending, r.unsupported, Envelope(r.nextSession, r.pending, survey, ids),
               before.discarded, None, None, if r.survey.Some? then r.survey.value.events else [],
               r.survey.Some? && r.survey.value.consumed, r.workflow, r.matchedNodeId, r.matchedIntentId, r.matchedFaqId)
  }

  /** `resolveTurn`. A suspended turn comes with the reply it would give were the call never made. */
  function ResolveTurn(lib: Lib, b: Bundle, now: Time, options: Options, input: TurnInput, raw: RawState): TurnResult
  {
    var before := Sanitize(lib, raw, b, now, options.StateLimits());
    var r := Resolve(lib, b, now, options, input, before.state);
    if r.apiCall.Some? then
      ResumeTurn(lib, b, now, r.apiCall.value, NotExecuted, options.hopLimit, before.discarded).(apiCall := r.apiCall)
    else Settle(r, before)
  }
}
