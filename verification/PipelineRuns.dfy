/** The pipeline and the turn as they run (packages/dialogue-engine/src/resolver.ts, turn.ts): the stages that reassign
    their locals, proved to be the functions of `Resolver` and `Turns` and to mean what those were shown to mean. */
module PipelineRuns {
  import opened Prelude
  import opened Dialogue
  import opened Envelopes
  import opened Matching
  import opened ApiCalls
  import opened Resolver
  import opened Turns
  import opened AnswerFacts
  import opened StageFacts
  import ContextForms
  import ExecutorRuns
  import OutputExecutor
  import SurveySessions
  import TurnFacts

  method ExecuteNode(t: Turn, s: Site, n: Node) returns (r: Resolution)
    ensures r == RunNode(t.lib, t.bundle, t.now, s, n) && NodeRuns(t.lib, t.bundle, t.now, s, n, r)
  {
    hide OutputExecutor.Execute, Suspend, Conclude, SiteConfig, NodeRuns;
    RunNodeRuns(t.lib, t.bundle, t.now, s, n);
    var x := ExecutorRuns.ExecuteOutputs(SiteConfig(t.lib, t.bundle, t.now, s), n.outputs, n.id, s.initialHops);
    if x.suspended.Some? {
      return Suspend(s, x, t.bundle, n.id);
    }
    return Conclude(s, x, n.id);
  }

  /** `resolveFallback`. */
  method ResolveFallback(t: Turn, s: Site) returns (r: Resolution)
    ensures r == Fallback(t, s) && FallsBack(t, s, r)
  {
    hide RunNode, FindFallback, OldestErrorFaq, MergeSurvey, FallsBack;
    FallbackOrder(t, s);
    var node := FindFallback(t.bundle.nodes);
    if node.Some? {
      r := ExecuteNode(t, s, node.value);
      return;
    }
    var survey := MergeSurvey(s.eventsSoFar, s.surveyTurn, None, s.consumed);
    var faq := OldestErrorFaq(t.bundle.faqs);
    if faq.Some? {
      return Reply(s.carry + [Text(faq.value.answer)], s.override, survey).(matchedFaqId := Some(faq.value.id));
    }
    return Reply(s.carry + [Text(t.options.defaultFallback.GetOr(OutputExecutor.DEFAULT_FALLBACK_RESPONSE))], s.override, survey);
  }

  /** Stages S3 to S6 of `resolveResponse`. */
  method ResolveAnswer(t: Turn, norm: string, s: Site, boost: seq<Id>, clarifiedIntent: Option<Id>) returns (r: Resolution)
    ensures r == Answer(t, norm, s, boost, clarifiedIntent)
    ensures UniqueIds(t.bundle.nodes) && t.options.index.None? && norm != [] ==> AnswersInOrder(t, norm, s, boost, clarifiedIntent, r)
  {
    hide RunNode, IntentFor, Ranking, FirstMatch, FaqReply, Fallback, MergeSurvey, ConfirmedIntentId, FirstExample, UniqueIds, AnswersInOrder;
    if UniqueIds(t.bundle.nodes) && t.options.index.None? && norm != [] {
      AnswerOrder(t, norm, s, boost, clarifiedIntent);
    }
    var intent := IntentFor(t, norm, boost);
    var intentId := if intent.Some? then Some(intent.value.intentId) else None;
    if intentId.None? {
      intentId := clarifiedIntent;
    }
    if intentId.None? {
      intentId := ConfirmedIntentId(t);
    }
    var form := if s.completedForm.Some? then Some(s.completedForm.value.contextVariableId) else None;
    var node := FirstMatch(t.lib, t.bundle, norm, intentId, form, Ranking(t));
    if node.Some? {
      r := ExecuteNode(t, s.(matchedIntentId := intentId), node.value);
      return;
    }
    var faq := FaqReply(t, norm, s, intentId);
    if faq.Some? {
      return faq.value;
    }
    if intentId.Some? {
      var example := if intent.Some? then intent.value.matchedExample else FirstExample(t.bundle.intents, intentId.value);
      var survey := MergeSurvey(s.eventsSoFar, s.surveyTurn, None, s.consumed);
      return Reply(s.carry + [IntentText(intentId.value, example)], s.override, survey).(matchedIntentId := intentId);
    }
    r := ResolveFallback(t, s.(matchedIntentId := intentId));
  }

  /** Stages S1.5 and S2, with the pending question given up or turned into a meaning. */
  method ResolveMeaning(t: Turn, norm: string, s: Site, pending: Option<PendingClarify>) returns (r: Resolution)
    ensures r == Disambiguate(t, norm, s, pending) && AsksBack(t, norm, s, pending, r)
  {
    hide Answer, Clarified, ResolveHomonym, MergeSurvey, ClarifyOutput, AsksBack, AnswersInOrder;
    AskedBackIff(t, norm, s, pending);
    var clarified := Clarified(t, norm, pending);
    var boost: seq<Id> := [];
    var clarifiedIntent: Option<Id> := None;
    if clarified.Some? {
      boost := Boosted(clarified.value.intentId);
      clarifiedIntent := clarified.value.intentId;
    } else {
      var homonym := ResolveHomonym(t.lib, norm, t.bundle.homonyms);
      if homonym.Evaluated? && homonym.status.Ambiguous? && homonym.dict.policy == ASK {
        var survey := MergeSurvey(s.eventsSoFar, s.surveyTurn, None, s.consumed);
        return Reply(s.carry + [ClarifyOutput(homonym.dict)], s.override, survey)
          .(pending := Some(PendingClarify(homonym.dict.id, homonym.dict.word, t.now)));
      }
      if homonym.Evaluated? && homonym.status.Resolved? {
        boost := Boosted(homonym.status.intentId);
      }
    }
    r := ResolveAnswer(t, norm, s, boost, clarifiedIntent);
  }

  /** A text that the running survey consumed: `resolveSurveyCompletion` when it was the last answer. */
  method ResolveSurveyText(t: Turn, session: SurveySession, advance: SurveySessions.SurveyAdvance) returns (r: Resolution)
    requires advance.Consumed?
    ensures r == SurveyReply(t, session, advance) && SurveyConcludes(t, session, advance, r) && SurveyResponds(t, session, advance, r)
  {
    hide RunNode, SurveyCompletionTarget, PushCompleted, SurveyConcludes, SurveyResponds;
    FinishedSurvey(t, session, advance);
    ReplyResponds(t, session, advance);
    var ids := t.surveys.completedIds;
    if !advance.completed {
      return Reply(advance.outputs, t.session, Some(SurveyOutcome(advance.next, ids, advance.events, true)));
    }
    ids := PushCompleted(ids, session.surveyId);
    var target := SurveyCompletionTarget(t, session);
    if target.Some? {
      r := ExecuteNode(t, CompletionSite(t, advance, ids), target.value);
      return;
    }
    return Reply(advance.outputs, None, Some(SurveyOutcome(None, ids, advance.events, true)));
  }

  /** `resolveResponse`: the stages one after another, each of which may answer, over the reassigned `carry`, `events`,
      `pending` and `completed`. */
  method ResolveResponse(t: Turn, input: string, pendingClarify: Option<PendingClarify>) returns (r: Resolution)
    ensures r == Respond(t, input, pendingClarify)
    ensures SoundIndex(t) ==> Responds(Bare(t), input, pendingClarify, r)
  {
    hide AsksBack, SurveyConcludes, SurveyResponds, Responds, SoundIndex, Bare, Disambiguate,
      SurveySessions.Step, ContextForms.Step, SurveyReply, StructureBroken, FindSurvey, FindForm, MergeSurvey;
    if SoundIndex(t) {
      IndexedResponds(t, input, pendingClarify);
    }
    var raw := input;
    if |raw| > t.options.MaxInput() {
      raw := raw[..t.options.MaxInput()];
    }
    var norm := t.lib.normalize(raw);
    if norm == [] {
      return Reply([Text(EMPTY_INPUT_RESPONSE)], t.session, None);
    }
    var carry: seq<Output> := [];
    var events: seq<SurveyEvent> := [];
    var pending := pendingClarify;
    var completed: Option<CompletedForm> := None;
    if t.surveys.session.Some? {
      var survey := FindSurvey(t.bundle.surveys, t.surveys.session.value.surveyId);
      if survey.Some? {
        pending := None;
        var advance := SurveySessions.Step(t.lib, t.surveys.session.value, raw, survey.value, t.now, t.surveys.preview);
        if advance.Consumed? {
          r := ResolveSurveyText(t, t.surveys.session.value, advance);
          return;
        }
        carry := advance.carry;
        events := advance.events;
      }
    }
    assert Respond(t, input, pendingClarify) == FormStage(t, raw, carry, events, pending);
    if FormIsRunning(t.session) {
      pending := None;
      var session := t.session.value;
      var form := FindForm(t.bundle.contexts, session.contextVariableId);
      var outcome := MergeSurvey(events, t.surveys, None, false);
      if StructureBroken(form, session) {
        return Reply([Text(FORM_CHANGED_MESSAGE)], Some(session.(status := CANCELLED, lastInteractedAt := t.now)), outcome);
      }
      BrokenIfGone(session);
      var advance := ContextForms.Step(t.lib, session, raw, form.value, t.now, t.bundle.keywords);
      if advance.state.status != COMPLETED {
        return Reply(advance.outputs, Some(advance.state), outcome);
      }
      carry := carry + advance.outputs;
      completed := Some(CompletedForm(form.value.id, advance.state.filledValues));
    }
    r := ResolveMeaning(t, norm, TextSite(t, carry, events, completed), pending);
  }

  /** `resolveByNodeId`. */
  method ResolveByNodeId(t: Turn, nodeId: Id) returns (r: Resolution)
    ensures r == RespondToButton(t, nodeId)
    ensures SoundIndex(t) ==> ButtonAnswers(t, nodeId, r)
  {
    hide RunNode, Fallback, LookupNode, FallsBack, ButtonAnswers;
    if SoundIndex(t) {
      ButtonRunsIff(t, nodeId);
    }
    var node := LookupNode(t, nodeId);
    if node.Some? && node.value.enabled {
      r := ExecuteNode(t, ButtonSite(t), node.value);
    } else {
      r := ResolveFallback(t, ButtonSite(t));
    }
  }

  // ---------------------------------------------------------------- one turn

  /** A reply that is shown, with an envelope that the next turn can take up. */
  ghost predicate Replies(lib: Lib, b: Bundle, now: Time, options: Options, raw: RawState, r: TurnResult)
  {
    && r.outputs != [] && AllDisplayable(r.outputs)
    && !(r.nextState.survey.Some? && FormIsRunning(r.nextState.form)) && |r.nextState.completedIds| <= COMPLETED_SURVEYS_MAX
    && var t := TurnOf(lib, b, now, options, Sanitize(lib, raw, b, now, options.StateLimits()).state);
       TurnFacts.EnvelopeFits(t, r.nextState) && TurnFacts.SurveyMoves(t, r.surveyEvents, r.nextState.survey, now)
  }

  /** The text or the button is taken as the stages say. */
  ghost predicate Takes(t: Turn, input: TurnInput, pending: Option<PendingClarify>, q: Resolution)
  {
    match input
    case Message(text) => Responds(Bare(t), text, pending, q)
    case NodeButton(id) => ButtonAnswers(t, id, q)
  }

  /** What was resolved is handed back: as a call that waits, with the reply in case it is never made; or with the envelope
      for the next turn, in which what no survey touched stays as it was. */
  ghost predicate HandsBack(lib: Lib, b: Bundle, now: Time, options: Options, before: Sanitized, q: Resolution, r: TurnResult)
  {
    if q.apiCall.Some? then
      && r.apiCall == q.apiCall
      && Resumes(lib, b, now, q.apiCall.value, NotExecuted, options.hopLimit.GetOr(q.apiCall.value.resume.hopLimit),
                 before.discarded, r.(apiCall := None))
    else
      && r.apiCall.None? && r.apiBranch.None? && r.discarded == before.discarded
      && r.outputs == q.outputs && r.unsupported == q.unsupported && r.workflow == q.workflow
      && r.nextSession == q.nextSession == r.nextState.form && r.pending == q.pending == r.nextState.pending
      && r.matchedNodeId == q.matchedNodeId && r.matchedIntentId == q.matchedIntentId && r.matchedFaqId == q.matchedFaqId
      && (q.survey.None? ==> && r.nextState.survey == before.state.survey && r.nextState.completedIds == before.state.completedIds
                             && r.surveyEvents == [] && !r.surveyTurn)
      && (q.survey.Some? ==> && r.nextState.survey == q.survey.value.next && r.nextState.completedIds == q.survey.value.completedIds
                             && r.surveyEvents == q.survey.value.events && r.surveyTurn == q.survey.value.consumed)
  }

  /** The turn: some resolution, found as the stages say, is handed back. */
  ghost predicate TurnAnswers(lib: Lib, b: Bundle, now: Time, options: Options, input: TurnInput, before: Sanitized, r: TurnResult)
  {
    var t := Turn(lib, b, now, options, SurveyTurn(before.state.survey, before.state.completedIds, options.surveyPreview), before.state.form);
    exists q :: Takes(t, input, before.state.pending, q) && HandsBack(lib, b, now, options, before, q, r)
  }

  /** `resolveTurn`: the envelope is re-checked, the input resolved, and a pending call either assumed to have failed or,
      without one, the envelope put together from what the resolution settled and what it left alone. */
  method TakeTurn(lib: Lib, b: Bundle, now: Time, options: Options, input: TurnInput, raw: RawState) returns (r: TurnResult)
    ensures r == ResolveTurn(lib, b, now, options, input, raw)
    ensures TurnFacts.WellFormed(lib, b) && TurnFacts.SaneOptions(lib, b, options) ==> Replies(lib, b, now, options, raw, r)
    ensures SoundIndex(TurnOf(lib, b, now, options, EMPTY_ENVELOPE)) ==>
      TurnAnswers(lib, b, now, options, input, Sanitize(lib, raw, b, now, options.StateLimits()), r)
  {
    hide *;
    var before := SanitizeState(lib, raw, b, now, options.StateLimits());
    var t := TurnOf(lib, b, now, options, before.state);
    var resolution;
    match input {
      case Message(text) =>
        resolution := ResolveResponse(t, text, before.state.pending);
        MessageTaken(t, text, before.state.pending, resolution);
      case NodeButton(id) =>
        resolution := ResolveByNodeId(t, id);
        ButtonTaken(t, id, before.state.pending, resolution);
    }
    TurnIs(lib, b, now, options, input, raw, before, resolution);
    SameIndex(lib, b, now, options, before.state);
    ResolutionHanded(lib, b, now, options, input, raw, before, resolution);
    if resolution.apiCall.Some? {
      r := ResumeAfterApiCall(lib, b, now, resolution.apiCall.value, NotExecuted, options.hopLimit, before.discarded);
      r := r.(apiCall := resolution.apiCall);
      return;
    }
    var survey, ids := before.state.survey, before.state.completedIds;
    var events: seq<SurveyEvent> := [];
    var consumed := false;
    if resolution.survey.Some? {
      survey, ids := resolution.survey.value.next, resolution.survey.value.completedIds;
      events, consumed := resolution.survey.value.events, resolution.survey.value.consumed;
    }
    r := TurnResult(resolution.outputs, resolution.nextSession, resolution.pending, resolution.unsupported,
                    Envelope(resolution.nextSession, resolution.pending, survey, ids), before.discarded, None, None, events,
                    consumed, resolution.workflow, resolution.matchedNodeId, resolution.matchedIntentId, resolution.matchedFaqId);
  }

  lemma TurnIs(lib: Lib, b: Bundle, now: Time, options: Options, input: TurnInput, raw: RawState, before: Sanitized, r: Resolution)
    requires before == Sanitize(lib, raw, b, now, options.StateLimits())
    requires var t := TurnOf(lib, b, now, options, before.state);
      r == match input case Message(text) => Respond(t, text, before.state.pending) case NodeButton(id) => RespondToButton(t, id)
    ensures r == Resolve(lib, b, now, options, input, before.state)
    ensures ResolveTurn(lib, b, now, options, input, raw)
         == if r.apiCall.Some?
            then ResumeTurn(lib, b, now, r.apiCall.value, NotExecuted, options.hopLimit, before.discarded).(apiCall := r.apiCall)
            else TurnResult(r.outputs, r.nextSession, r.pending, r.unsupported,
                            Envelope(r.nextSession, r.pending, if r.survey.Some? then r.survey.value.next else before.state.survey,
                                     if r.survey.Some? then r.survey.value.completedIds else before.state.completedIds),
                            before.discarded, None, None, if r.survey.Some? then r.survey.value.events else [],
                            r.survey.Some? && r.survey.value.consumed, r.workflow, r.matchedNodeId, r.matchedIntentId, r.matchedFaqId)
    ensures TurnFacts.WellFormed(lib, b) && TurnFacts.SaneOptions(lib, b, options) ==>
      Replies(lib, b, now, options, raw, ResolveTurn(lib, b, now, options, input, raw))
  {
    hide Sanitize, Respond, RespondToButton, ResumeTurn;
    hide TurnFacts.WellFormed, TurnFacts.SaneOptions, TurnFacts.EnvelopeFits, TurnFacts.SurveyMoves, FormIsRunning;
    if TurnFacts.WellFormed(lib, b) && TurnFacts.SaneOptions(lib, b, options) {
      TurnFacts.TurnFits(lib, b, now, options, input, raw, NotExecuted);
      TurnFacts.TurnIsExclusive(lib, b, now, options, input, raw);
    }
  }

  lemma SameIndex(lib: Lib, b: Bundle, now: Time, options: Options, e: Envelope)
    ensures SoundIndex(TurnOf(lib, b, now, options, e)) <==> SoundIndex(TurnOf(lib, b, now, options, EMPTY_ENVELOPE))
  {
  }

  lemma MessageTaken(t: Turn, text: string, pending: Option<PendingClarify>, q: Resolution)
    requires SoundIndex(t) ==> Responds(Bare(t), text, pending, q)
    ensures SoundIndex(t) ==> Takes(t, Message(text), pending, q)
  {
    hide Responds, SoundIndex, Bare;
  }

  lemma ButtonTaken(t: Turn, id: Id, pending: Option<PendingClarify>, q: Resolution)
    requires SoundIndex(t) ==> ButtonAnswers(t, id, q)
    ensures SoundIndex(t) ==> Takes(t, NodeButton(id), pending, q)
  {
    hide ButtonAnswers, SoundIndex;
  }

  lemma ResolutionHanded(lib: Lib, b: Bundle, now: Time, options: Options, input: TurnInput, raw: RawState, before: Sanitized, q: Resolution)
    requires before == Sanitize(lib, raw, b, now, options.StateLimits()) && q == Resolve(lib, b, now, options, input, before.state)
    requires var t := TurnOf(lib, b, now, options, before.state); SoundIndex(t) ==> Takes(t, input, before.state.pending, q)
    ensures SoundIndex(TurnOf(lib, b, now, options, before.state)) ==>
      TurnAnswers(lib, b, now, options, input, before, ResolveTurn(lib, b, now, options, input, raw))
  {
    hide SoundIndex, Takes, Resumes, Sanitize, Resolve, ResumeTurn;
    if q.apiCall.Some? {
      TurnResumes(lib, b, now, q.apiCall.value, NotExecuted, options.hopLimit, before.discarded);
      NoSecondCall(lib, b, now, q.apiCall.value, options.hopLimit, before.discarded);
    }
  }

  lemma NoSecondCall(lib: Lib, b: Bundle, now: Time, call: ApiCall, limit: Option<int>, discarded: seq<DiscardReason>)
    ensures ResumeTurn(lib, b, now, call, NotExecuted, limit, discarded).apiCall.None?
  {
    hide RunBranch, Select;
  }
}
