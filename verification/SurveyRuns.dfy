/** Survey attempts over whole conversations. */
module SurveyRuns {
  import opened Prelude
  import opened Dialogue
  import opened SurveySessions
  import opened Envelopes
  import opened ApiCalls
  import opened Resolver
  import opened Turns
  import TurnFacts

  // ---------------------------------------------------------------- the trace of one attempt

  /** The events of one attempt, in order. */
  function Of(a: Attempt, events: seq<SurveyEvent>): seq<SurveyEvent>
  {
    if events == [] then []
    else Of(a, events[..|events| - 1]) + if events[|events| - 1].attempt == a then [events[|events| - 1]] else []
  }

  /** `Exposed`, then the questions `0..k` settled one by one. */
  ghost predicate Opening(a: Attempt, es: seq<SurveyEvent>, qs: seq<Question>, k: nat)
  {
    && k <= |qs| && k < |es| && es[0].Exposed? && es[0].attempt == a
    && forall i :: 0 <= i < k ==> RecordsQuestion(es[i + 1], a, qs[i], i)
  }

  ghost predicate Running(a: Attempt, es: seq<SurveyEvent>, qs: seq<Question>, k: nat)
  {
    Opening(a, es, qs, k) && |es| == k + 1 && k < |qs|
  }

  /** All questions settled and then `Completed`, or fewer and then `Abandoned`. */
  ghost predicate Over(a: Attempt, es: seq<SurveyEvent>, qs: seq<Question>)
  {
    && |es| >= 2 && Opening(a, es, qs, |es| - 2) && es[|es| - 1].attempt == a
    && if |es| - 2 == |qs| then es[|es| - 1].Completed? else es[|es| - 1].Abandoned?
  }

  /** What the events of one attempt look like at any time. */
  ghost predicate ProperTrace(a: Attempt, es: seq<SurveyEvent>, qs: seq<Question>)
  {
    es == [] || Running(a, es, qs, |es| - 1) || Over(a, es, qs)
  }

  // ---------------------------------------------------------------- conversations

  /** One message of the user: what the bot is at that time, and the result of the external call if one was made. */
  datatype Exchange = Exchange(input: TurnInput, bundle: Bundle, options: Options, at: Time, called: Option<CallResult>,
                               resumedAt: Time)

  function Outcome(lib: Lib, x: Exchange, raw: RawState): TurnResult
  {
    var r := ResolveTurn(lib, x.bundle, x.at, x.options, x.input, raw);
    if r.apiCall.Some? && x.called.Some? then
      ResumeTurn(lib, x.bundle, x.resumedAt, r.apiCall.value, x.called.value, x.options.hopLimit, r.discarded)
    else r
  }

  datatype History = History(state: RawState, session: Option<SurveySession>, events: seq<SurveyEvent>)

  /** A conversation from its start, with a client that returns every envelope as it got it. */
  function Play(lib: Lib, xs: seq<Exchange>): History
  {
    if xs == [] then History(Absent, None, [])
    else
      var h := Play(lib, xs[..|xs| - 1]);
      var r := Outcome(lib, xs[|xs| - 1], h.state);
      History(Sent(r.nextState), r.nextState.survey, h.events + r.surveyEvents)
  }

  type Content = (Id, nat) -> seq<Question>

  /** A structure version fixes the questions of a survey. */
  ghost predicate Conforms(b: Bundle, q: Content)
  {
    forall id :: FindSurvey(b.surveys, id).Some? ==>
      FindSurvey(b.surveys, id).value.questions == q(id, FindSurvey(b.surveys, id).value.structureVersion)
  }

  /** The clock strictly increases from one message to the next. */
  ghost predicate Orderly(lib: Lib, xs: seq<Exchange>, q: Content)
  {
    && (forall i :: 0 <= i < |xs| ==> xs[i].at <= xs[i].resumedAt)
    && (forall i, j :: 0 <= i < j < |xs| ==> xs[i].resumedAt < xs[j].at)
    && (forall i :: 0 <= i < |xs| ==> TurnFacts.WellFormed(lib, xs[i].bundle) && TurnFacts.SaneOptions(lib, xs[i].bundle, xs[i].options))
    && (forall i :: 0 <= i < |xs| ==> Conforms(xs[i].bundle, q))
  }

  // ---------------------------------------------------------------- one exchange

  lemma {:induction false} OfAppend(a: Attempt, x: seq<SurveyEvent>, y: seq<SurveyEvent>)
    ensures Of(a, x + y) == Of(a, x) + Of(a, y)
  {
    if y == [] {
      assert x + y == x;
    } else {
      OfAppend(a, x, y[..|y| - 1]);
      assert (x + y)[..|x + y| - 1] == x + y[..|y| - 1];
    }
  }

  lemma OfOne(a: Attempt, e: SurveyEvent)
    ensures Of(a, [e]) == if e.attempt == a then [e] else []
  {
    assert [e][..0] == [];
  }

  function Questions(q: Content, a: Attempt): seq<Question> { q(a.surveyId, a.structureVersion) }

  /** What holds of one attempt between two messages. */
  ghost predicate TraceHolds(a: Attempt, session: Option<SurveySession>, events: seq<SurveyEvent>, q: Content)
  {
    if session.Some? && AttemptOf(session.value) == a
    then Running(a, Of(a, events), Questions(q, a), session.value.questionIndex)
    else ProperTrace(a, Of(a, events), Questions(q, a))
  }

  /** Turn `t` works on the session of the envelope or on none. */
  ghost predicate Continues(t: Turn, session: Option<SurveySession>)
  {
    t.surveys.session.None? || TurnFacts.SamePlace(t.surveys.session, session)
  }

  lemma RecordExtends(t: Turn, s: SurveySession, e: SurveyEvent, last: bool, es: seq<SurveyEvent>, q: Content)
    requires TurnFacts.RecordsCurrent(t, s, e, last) && Conforms(t.bundle, q)
    requires Running(AttemptOf(s), es, Questions(q, AttemptOf(s)), s.questionIndex)
    ensures var qs := Questions(q, AttemptOf(s));
            Opening(AttemptOf(s), es + [e], qs, s.questionIndex + 1) && (last <==> s.questionIndex + 1 == |qs|)
  {
    hide FindSurvey;
    var survey := FindSurvey(t.bundle.surveys, s.surveyId).value;
    FoundId(t.bundle.surveys, s.surveyId);
    assert survey.questions == Questions(q, AttemptOf(s));
  }

  lemma FoundId(surveys: seq<Survey>, id: Id)
    ensures FindSurvey(surveys, id).Some? ==> FindSurvey(surveys, id).value.id == id
  {
  }

  lemma AbandoningHolds(a: Attempt, session: SurveySession, log: seq<SurveyEvent>, e: SurveyEvent, q: Content)
    requires e.Abandoned? && e.attempt == AttemptOf(session) && TraceHolds(a, Some(session), log, q)
    ensures ProperTrace(a, Of(a, log + [e]), Questions(q, a))
  {
    hide Opening, Of;
    OfAppend(a, log, [e]);
    OfOne(a, e);
    if AttemptOf(session) == a {
      AbandonedIsOver(a, Of(a, log), e, Questions(q, a), session.questionIndex);
    } else {
      assert Of(a, log) + [] == Of(a, log);
    }
  }

  lemma CompletingHolds(t: Turn, a: Attempt, session: SurveySession, log: seq<SurveyEvent>, record: SurveyEvent, q: Content)
    requires TurnFacts.RecordsCurrent(t, session, record, true) && Conforms(t.bundle, q) && TraceHolds(a, Some(session), log, q)
    ensures ProperTrace(a, Of(a, log + [record, Completed(AttemptOf(session))]), Questions(q, a))
  {
    hide Opening, Of, TurnFacts.RecordsCurrent, Conforms;
    var done := Completed(AttemptOf(session));
    assert log + [record, done] == (log + [record]) + [done];
    OfAppend(a, log, [record]);
    OfAppend(a, log + [record], [done]);
    OfOne(a, record);
    OfOne(a, done);
    RecordedAttempt(t, session, record, true);
    if AttemptOf(session) == a {
      RecordExtends(t, session, record, true, Of(a, log), q);
      CompletedIsOver(a, Of(a, log) + [record], done, Questions(q, a));
    } else {
      assert Of(a, log) + [] + [] == Of(a, log);
    }
  }

  lemma OtherAttempts(t: Turn, a: Attempt, session: SurveySession, events: seq<SurveyEvent>)
    requires TurnFacts.Ends(t, session, events) && AttemptOf(session) != a
    ensures Of(a, events) == []
  {
    hide TurnFacts.RecordsCurrent, Of;
    OfOne(a, events[0]);
    if |events| == 1 {
      assert events == [events[0]];
    } else {
      RecordedAttempt(t, session, events[0], true);
      OfOne(a, events[1]);
      OfAppend(a, [events[0]], [events[1]]);
      assert events == [events[0]] + [events[1]];
    }
  }

  /** Ending the running attempt makes its trace complete; other attempts do not notice. */
  lemma EndingHolds(t: Turn, a: Attempt, session: SurveySession, log: seq<SurveyEvent>, events: seq<SurveyEvent>, q: Content)
    requires TurnFacts.Ends(t, session, events) && Conforms(t.bundle, q)
    requires TraceHolds(a, Some(session), log, q)
    ensures ProperTrace(a, Of(a, log + events), Questions(q, a))
    ensures AttemptOf(session) != a ==> Of(a, events) == []
  {
    hide TurnFacts.RecordsCurrent, TraceHolds, ProperTrace, Conforms, Of;
    if |events| == 1 {
      assert events == [events[0]];
      AbandoningHolds(a, session, log, events[0], q);
    } else {
      assert events == [events[0], Completed(AttemptOf(session))];
      CompletingHolds(t, a, session, log, events[0], q);
    }
    if AttemptOf(session) != a {
      OtherAttempts(t, a, session, events);
    }
  }

  lemma RecordedAttempt(t: Turn, s: SurveySession, e: SurveyEvent, last: bool)
    requires TurnFacts.RecordsCurrent(t, s, e, last)
    ensures e.attempt == AttemptOf(s)
  {
    hide FindSurvey;
  }

  lemma AbandonedIsOver(a: Attempt, es: seq<SurveyEvent>, e: SurveyEvent, qs: seq<Question>, k: nat)
    requires Running(a, es, qs, k) && e.Abandoned? && e.attempt == a
    ensures Over(a, es + [e], qs)
  {
  }

  lemma CompletedIsOver(a: Attempt, es: seq<SurveyEvent>, e: SurveyEvent, qs: seq<Question>)
    requires |es| == |qs| + 1 && Opening(a, es, qs, |qs|) && e == Completed(a)
    ensures Over(a, es + [e], qs)
  {
  }

  lemma RunningIsProper(a: Attempt, es: seq<SurveyEvent>, qs: seq<Question>, k: nat)
    requires Running(a, es, qs, k)
    ensures ProperTrace(a, es, qs) && es != []
  {
  }

  /** A turn that clears the survey leaves every trace proper. */
  lemma ClearedHolds(t: Turn, a: Attempt, session: Option<SurveySession>, log: seq<SurveyEvent>, events: seq<SurveyEvent>, q: Content)
    requires TurnFacts.Cleared(t, events) && Continues(t, session) && Conforms(t.bundle, q)
    requires TraceHolds(a, session, log, q)
    ensures ProperTrace(a, Of(a, log + events), Questions(q, a))
    ensures t.surveys.session.None? || AttemptOf(t.surveys.session.value) != a ==> Of(a, events) == []
  {
    hide TurnFacts.Ends, Running, Conforms, ProperTrace, Of;
    if t.surveys.session.None? {
      assert log + [] == log;
      OfEmpty(a);
      if session.Some? && AttemptOf(session.value) == a {
        RunningIsProper(a, Of(a, log), Questions(q, a), session.value.questionIndex);
      }
    } else {
      EndingHolds(t, a, t.surveys.session.value, log, events, q);
    }
  }

  lemma OfEmpty(a: Attempt)
    ensures Of(a, []) == []
  {
  }

  /** One exchange keeps the trace of every attempt, given that attempts of the future have no events yet. */
  lemma MoveHolds(t: Turn, a: Attempt, session: Option<SurveySession>, log: seq<SurveyEvent>, events: seq<SurveyEvent>,
                  next: Option<SurveySession>, at: Time, q: Content)
    requires TurnFacts.SurveyMoves(t, events, next, at) && Continues(t, session) && Conforms(t.bundle, q)
    requires TraceHolds(a, session, log, q)
    requires a.startedAt >= at ==> Of(a, log) == []
    ensures TraceHolds(a, next, log + events, q)
    ensures a.startedAt > at ==> Of(a, log + events) == []
  {
    hide TurnFacts.Ends, TurnFacts.RecordsCurrent, TurnFacts.Cleared, TurnFacts.Opened, Running, Conforms, ProperTrace, Of;
    var s := t.surveys.session;
    if events == [] && TurnFacts.SamePlace(s, next) {
      assert log + [] == log;
      if session.Some? && AttemptOf(session.value) == a {
        RunningIsProper(a, Of(a, log), Questions(q, a), session.value.questionIndex);
      }
    } else if s.Some? && next.Some? && |events| == 1 && TurnFacts.RecordsCurrent(t, s.value, events[0], false)
              && AttemptOf(next.value) == AttemptOf(s.value) && next.value.questionIndex == s.value.questionIndex + 1 {
      RecordHolds(t, a, session, log, events[0], next.value, q);
      assert events == [events[0]];
    } else if next.None? {
      ClearedHolds(t, a, session, log, events, q);
      OfAppend(a, log, events);
      LateAttempt(t, a, session, log, q);
    } else {
      var front := events[..|events| - 1];
      ClearedHolds(t, a, session, log, front, q);
      LateAttempt(t, a, session, log, q);
      OpenedHolds(t, a, log, front, events[|events| - 1], next.value, at, q);
      assert events == front + [events[|events| - 1]];
    }
  }

  /** The running attempt has events. */
  lemma LateAttempt(t: Turn, a: Attempt, session: Option<SurveySession>, log: seq<SurveyEvent>, q: Content)
    requires Continues(t, session) && TraceHolds(a, session, log, q)
    ensures t.surveys.session.Some? && AttemptOf(t.surveys.session.value) == a ==> Of(a, log) != []
  {
    hide Of, ProperTrace;
  }

  lemma RecordHolds(t: Turn, a: Attempt, session: Option<SurveySession>, log: seq<SurveyEvent>, e: SurveyEvent, next: SurveySession, q: Content)
    requires t.surveys.session.Some? && Continues(t, session) && Conforms(t.bundle, q) && TraceHolds(a, session, log, q)
    requires TurnFacts.RecordsCurrent(t, t.surveys.session.value, e, false)
    requires AttemptOf(next) == AttemptOf(t.surveys.session.value) && next.questionIndex == t.surveys.session.value.questionIndex + 1
    ensures TraceHolds(a, Some(next), log + [e], q)
    ensures Of(a, log) == [] ==> Of(a, log + [e]) == []
  {
    hide TurnFacts.RecordsCurrent, Conforms, ProperTrace, Opening, Of;
    var s := t.surveys.session.value;
    OfAppend(a, log, [e]);
    OfOne(a, e);
    assert Of(a, log) + [] == Of(a, log);
    RecordedAttempt(t, s, e, false);
    if AttemptOf(s) == a {
      RecordExtends(t, s, e, false, Of(a, log), q);
    }
  }

  /** A new attempt starts a trace of its own; it cannot be one that already ran. */
  lemma OpenedHolds(t: Turn, a: Attempt, log: seq<SurveyEvent>, front: seq<SurveyEvent>, e: SurveyEvent, next: SurveySession, at: Time, q: Content)
    requires TurnFacts.Opened(t, next, at) && e == Exposed(AttemptOf(next), next.nodeId) && Conforms(t.bundle, q)
    requires ProperTrace(a, Of(a, log + front), Questions(q, a))
    requires t.surveys.session.None? || AttemptOf(t.surveys.session.value) != a ==> Of(a, front) == []
    requires t.surveys.session.Some? && AttemptOf(t.surveys.session.value) == a ==> Of(a, log) != []
    requires a.startedAt >= at ==> Of(a, log) == []
    ensures TraceHolds(a, Some(next), log + (front + [e]), q)
    ensures a.startedAt > at ==> Of(a, log + (front + [e])) == []
  {
    hide ProperTrace, FindSurvey, Of;
    assert log + (front + [e]) == log + front + [e];
    OfAppend(a, log, front);
    OfAppend(a, log + front, [e]);
    OfOne(a, e);
    assert Of(a, log) + [] == Of(a, log) && Of(a, log + front) + [] == Of(a, log + front);
    if AttemptOf(next) == a {
      FoundId(t.bundle.surveys, next.surveyId);
      assert Questions(q, a) != [];
      assert Of(a, log + (front + [e])) == [e];
    }
  }

  // ---------------------------------------------------------------- whole conversations

  lemma SanitizedSession(lib: Lib, raw: RawState, b: Bundle, now: Time, limits: Limits)
    ensures var e := Sanitize(lib, raw, b, now, limits).state;
            e.survey.None? || (raw.Fields? && TurnFacts.SamePlace(e.survey, raw.survey))
  {
    hide FindSurvey, SurveySchema, IdsSchema, BaseSchema, KeepForm, KeepPending;
  }

  /** What one exchange does, as a survey move of the turn it was resolved in. */
  lemma OutcomeMoves(lib: Lib, x: Exchange, raw: RawState) returns (t: Turn, at: Time)
    requires TurnFacts.WellFormed(lib, x.bundle) && TurnFacts.SaneOptions(lib, x.bundle, x.options) && x.at <= x.resumedAt
    ensures x.at <= at <= x.resumedAt && t.bundle == x.bundle
    ensures t.surveys.session == Sanitize(lib, raw, x.bundle, x.at, x.options.StateLimits()).state.survey
    ensures var r := Outcome(lib, x, raw); TurnFacts.SurveyMoves(t, r.surveyEvents, r.nextState.survey, at)
  {
    hide ResolveTurn, Sanitize, ResumeTurn, TurnFacts.WellFormed, TurnFacts.SaneOptions, TurnFacts.SaneTurn, TurnFacts.SurveyMoves,
         TurnFacts.EnvelopeFits, TurnFacts.CallFits, Resolve;
    var before := Sanitize(lib, raw, x.bundle, x.at, x.options.StateLimits());
    t := TurnOf(lib, x.bundle, x.at, x.options, before.state);
    at := x.at;
    TurnFacts.TurnFits(lib, x.bundle, x.at, x.options, x.input, raw, NotExecuted);
    var r := ResolveTurn(lib, x.bundle, x.at, x.options, x.input, raw);
    if r.apiCall.Some? && x.called.Some? {
      at := x.resumedAt;
      TurnFacts.TurnIsSane(lib, x.bundle, x.at, x.options, raw);
      TurnFacts.ResolveFits(lib, x.bundle, x.at, x.options, x.input, raw);
      SameCall(lib, x, raw);
      TurnFacts.ResumedLaterMoves(t, r.apiCall.value, x.called.value, x.options.hopLimit, r.discarded, at);
    }
  }

  lemma SameCall(lib: Lib, x: Exchange, raw: RawState)
    ensures var e := Sanitize(lib, raw, x.bundle, x.at, x.options.StateLimits()).state;
            ResolveTurn(lib, x.bundle, x.at, x.options, x.input, raw).apiCall == Resolve(lib, x.bundle, x.at, x.options, x.input, e).apiCall
  {
    hide Sanitize, Resolve, ResumeTurn;
  }

  /** Between messages: every trace holds, and attempts that start after the clock have no events. */
  ghost predicate HistoryHolds(h: History, clock: Time, q: Content)
  {
    && (h.state.Absent? ==> h.session.None?) && (h.state.Fields? ==> h.state.survey == h.session) && !h.state.NotAnEnvelope?
    && (forall a: Attempt :: TraceHolds(a, h.session, h.events, q))
    && (forall a: Attempt :: a.startedAt > clock ==> Of(a, h.events) == [])
  }

  lemma NothingYet(a: Attempt, q: Content)
    ensures TraceHolds(a, None, [], q)
  {
  }

  lemma {:induction false} PlayHolds(lib: Lib, xs: seq<Exchange>, q: Content)
    requires Orderly(lib, xs, q) && xs != []
    ensures HistoryHolds(Play(lib, xs), xs[|xs| - 1].resumedAt, q)
    decreases |xs|
  {
    hide TurnFacts.WellFormed, TurnFacts.SaneOptions, Conforms, Outcome, TraceHolds, TurnFacts.SurveyMoves, Sanitize, Of;
    var last, front := xs[|xs| - 1], xs[..|xs| - 1];
    var h := Play(lib, front);
    if front != [] {
      PlayHolds(lib, front, q);
    }
    var t, at := OutcomeMoves(lib, last, h.state);
    SanitizedSession(lib, h.state, last.bundle, last.at, last.options.StateLimits());
    var r := Outcome(lib, last, h.state);
    forall a: Attempt
      ensures TraceHolds(a, r.nextState.survey, h.events + r.surveyEvents, q)
      ensures a.startedAt > last.resumedAt ==> Of(a, h.events + r.surveyEvents) == []
    {
      if front == [] {
        OfEmpty(a);
        NothingYet(a, q);
      } else {
        assert front[|front| - 1].resumedAt < last.at;
      }
      MoveHolds(t, a, h.session, h.events, r.surveyEvents, r.nextState.survey, at, q);
    }
  }

  /** In every conversation, the events of every attempt are `Exposed`, then the questions settled in order without a
      gap, then at most one `Completed`, after all questions, or `Abandoned`, before that. */
  lemma EveryTraceIsProper(lib: Lib, xs: seq<Exchange>, a: Attempt, q: Content)
    requires Orderly(lib, xs, q)
    ensures ProperTrace(a, Of(a, Play(lib, xs).events), q(a.surveyId, a.structureVersion))
  {
    hide TurnFacts.WellFormed, TurnFacts.SaneOptions, Conforms, Outcome;
    if xs != [] {
      PlayHolds(lib, xs, q);
      var h := Play(lib, xs);
      assert TraceHolds(a, h.session, h.events, q);
    }
  }
}
