/** What every turn keeps, whatever envelope the client sends. */
module TurnFacts {
  import opened Prelude
  import opened Dialogue
  import opened Envelopes
  import opened ApiCalls
  import opened Resolver
  import opened Turns
  import OutputExecutor
  import ExecutorFacts
  import Matching
  import ContextForms
  import SurveySessions

  // ---------------------------------------------------------------- well-formed bundles

  ghost predicate FormAssets(lib: Lib, f: Form)
  {
    && lib.isUuid(f.id) && 1 <= |f.slots| <= STATE_MAX_FILLED_VALUE_KEYS
    && forall i :: 0 <= i < |f.slots| ==> ShortTexts(f.slots[i].choices)
  }

  ghost predicate ShortTexts(texts: seq<string>)
  {
    forall i :: 0 <= i < |texts| ==> |texts[i]| <= STATE_MAX_FILLED_VALUE_LENGTH
  }

  ghost predicate SurveyAssets(lib: Lib, s: Survey)
  {
    lib.isUuid(s.id) && s.structureVersion >= 1 && |s.questions| <= 20
  }

  /** The limits of the bundle schemas that the envelope schema relies on. */
  ghost predicate WellFormed(lib: Lib, b: Bundle)
  {
    && (forall i :: 0 <= i < |b.contexts| ==> FormAssets(lib, b.contexts[i]))
    && (forall i :: 0 <= i < |b.surveys| ==> SurveyAssets(lib, b.surveys[i]))
    && (forall i :: 0 <= i < |b.nodes| ==> lib.isUuid(b.nodes[i].id) && |b.nodes[i].outputs| <= 10)
    && (forall i :: 0 <= i < |b.homonyms| ==> lib.isUuid(b.homonyms[i].id) && 1 <= |b.homonyms[i].word| <= 50)
    && (forall i :: 0 <= i < |b.keywords| ==> |b.keywords[i].name| <= STATE_MAX_FILLED_VALUE_LENGTH)
  }

  ghost predicate SaneOptions(lib: Lib, b: Bundle, o: Options)
  {
    && o.MaxInput() <= STATE_MAX_FILLED_VALUE_LENGTH && o.ClarifyTtl() >= 0 && o.StateLimits().stateMaxAgeMs >= 0
    && (o.index.Some? ==> o.index.value == Matching.IndexOf(lib, b))
  }

  ghost predicate SaneTurn(t: Turn)
  {
    && WellFormed(t.lib, t.bundle) && SaneOptions(t.lib, t.bundle, t.options) && IdsSchema(t.lib, t.surveys.completedIds)
    && (t.surveys.session.Some? ==> AcceptableSurvey(t.lib, t.surveys.session.value, t.bundle, t.now) && !FormIsRunning(t.session))
    && (t.session.Some? ==> FormFits(t, t.session.value))
  }

  // ---------------------------------------------------------------- what a turn may hand back

  /** A form session the next turn will accept, its serialised size aside. */
  ghost predicate FormFits(t: Turn, f: FormSession)
  {
    && FindForm(t.bundle.contexts, f.contextVariableId).Some? && t.lib.isUuid(f.contextVariableId)
    && InTime(f.startedAt, t.now, t.options.StateLimits().stateMaxAgeMs) && f.lastInteractedAt <= t.now
    && |f.filledValues| <= STATE_MAX_FILLED_VALUE_KEYS
    && forall k :: k in f.filledValues ==> |f.filledValues[k]| <= STATE_MAX_FILLED_VALUE_LENGTH
  }

  ghost predicate EnvelopeFits(t: Turn, e: Envelope)
  {
    && !(e.survey.Some? && FormIsRunning(e.form))
    && IdsSchema(t.lib, e.completedIds)
    && (e.survey.Some? ==> AcceptableSurvey(t.lib, e.survey.value, t.bundle, t.now))
    && (e.form.Some? ==> FormFits(t, e.form.value))
    && (e.pending.Some? ==> PendingFits(t, e.pending.value))
  }

  ghost predicate PendingFits(t: Turn, p: PendingClarify)
  {
    && t.lib.isUuid(p.homonymId) && 1 <= |p.word| <= 50
    && AcceptablePending(p, t.bundle, t.now, t.options.StateLimits())
  }

  /** The envelope a settled resolution leads to. */
  function NextEnvelope(t: Turn, r: Resolution): Envelope
  {
    Envelope(r.nextSession, r.pending, if r.survey.Some? then r.survey.value.next else t.surveys.session,
             if r.survey.Some? then r.survey.value.completedIds else t.surveys.completedIds)
  }

  /** The call comes from node `n`, run at site `s` of this turn. */
  ghost predicate RunsAt(t: Turn, s: Site, n: Node, call: ApiCall)
  {
    n in t.bundle.nodes && SiteFits(t, s) && RunNode(t.lib, t.bundle, t.now, s, n).apiCall == Some(call)
  }

  ghost predicate HasOrigin(t: Turn, call: ApiCall) { exists s, n :: RunsAt(t, s, n, call) }

  ghost predicate CallFits(t: Turn, call: ApiCall)
  {
    && HasOrigin(t, call)
    && AllDisplayable(call.resume.carry)
    && !FormIsRunning(call.resume.sessionFallback)
    && (call.resume.sessionFallback.Some? ==> FormFits(t, call.resume.sessionFallback.value))
    && call.resume.survey.Some? && call.resume.survey.value.sessionFallback.None?
    && IdsSchema(t.lib, call.resume.survey.value.completedIds)
    && Cleared(t, call.resume.survey.value.eventsSoFar)
  }

  function EventsOf(r: Resolution): seq<SurveyEvent>
  {
    if r.survey.Some? then r.survey.value.events else []
  }

  ghost predicate Fits(t: Turn, r: Resolution)
  {
    if r.apiCall.Some? then CallFits(t, r.apiCall.value)
    else
      && r.outputs != [] && AllDisplayable(r.outputs) && EnvelopeFits(t, NextEnvelope(t, r))
      && SurveyMoves(t, EventsOf(r), NextEnvelope(t, r).survey, t.now)
  }

  // ---------------------------------------------------------------- what a turn may do to a survey

  /** The events that end the running attempt: one `Abandoned`, or the last question's record and `Completed`. */
  ghost predicate Ends(t: Turn, s: SurveySession, events: seq<SurveyEvent>)
  {
    || (|events| == 1 && events[0].Abandoned? && events[0].attempt == SurveySessions.AttemptOf(s))
    || (|events| == 2 && events[1] == Completed(SurveySessions.AttemptOf(s)) && RecordsCurrent(t, s, events[0], true))
  }

  /** An event that settles the current question of the running attempt. */
  ghost predicate RecordsCurrent(t: Turn, s: SurveySession, e: SurveyEvent, last: bool)
  {
    var survey := FindSurvey(t.bundle.surveys, s.surveyId);
    && survey.Some? && s.questionIndex < |survey.value.questions| && survey.value.structureVersion == s.structureVersion
    && (last <==> s.questionIndex + 1 == |survey.value.questions|)
    && SurveySessions.RecordsQuestion(e, SurveySessions.AttemptOf(s), survey.value.questions[s.questionIndex], s.questionIndex)
  }

  /** The events before a node is run: none without a running survey, its end otherwise. */
  ghost predicate Cleared(t: Turn, events: seq<SurveyEvent>)
  {
    if t.surveys.session.None? then events == [] else Ends(t, t.surveys.session.value, events)
  }

  /** A survey session opened at time `at`. */
  ghost predicate Opened(t: Turn, n: SurveySession, at: Time)
  {
    var survey := FindSurvey(t.bundle.surveys, n.surveyId);
    && survey.Some? && survey.value.structureVersion == n.structureVersion && survey.value.questions != []
    && n.questionIndex == 0 && n.startedAt == at
  }

  /** The same attempt, at the same question. */
  predicate SamePlace(a: Option<SurveySession>, b: Option<SurveySession>)
  {
    && (a.Some? <==> b.Some?)
    && (a.Some? ==> SurveySessions.AttemptOf(a.value) == SurveySessions.AttemptOf(b.value) && a.value.questionIndex == b.value.questionIndex)
  }

  /** What one turn does to the survey: nothing but a retry, one question settled, or an end and perhaps a new start. */
  ghost predicate SurveyMoves(t: Turn, events: seq<SurveyEvent>, next: Option<SurveySession>, at: Time)
  {
    var s := t.surveys.session;
    || (events == [] && SamePlace(s, next))
    || (s.Some? && next.Some? && |events| == 1 && RecordsCurrent(t, s.value, events[0], false)
        && SurveySessions.AttemptOf(next.value) == SurveySessions.AttemptOf(s.value)
        && next.value.questionIndex == s.value.questionIndex + 1)
    || (next.None? && Cleared(t, events))
    || (next.Some? && events != [] && Cleared(t, events[..|events| - 1]) && Opened(t, next.value, at)
        && events[|events| - 1] == Exposed(SurveySessions.AttemptOf(next.value), next.value.nodeId))
  }

  /** A place that may run a node: the running survey has been told off, and no form is running any more. */
  ghost predicate SiteFits(t: Turn, s: Site)
  {
    && AllDisplayable(s.carry)
    && !FormIsRunning(s.override) && (s.override.Some? ==> FormFits(t, s.override.value))
    && IdsSchema(t.lib, s.surveyTurn.completedIds)
    && Cleared(t, s.eventsSoFar)
    && (s.surveyTurn.completedIds == t.surveys.completedIds || s.consumed)
  }

  // ---------------------------------------------------------------- node runs

  lemma FreshFormFits(t: Turn, c: OutputExecutor.Config, f: FormSession)
    requires SaneTurn(t) && c.bundle == t.bundle && c.now == t.now && ExecutorFacts.FreshForm(c, f)
    ensures FormFits(t, f)
  {
    var form: Form :| FindForm(c.bundle.contexts, form.id) == Some(form) && f == ContextForms.Start(form, c.now);
    assert form in t.bundle.contexts;
  }

  lemma FreshSurveyFits(t: Turn, c: OutputExecutor.Config, s: SurveySessions.Started)
    requires SaneTurn(t) && c.bundle == t.bundle && ExecutorFacts.FreshSurvey(c, s)
    ensures c.now == t.now ==> AcceptableSurvey(t.lib, s.session, t.bundle, t.now)
    ensures OpensSurvey(t, s, c.now)
  {
    hide FindSurvey;
    var survey: Survey, nodeId: Option<Id>, index: nat :|
      FindSurvey(c.bundle.surveys, survey.id) == Some(survey) && survey.questions != [] && index < ExecutorFacts.LongestList(c.bundle)
      && (nodeId.Some? ==> ExecutorFacts.IsNodeId(c.bundle.nodes, nodeId.value))
      && survey.id !in c.completedIds
      && s == SurveySessions.Start(survey, nodeId, index, c.now);
    assert survey in t.bundle.surveys;
    ShortLists(t.lib, t.bundle.nodes);
  }

  lemma {:induction false} ShortLists(lib: Lib, nodes: seq<Node>)
    requires forall i :: 0 <= i < |nodes| ==> lib.isUuid(nodes[i].id) && |nodes[i].outputs| <= 10
    ensures ExecutorFacts.Longest(nodes) <= 10
  {
    if nodes != [] {
      ShortLists(lib, nodes[1..]);
    }
  }

  lemma AppendDisplayable(a: seq<Output>, b: seq<Output>)
    requires AllDisplayable(a) && AllDisplayable(b)
    ensures AllDisplayable(a + b)
  {
  }

  /** The executor's result, joined to what the site had, fits the next envelope. */
  ghost predicate ResultFits(t: Turn, r: OutputExecutor.Result)
  {
    && AllDisplayable(r.outputs) && (r.suspended.None? ==> r.outputs != [])
    && (r.form.Some? ==> r.started.None? && FormFits(t, r.form.value))
    && (r.started.Some? ==> AcceptableSurvey(t.lib, r.started.value.session, t.bundle, t.now) && OpensSurvey(t, r.started.value, t.now))
  }

  /** A survey just opened, with its first event. */
  ghost predicate OpensSurvey(t: Turn, s: SurveySessions.Started, at: Time)
  {
    Opened(t, s.session, at) && s.event == Exposed(SurveySessions.AttemptOf(s.session), s.session.nodeId)
  }

  /** A node is run once the running survey is cleared: the turn ends it and perhaps opens another. */
  lemma ClearedThenOpened(t: Turn, events: seq<SurveyEvent>, started: Option<SurveySessions.Started>, at: Time)
    requires Cleared(t, events) && (started.Some? ==> OpensSurvey(t, started.value, at))
    ensures SurveyMoves(t, events + (if started.Some? then [started.value.event] else []),
                        if started.Some? then Some(started.value.session) else None, at)
  {
    hide Opened, Ends, RecordsCurrent;
    if started.Some? {
      var all := events + [started.value.event];
      assert all[..|all| - 1] == events;
    } else {
      assert events + [] == events;
    }
  }

  lemma EndingIsNotSilent(t: Turn, events: seq<SurveyEvent>)
    requires Cleared(t, events)
    ensures t.surveys.session.Some? ==> events != []
  {
  }

  /** The same, through `mergeSurveyOutcome`. */
  lemma MergedMoves(t: Turn, events: seq<SurveyEvent>, turn: SurveyTurn, started: Option<SurveySessions.Started>, consumed: bool)
    requires Cleared(t, events) && (started.Some? ==> OpensSurvey(t, started.value, t.now))
    ensures var m := MergeSurvey(events, turn, started, consumed);
            SurveyMoves(t, if m.Some? then m.value.events else [], if m.Some? then m.value.next else t.surveys.session, t.now)
  {
    hide SurveyMoves, Cleared, OpensSurvey;
    ClearedThenOpened(t, events, started, t.now);
    EndingIsNotSilent(t, events);
    assert events + [] == events;
  }

  lemma ExecuteFits(t: Turn, c: OutputExecutor.Config, n: Node, hops: nat)
    requires SaneTurn(t) && n in t.bundle.nodes && c.bundle == t.bundle && c.now == t.now
    ensures ResultFits(t, OutputExecutor.Execute(c, n.outputs, n.id, hops))
    ensures OutputExecutor.Execute(c, n.outputs, n.id, hops).suspended.Some? ==> c.callsLeft >= 1
  {
    hide OutputExecutor.Execute, FormFits, AcceptableSurvey, ExecutorFacts.FreshForm, ExecutorFacts.FreshSurvey, SaneTurn;
    var r := OutputExecutor.Execute(c, n.outputs, n.id, hops);
    ExecutorFacts.ExecutionBehaves(c, n, hops);
    if r.form.Some? {
      FreshFormFits(t, c, r.form.value);
    }
    if r.started.Some? {
      FreshSurveyFits(t, c, r.started.value);
    }
  }

  lemma ConcludeFits(t: Turn, s: Site, r: OutputExecutor.Result, nodeId: Id)
    requires SaneTurn(t) && SiteFits(t, s) && ResultFits(t, r) && r.suspended.None?
    ensures Fits(t, Conclude(s, r, nodeId))
  {
    hide FormFits, AcceptableSurvey, IdsSchema, WellFormed, SaneOptions, SurveyMoves, Opened, Ends, RecordsCurrent;
    AppendDisplayable(s.carry, r.outputs);
    MergedMoves(t, s.eventsSoFar, s.surveyTurn, r.started, s.consumed);
    EndingIsNotSilent(t, s.eventsSoFar);
  }

  lemma SuspendFits(t: Turn, s: Site, r: OutputExecutor.Result, n: Node)
    requires SaneTurn(t) && SiteFits(t, s) && ResultFits(t, r) && r.suspended.Some? && n in t.bundle.nodes
    requires RunNode(t.lib, t.bundle, t.now, s, n) == Suspend(s, r, t.bundle, n.id)
    ensures Fits(t, Suspend(s, r, t.bundle, n.id))
  {
    hide RunNode;
    assert RunsAt(t, s, n, Suspend(s, r, t.bundle, n.id).apiCall.value);
    hide FormFits, AcceptableSurvey, IdsSchema, WellFormed, SaneOptions, CarryWorkflow;
    AppendDisplayable(s.carry, r.outputs);
  }

  lemma RunNodeFits(t: Turn, s: Site, n: Node)
    requires SaneTurn(t) && SiteFits(t, s) && n in t.bundle.nodes
    ensures Fits(t, RunNode(t.lib, t.bundle, t.now, s, n))
  {
    hide OutputExecutor.Execute, ResultFits, SiteFits, SaneTurn, Fits, Conclude, Suspend;
    var c := SiteConfig(t.lib, t.bundle, t.now, s);
    var r := OutputExecutor.Execute(c, n.outputs, n.id, s.initialHops);
    ExecuteFits(t, c, n, s.initialHops);
    if r.suspended.Some? {
      SuspendFits(t, s, r, n);
    } else {
      ConcludeFits(t, s, r, n.id);
    }
  }

  // ---------------------------------------------------------------- resuming

  lemma SelectedFits(t: Turn, call: ApiCall, sel: Selected, hopLimit: int)
    requires SaneTurn(t) && CallFits(t, call)
    ensures ResultFits(t, RunBranch(t.lib, t.bundle, t.now, hopLimit, call.resume, sel).0)
    ensures RunBranch(t.lib, t.bundle, t.now, hopLimit, call.resume, sel).0.suspended.None?
  {
    hide OutputExecutor.Execute, SaneTurn, CallFits, FormFits, AcceptableSurvey;
    var target := if sel.targetId.Some? then FindEnabled(t.bundle.nodes, sel.targetId.value) else None;
    if target.Some? && call.resume.hops + 1 <= hopLimit {
      ExecuteFits(t, ResumeConfig(t.lib, t.bundle, t.now, hopLimit, call.resume, sel.vars), target.value, call.resume.hops + 1);
    }
  }

  lemma JoinFits(t: Turn, call: ApiCall, r: OutputExecutor.Result, branch: Branch, discarded: seq<DiscardReason>)
    requires SaneTurn(t) && CallFits(t, call) && ResultFits(t, r) && r.suspended.None?
    ensures var j := Join(call.resume, r, branch, discarded);
            && j.apiCall.None? && j.outputs != [] && AllDisplayable(j.outputs) && EnvelopeFits(t, j.nextState)
            && SurveyMoves(t, j.surveyEvents, j.nextState.survey, t.now)
  {
    hide FormFits, AcceptableSurvey, IdsSchema, SaneTurn, SurveyMoves, Opened, Ends, RecordsCurrent, HasOrigin;
    AppendDisplayable(call.resume.carry, r.outputs);
    ClearedThenOpened(t, call.resume.survey.value.eventsSoFar, r.started, t.now);
  }

  /** A resumed turn is final: it never asks for another call, it replies, and its envelope fits. */
  lemma ResumedTurnFits(t: Turn, call: ApiCall, result: CallResult, hopLimit: Option<int>, discarded: seq<DiscardReason>)
    requires SaneTurn(t) && CallFits(t, call)
    ensures var r := ResumeTurn(t.lib, t.bundle, t.now, call, result, hopLimit, discarded);
            && r.apiCall.None? && r.outputs != [] && AllDisplayable(r.outputs) && EnvelopeFits(t, r.nextState)
            && SurveyMoves(t, r.surveyEvents, r.nextState.survey, t.now)
  {
    hide SaneTurn, CallFits, ResultFits, RunBranch, Join, Select, EnvelopeFits, SurveyMoves;
    var sel := Select(t.lib, call.suspension.payload, result);
    var limit := hopLimit.GetOr(call.resume.hopLimit);
    SelectedFits(t, call, sel, limit);
    var run := RunBranch(t.lib, t.bundle, t.now, limit, call.resume, sel);
    JoinFits(t, call, run.0, run.1, discarded);
  }

  /** A turn resumed at a later time still moves the survey of the suspended turn. */
  lemma ResumedLaterMoves(t: Turn, call: ApiCall, result: CallResult, hopLimit: Option<int>, discarded: seq<DiscardReason>, at: Time)
    requires SaneTurn(t) && CallFits(t, call)
    ensures var r := ResumeTurn(t.lib, t.bundle, at, call, result, hopLimit, discarded);
            SurveyMoves(t, r.surveyEvents, r.nextState.survey, at)
  {
    hide SaneTurn, OutputExecutor.Execute, Select, SurveyMoves, HasOrigin, OpensSurvey, Cleared, ExecutorFacts.FreshSurvey, IdsSchema, FindEnabled;
    var sel := Select(t.lib, call.suspension.payload, result);
    var limit := hopLimit.GetOr(call.resume.hopLimit);
    var target := if sel.targetId.Some? then FindEnabled(t.bundle.nodes, sel.targetId.value) else None;
    var run := RunBranch(t.lib, t.bundle, at, limit, call.resume, sel);
    if target.Some? && call.resume.hops + 1 <= limit {
      var c := ResumeConfig(t.lib, t.bundle, at, limit, call.resume, sel.vars);
      ExecutorFacts.ExecutionBehaves(c, target.value, call.resume.hops + 1);
      if run.0.started.Some? {
        FreshSurveyFits(t, c, run.0.started.value);
      }
    }
    ClearedThenOpened(t, call.resume.survey.value.eventsSoFar, run.0.started, at);
  }

  // ---------------------------------------------------------------- the pipeline, from its end

  lemma FallbackFits(t: Turn, s: Site)
    requires SaneTurn(t) && SiteFits(t, s)
    ensures Fits(t, Fallback(t, s))
  {
    hide RunNode, SaneTurn, SiteFits, Fits, OldestErrorFaq, FindFallback;
    var node := FindFallback(t.bundle.nodes);
    if node.Some? {
      RunNodeFits(t, s, node.value);
    } else {
      var faq := OldestErrorFaq(t.bundle.faqs);
      var answer := Text(if faq.Some? then faq.value.answer else t.options.defaultFallback.GetOr(OutputExecutor.DEFAULT_FALLBACK_RESPONSE));
      ReplyFits(t, s, answer);
      MatchesDoNotMatter(t, SiteReply(s, answer), Fallback(t, s));
    }
  }

  /** A reply of one output at a site, without a pending question. */
  function SiteReply(s: Site, o: Output): Resolution
  {
    Reply(s.carry + [o], s.override, MergeSurvey(s.eventsSoFar, s.surveyTurn, None, s.consumed))
  }

  lemma ReplyFits(t: Turn, s: Site, o: Output)
    requires SaneTurn(t) && SiteFits(t, s) && o.Displayable()
    ensures Fits(t, SiteReply(s, o))
  {
    hide FormFits, AcceptableSurvey, IdsSchema, WellFormed, SaneOptions, SurveyMoves, Opened, Ends, RecordsCurrent;
    AppendDisplayable(s.carry, [o]);
    MergedMoves(t, s.eventsSoFar, s.surveyTurn, None, s.consumed);
    EndingIsNotSilent(t, s.eventsSoFar);
  }

  /** Which assets matched has no bearing on what is handed back. */
  lemma MatchesDoNotMatter(t: Turn, r: Resolution, q: Resolution)
    requires Fits(t, r)
    requires q == r.(matchedNodeId := q.matchedNodeId, matchedIntentId := q.matchedIntentId, matchedFaqId := q.matchedFaqId)
    ensures Fits(t, q)
  {
    hide EnvelopeFits, CallFits, SurveyMoves;
  }

  lemma AskFits(t: Turn, s: Site, dict: Homonym)
    requires SaneTurn(t) && SiteFits(t, s) && dict in t.bundle.homonyms
    ensures Fits(t, SiteReply(s, ClarifyOutput(dict)).(pending := Some(PendingClarify(dict.id, dict.word, t.now))))
  {
    hide FormFits, AcceptableSurvey, IdsSchema, FindHomonym, ClarifyOutput, SurveyMoves, CallFits;
    var o := ClarifyOutput(dict);
    assert o.Displayable() by { ClarifyIsShown(dict); }
    ReplyFits(t, s, o);
    var i :| 0 <= i < |t.bundle.homonyms| && t.bundle.homonyms[i] == dict;
  }

  lemma ClarifyIsShown(dict: Homonym)
    ensures ClarifyOutput(dict).Buttons?
  {
  }

  lemma FaqReplyFits(t: Turn, norm: string, s: Site, intentId: Option<Id>)
    requires SaneTurn(t) && SiteFits(t, s)
    ensures FaqReply(t, norm, s, intentId).Some? ==> Fits(t, FaqReply(t, norm, s, intentId).value)
  {
    hide SaneTurn, SiteFits, Fits, Matching.MatchFaq, FindFaq, CandidateButtons, MergeSurvey;
    var reply := FaqReply(t, norm, s, intentId);
    if reply.Some? {
      var o := reply.value.outputs[|s.carry|];
      assert reply.value.outputs == s.carry + [o] && o.Displayable();
      ReplyFits(t, s, o);
      MatchesDoNotMatter(t, SiteReply(s, o), reply.value);
    }
  }

  lemma SiteIgnoresIntent(t: Turn, s: Site, intentId: Option<Id>)
    requires SiteFits(t, s)
    ensures SiteFits(t, s.(matchedIntentId := intentId))
  {
    hide FormFits, IdsSchema, Cleared;
  }

  lemma RankingIsOfBundle(t: Turn)
    requires SaneTurn(t)
    ensures forall n :: n in Ranking(t) ==> n in t.bundle.nodes
  {
    hide WellFormed, FormFits, AcceptableSurvey, IdsSchema;
    assert Ranking(t) == Matching.RankNodes(t.bundle.nodes);
    Matching.RankedNodes(t.bundle.nodes);
    forall n | n in Ranking(t) ensures n in t.bundle.nodes {
      assert n in multiset(Matching.RankNodes(t.bundle.nodes));
    }
  }

  lemma AnswerFits(t: Turn, norm: string, s: Site, boost: seq<Id>, clarified: Option<Id>)
    requires SaneTurn(t) && SiteFits(t, s)
    ensures Fits(t, Answer(t, norm, s, boost, clarified))
  {
    hide RunNode, SaneTurn, SiteFits, Fits, Matching.FirstMatch, FaqReply, IntentFor, Ranking, IntentText, FirstExample, Fallback;
    var intent := IntentFor(t, norm, boost);
    var intentId := (if intent.Some? then Some(intent.value.intentId) else None).OrElse(clarified).OrElse(ConfirmedIntentId(t));
    var form := if s.completedForm.Some? then Some(s.completedForm.value.contextVariableId) else None;
    var node := Matching.FirstMatch(t.lib, t.bundle, norm, intentId, form, Ranking(t));
    SiteIgnoresIntent(t, s, intentId);
    if node.Some? {
      RankingIsOfBundle(t);
      RunNodeFits(t, s.(matchedIntentId := intentId), node.value);
    } else {
      FaqReplyFits(t, norm, s, intentId);
      FallbackFits(t, s.(matchedIntentId := intentId));
      if intentId.Some? {
        var example := if intent.Some? then intent.value.matchedExample else FirstExample(t.bundle.intents, intentId.value);
        IntentTextShown(intentId.value, example);
        ReplyFits(t, s, IntentText(intentId.value, example));
        if FaqReply(t, norm, s, intentId).None? {
          MatchesDoNotMatter(t, SiteReply(s, IntentText(intentId.value, example)), Answer(t, norm, s, boost, clarified));
        }
      }
    }
  }

  lemma IntentTextShown(id: Id, example: string)
    ensures IntentText(id, example).Displayable()
  {
  }

  lemma DisambiguateFits(t: Turn, norm: string, s: Site, pending: Option<PendingClarify>)
    requires SaneTurn(t) && SiteFits(t, s)
    ensures Fits(t, Disambiguate(t, norm, s, pending))
  {
    hide SaneTurn, SiteFits, Fits, Clarified, Matching.ResolveHomonym, ClarifyOutput, Answer;
    var clarified := Clarified(t, norm, pending);
    if clarified.Some? {
      AnswerFits(t, norm, s, Boosted(clarified.value.intentId), clarified.value.intentId);
    } else {
      var homonym := Matching.ResolveHomonym(t.lib, norm, t.bundle.homonyms);
      if homonym.Evaluated? && homonym.status.Ambiguous? && homonym.dict.policy == ASK {
        AskFits(t, s, homonym.dict);
      } else {
        AnswerFits(t, norm, s, if homonym.Evaluated? && homonym.status.Resolved? then Boosted(homonym.status.intentId) else [], None);
      }
    }
  }

  // ---------------------------------------------------------------- S1: the form

  function Names(slots: seq<FormSlot>): (r: set<string>)
    ensures |r| <= |slots|
    ensures forall i :: 0 <= i < |slots| ==> slots[i].name in r
  {
    if slots == [] then {} else Names(slots[..|slots| - 1]) + {slots[|slots| - 1].name}
  }

  lemma FilledKeysBound(form: Form, filled: map<string, string>)
    requires forall k :: k in filled ==> exists i :: 0 <= i < |form.slots| && form.slots[i].name == k
    ensures |filled| <= |form.slots|
  {
    hide Names;
    CardinalityMonotone(filled.Keys, Names(form.slots));
  }

  lemma {:induction false} CardinalityMonotone<T>(a: set<T>, b: set<T>)
    requires a <= b
    ensures |a| <= |b|
  {
    if a != {} {
      var x :| x in a;
      CardinalityMonotone(a - {x}, b - {x});
    }
  }

  lemma SlotValueIsShort(lib: Lib, slot: FormSlot, raw: string, keywords: seq<Keyword>)
    requires |raw| <= STATE_MAX_FILLED_VALUE_LENGTH && ShortTexts(slot.choices)
    requires forall i :: 0 <= i < |keywords| ==> |keywords[i].name| <= STATE_MAX_FILLED_VALUE_LENGTH
    ensures var c := ContextForms.CheckSlotValue(lib, slot, raw, keywords);
            c.Valid? ==> |c.value| <= STATE_MAX_FILLED_VALUE_LENGTH
  {
    hide Trim, ContextForms.FirstNormalised, FindKeyword;
  }

  /** The values of a form after one more answer: only a slot of the form is added. */
  lemma StepFilled(lib: Lib, s: FormSession, raw: string, form: Form, now: Time, keywords: seq<Keyword>)
    ensures var n := ContextForms.Step(lib, s, raw, form, now, keywords).state;
            && n.contextVariableId == s.contextVariableId && n.startedAt == s.startedAt
            && (s.lastInteractedAt <= now ==> n.lastInteractedAt <= now)
            && (n.filledValues == s.filledValues
                || (s.currentSlotIndex < |form.slots|
                    && var c := ContextForms.CheckSlotValue(lib, form.slots[s.currentSlotIndex], raw, keywords);
                       c.Valid? && n.filledValues == s.filledValues[form.slots[s.currentSlotIndex].name := c.value]))
  {
    hide ContextForms.CheckSlotValue, ContextForms.NamesCancel, ContextForms.RetryText, ContextForms.Prompt;
  }

  lemma FormStepFits(t: Turn, raw: string, form: Form)
    requires SaneTurn(t) && FormIsRunning(t.session) && |raw| <= STATE_MAX_FILLED_VALUE_LENGTH
    requires FindForm(t.bundle.contexts, t.session.value.contextVariableId) == Some(form)
    requires !StructureBroken(Some(form), t.session.value)
    ensures FormFits(t, ContextForms.Step(t.lib, t.session.value, raw, form, t.now, t.bundle.keywords).state)
  {
    hide ContextForms.Step, ContextForms.CheckSlotValue, FindForm, AcceptableSurvey, InTime;
    var s := t.session.value;
    var n := ContextForms.Step(t.lib, s, raw, form, t.now, t.bundle.keywords).state;
    StepFilled(t.lib, s, raw, form, t.now, t.bundle.keywords);
    assert form in t.bundle.contexts;
    if n.filledValues != s.filledValues {
      SlotValueIsShort(t.lib, form.slots[s.currentSlotIndex], raw, t.bundle.keywords);
      FilledKeysBound(form, n.filledValues);
    }
  }

  lemma FormStageFits(t: Turn, raw: string, carry: seq<Output>, events: seq<SurveyEvent>, pending: Option<PendingClarify>)
    requires SaneTurn(t) && AllDisplayable(carry) && |raw| <= STATE_MAX_FILLED_VALUE_LENGTH
    requires Cleared(t, events)
    ensures Fits(t, FormStage(t, raw, carry, events, pending))
  {
    hide ContextForms.Step, FindForm, AcceptableSurvey, WellFormed, SaneOptions, StructureBroken, Disambiguate, FormFits,
      IdsSchema, SurveyMoves, Ends;
    MergedMoves(t, events, t.surveys, None, false);
    EndingIsNotSilent(t, events);
    var norm := t.lib.normalize(raw);
    if !FormIsRunning(t.session) {
      DisambiguateFits(t, norm, TextSite(t, carry, events, None), pending);
    } else {
      var session := t.session.value;
      var form := FindForm(t.bundle.contexts, session.contextVariableId);
      if StructureBroken(form, session) {
        CancelledFits(t, session);
      } else {
        assert form.Some? by { BrokenIfGone(session); }
        var advance := ContextForms.Step(t.lib, session, raw, form.value, t.now, t.bundle.keywords);
        FormStepFits(t, raw, form.value);
        ContextForms.StepOutputs(t.lib, session, raw, form.value, t.now, t.bundle.keywords);
        if advance.state.status == COMPLETED {
          AppendDisplayable(carry, advance.outputs);
          var completed := CompletedForm(form.value.id, advance.state.filledValues);
          DisambiguateFits(t, norm, TextSite(t, carry + advance.outputs, events, Some(completed)), None);
        }
      }
    }
  }

  lemma CancelledFits(t: Turn, s: FormSession)
    requires FormFits(t, s)
    ensures FormFits(t, s.(status := CANCELLED, lastInteractedAt := t.now))
  {
  }

  // ---------------------------------------------------------------- S0: the survey

  lemma CompletionTargetIsOfBundle(t: Turn, session: SurveySession)
    ensures SurveyCompletionTarget(t, session).Some? ==> SurveyCompletionTarget(t, session).value in t.bundle.nodes
  {
    hide FindNode, FindEnabled;
  }

  lemma ContinuedSurveyFits(t: Turn, survey: Survey, next: SurveySession)
    requires SaneTurn(t) && t.surveys.session.Some?
    requires FindSurvey(t.bundle.surveys, t.surveys.session.value.surveyId) == Some(survey)
    requires var s := t.surveys.session.value;
             || (next == s.(retryCount := s.retryCount + 1, lastInteractedAt := t.now) && s.retryCount < 2)
             || (next == s.(questionIndex := s.questionIndex + 1, retryCount := 0, lastInteractedAt := t.now)
                 && s.questionIndex + 1 < |survey.questions|)
    ensures AcceptableSurvey(t.lib, next, t.bundle, t.now)
  {
    hide FindSurvey, IdsSchema, FormFits, SaneOptions;
    assert survey in t.bundle.surveys;
  }

  /** What a text does to the running survey, in terms of its events. */
  lemma AdvanceMoves(t: Turn, raw: string, survey: Survey)
    requires t.surveys.session.Some? && t.surveys.session.value.questionIndex < |survey.questions|
    requires FindSurvey(t.bundle.surveys, t.surveys.session.value.surveyId) == Some(survey)
    ensures var a := SurveySessions.Step(t.lib, t.surveys.session.value, raw, survey, t.now, t.surveys.preview);
            && (a.Released? || a.completed ==> Cleared(t, a.events))
            && (a.Consumed? && !a.completed ==> SurveyMoves(t, a.events, a.next, t.now))
  {
    hide SurveySessions.Step, FindSurvey, SurveySessions.RecordsQuestion, Opened;
    var s := t.surveys.session.value;
    SurveySessions.StepShape(t.lib, s, raw, survey, t.now, t.surveys.preview);
  }

  lemma SurveyReplyFits(t: Turn, raw: string, survey: Survey)
    requires SaneTurn(t) && t.surveys.session.Some?
    requires FindSurvey(t.bundle.surveys, t.surveys.session.value.surveyId) == Some(survey)
    ensures var a := SurveySessions.Step(t.lib, t.surveys.session.value, raw, survey, t.now, t.surveys.preview);
            && (a.Consumed? ==> Fits(t, SurveyReply(t, t.surveys.session.value, a)))
            && (a.Released? ==> Cleared(t, a.events) && AllDisplayable(a.carry))
  {
    hide SurveySessions.Step, RunNode, SurveyCompletionTarget, WellFormed, SaneOptions, FindSurvey, FormFits, PushCompleted, Ends;
    var s := t.surveys.session.value;
    var a := SurveySessions.Step(t.lib, s, raw, survey, t.now, t.surveys.preview);
    SurveySessions.StepShape(t.lib, s, raw, survey, t.now, t.surveys.preview);
    AdvanceMoves(t, raw, survey);
    if a.Consumed? && a.next.Some? {
      ContinuedSurveyFits(t, survey, a.next.value);
    }
    if a.Consumed? && a.completed {
      var ids := PushCompleted(t.surveys.completedIds, s.surveyId);
      PushedIds(t.lib, t.surveys.completedIds, s.surveyId);
      var target := SurveyCompletionTarget(t, s);
      if target.Some? {
        CompletionTargetIsOfBundle(t, s);
        RunNodeFits(t, CompletionSite(t, a, ids), target.value);
      }
    }
  }

  lemma PushedIds(lib: Lib, ids: seq<Id>, id: Id)
    requires IdsSchema(lib, ids) && lib.isUuid(id)
    ensures IdsSchema(lib, PushCompleted(ids, id))
  {
    hide PushCompleted;
    var r := PushCompleted(ids, id);
    forall i | 0 <= i < |r| ensures lib.isUuid(r[i]) {
      assert r[i] in r;
    }
  }

  // ---------------------------------------------------------------- whole turns

  lemma RespondFits(t: Turn, input: string, pending: Option<PendingClarify>)
    requires SaneTurn(t)
    ensures Fits(t, Respond(t, input, pending))
  {
    hide FormStage, SurveyReply, SurveySessions.Step, FindSurvey, WellFormed, FormFits, IdsSchema;
    var raw := if |input| > t.options.MaxInput() then input[..t.options.MaxInput()] else input;
    if t.lib.normalize(raw) != [] {
      if t.surveys.session.None? {
        FormStageFits(t, raw, [], [], pending);
      } else {
        var survey := FindSurvey(t.bundle.surveys, t.surveys.session.value.surveyId);
        SurveyReplyFits(t, raw, survey.value);
        var a := SurveySessions.Step(t.lib, t.surveys.session.value, raw, survey.value, t.now, t.surveys.preview);
        if a.Released? {
          FormStageFits(t, raw, a.carry, a.events, None);
        }
      }
    }
  }

  lemma {:induction false} ByIdIsOfBundle(nodes: seq<Node>, id: Id)
    requires id in Matching.ById(nodes)
    ensures Matching.ById(nodes)[id] in nodes
  {
    var front, last := nodes[..|nodes| - 1], nodes[|nodes| - 1];
    if id != last.id {
      ByIdIsOfBundle(front, id);
      assert Matching.ById(front)[id] in nodes;
    }
  }

  lemma ButtonFits(t: Turn, nodeId: Id)
    requires SaneTurn(t)
    ensures Fits(t, RespondToButton(t, nodeId))
  {
    hide RunNode, WellFormed, AcceptableSurvey, FindNode, Fallback, IdsSchema, Matching.RankNodes, Matching.WithText;
    var s := ButtonSite(t);
    assert SiteFits(t, s);
    var node := LookupNode(t, nodeId);
    if node.Some? && node.value.enabled {
      if t.options.index.Some? && nodeId in t.options.index.value.nodesById {
        ByIdIsOfBundle(t.bundle.nodes, nodeId);
      }
      RunNodeFits(t, s, node.value);
    } else {
      FallbackFits(t, s);
    }
  }

  /** The turn that `resolveTurn` works on is sane, whatever the client sent. */
  lemma TurnIsSane(lib: Lib, b: Bundle, now: Time, options: Options, raw: RawState)
    requires WellFormed(lib, b) && SaneOptions(lib, b, options)
    ensures SaneTurn(TurnOf(lib, b, now, options, Sanitize(lib, raw, b, now, options.StateLimits()).state))
  {
    hide Sanitize, WellFormed, FindForm, FindHomonym, AcceptableSurvey, IdsSchema, InTime;
    SanitizedIsSafe(lib, raw, b, now, options.StateLimits());
  }

  lemma ResolveFits(lib: Lib, b: Bundle, now: Time, options: Options, input: TurnInput, raw: RawState)
    requires WellFormed(lib, b) && SaneOptions(lib, b, options)
    ensures var e := Sanitize(lib, raw, b, now, options.StateLimits()).state;
            Fits(TurnOf(lib, b, now, options, e), Resolve(lib, b, now, options, input, e))
  {
    hide Sanitize, WellFormed, SaneOptions, SaneTurn, Respond, RespondToButton, Fits;
    var e := Sanitize(lib, raw, b, now, options.StateLimits()).state;
    var t := TurnOf(lib, b, now, options, e);
    TurnIsSane(lib, b, now, options, raw);
    match input
    case Message(text) => RespondFits(t, text, e.pending);
    case NodeButton(id) => ButtonFits(t, id);
  }

  /** Every turn, suspended or not, replies with shown outputs and with an envelope that fits; and so does every way of
      resuming it. */
  lemma TurnFits(lib: Lib, b: Bundle, now: Time, options: Options, input: TurnInput, raw: RawState, result: CallResult)
    requires WellFormed(lib, b) && SaneOptions(lib, b, options)
    ensures var t := TurnOf(lib, b, now, options, Sanitize(lib, raw, b, now, options.StateLimits()).state);
            var r := ResolveTurn(lib, b, now, options, input, raw);
            && r.outputs != [] && AllDisplayable(r.outputs) && EnvelopeFits(t, r.nextState)
            && SurveyMoves(t, r.surveyEvents, r.nextState.survey, now)
            && (r.apiCall.Some? ==>
                  var f := ResumeTurn(lib, b, now, r.apiCall.value, result, options.hopLimit, r.discarded);
                  f.apiCall.None? && f.outputs != [] && AllDisplayable(f.outputs) && EnvelopeFits(t, f.nextState))
  {
    hide Sanitize, WellFormed, SaneOptions, SaneTurn, Resolve, EnvelopeFits, CallFits, ResumeTurn, SurveyMoves;
    var before := Sanitize(lib, raw, b, now, options.StateLimits());
    var t := TurnOf(lib, b, now, options, before.state);
    TurnIsSane(lib, b, now, options, raw);
    ResolveFits(lib, b, now, options, input, raw);
    var r := Resolve(lib, b, now, options, input, before.state);
    if r.apiCall.Some? {
      ResumedTurnFits(t, r.apiCall.value, NotExecuted, options.hopLimit, before.discarded);
      ResumedTurnFits(t, r.apiCall.value, result, options.hopLimit, ResolveTurn(lib, b, now, options, input, raw).discarded);
    }
  }

  /** No turn ends with both a survey and a running form, nor with more than twenty completed surveys. */
  lemma TurnIsExclusive(lib: Lib, b: Bundle, now: Time, options: Options, input: TurnInput, raw: RawState)
    requires WellFormed(lib, b) && SaneOptions(lib, b, options)
    ensures var e := ResolveTurn(lib, b, now, options, input, raw).nextState;
            !(e.survey.Some? && FormIsRunning(e.form)) && |e.completedIds| <= COMPLETED_SURVEYS_MAX
  {
    hide ResolveTurn, Sanitize, WellFormed, SaneOptions, AcceptableSurvey, FormFits, PendingFits, SurveyMoves, ResumeTurn;
    TurnFits(lib, b, now, options, input, raw, NotExecuted);
  }

  lemma FittingIsAcceptable(t: Turn, e: Envelope)
    requires EnvelopeFits(t, e)
    requires e.form.Some? ==> t.lib.serializedSize(e.form.value) <= STATE_MAX_BYTES
    ensures Acceptable(t.lib, e, t.bundle, t.now, t.options.StateLimits())
  {
    hide FindForm, FindSurvey, FindHomonym, AcceptableSurvey, InTime, IdsSchema;
  }

  /** The envelope a turn returns is accepted by the next re-check as it stands, as long as its form is small enough. */
  lemma TurnAcceptsItself(lib: Lib, b: Bundle, now: Time, options: Options, input: TurnInput, raw: RawState)
    requires WellFormed(lib, b) && SaneOptions(lib, b, options)
    requires var e := ResolveTurn(lib, b, now, options, input, raw).nextState;
             e.form.Some? ==> lib.serializedSize(e.form.value) <= STATE_MAX_BYTES
    ensures var e := ResolveTurn(lib, b, now, options, input, raw).nextState;
            Sanitize(lib, Sent(e), b, now, options.StateLimits()) == Sanitized(e, [])
  {
    hide ResolveTurn, Sanitize, WellFormed, SaneOptions, EnvelopeFits, Acceptable, Sent, SurveyMoves, ResumeTurn;
    var e := ResolveTurn(lib, b, now, options, input, raw).nextState;
    var t := TurnOf(lib, b, now, options, Sanitize(lib, raw, b, now, options.StateLimits()).state);
    TurnFits(lib, b, now, options, input, raw, NotExecuted);
    FittingIsAcceptable(t, e);
    AcceptedIffUnchanged(lib, e, b, now, options.StateLimits());
  }
}
