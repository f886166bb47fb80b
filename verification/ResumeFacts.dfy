/** Resuming after an external call is continuing the suspended run. */
module ResumeFacts {
  import opened Prelude
  import opened Dialogue
  import opened OutputExecutor
  import opened Envelopes
  import opened ApiCalls
  import opened Resolver
  import opened Turns
  import ExecutorFacts
  import TurnFacts
  import SurveyAnswers

  /** The run of node `n` at site `s`, up to where it stops. */
  function Suspended(lib: Lib, b: Bundle, now: Time, s: Site, n: Node): Machine
  {
    Run(SiteConfig(lib, b, now, s), Initial(n.outputs, n.id, s.initialHops))
  }

  /** The configuration after the call: variables are known and no call is left. */
  function CalledConfig(lib: Lib, b: Bundle, now: Time, s: Site, vars: map<string, string>): Config
  {
    SiteConfig(lib, b, now, s).(callsLeft := 0, vars := Some(vars))
  }

  /** The machine as it would go on by itself: one hop further, at the outputs of the selected node. */
  function Redirected(m: Machine, hopLimit: int, target: Node): Machine
  {
    var moved := m.(suspended := None, halted := false, hops := m.hops + 1, queue := Items(target.outputs, target.id));
    if moved.hops > hopLimit then HitHopLimit(moved) else moved
  }

  function Continued(lib: Lib, b: Bundle, now: Time, s: Site, n: Node, vars: map<string, string>, target: Node): Machine
  {
    Run(CalledConfig(lib, b, now, s, vars), Redirected(Suspended(lib, b, now, s, n), s.hopLimit, target))
  }

  /** The suspended run waits for a call whose result leads to `target` with these variables. */
  ghost predicate Selects(lib: Lib, b: Bundle, m: Machine, result: CallResult, vars: map<string, string>, target: Node)
  {
    m.suspended.Some? && LeadsTo(lib, b, m.suspended.value.payload, result, vars, target)
  }

  // ---------------------------------------------------------------- the branch run alone

  /** What the branch does on its own, from empty collections. */
  function BranchRun(lib: Lib, b: Bundle, now: Time, s: Site, n: Node, vars: map<string, string>, target: Node): Machine
  {
    var hops := Suspended(lib, b, now, s, n).hops + 1;
    var initial := Initial(target.outputs, target.id, hops);
    if hops > s.hopLimit then HitHopLimit(initial) else Run(CalledConfig(lib, b, now, s, vars), initial)
  }

  function SaidBy(m: Machine): ExecutorFacts.Said
  {
    ExecutorFacts.Said(m.out, m.unsupported, m.skips, m.emissions)
  }

  /** A suspended machine holds nothing but what it said. */
  lemma SuspendedIsPlain(lib: Lib, b: Bundle, now: Time, s: Site, n: Node)
    requires n in b.nodes && Suspended(lib, b, now, s, n).suspended.Some?
    ensures var m := Suspended(lib, b, now, s, n);
            m.form.None? && m.started.None? && m.queue == [] && m.halted
  {
    hide Run;
    var c, m := SiteConfig(lib, b, now, s), Initial(n.outputs, n.id, s.initialHops);
    ExecutorFacts.ItemsAreShort(c, n);
    ExecutorFacts.RunBehaves(c, m);
    SuspensionHalts(c, m);
  }

  /** A run that suspended did so by halting, and not at the hop limit. */
  lemma {:induction false} SuspensionHalts(c: Config, m: Machine)
    requires m.suspended.Some? ==> m.halted && m.queue == [] && !m.hopLimitHit
    requires m.halted || !m.hopLimitHit
    ensures var r := Run(c, m); r.suspended.Some? ==> r.halted && r.queue == [] && !r.hopLimitHit
    decreases HopsLeft(c, m), |m.queue|
  {
    hide Run;
    if Active(m) {
      RunStep(c, m);
      HandleHalts(c, m.(queue := m.queue[1..]), m.queue[0]);
      SuspensionHalts(c, Step(c, m));
    } else {
      RunEnd(c, m);
    }
  }

  lemma HandleHalts(c: Config, m: Machine, item: Item)
    requires m.suspended.None? && !m.halted && !m.hopLimitHit
    ensures var r := Handle(c, m, item);
            (r.suspended.Some? ==> r.halted && r.queue == [] && !r.hopLimitHit) && (r.halted || !r.hopLimitHit)
  {
    hide Rendered, FormRunning, SurveyAnswers.Unavailable, BindRequest, BindWorkflow, Items, SwitchNotice, FindEnabled, FindForm, FindSurvey;
  }

  lemma ContinuedIsBranchAfter(lib: Lib, b: Bundle, now: Time, s: Site, n: Node, vars: map<string, string>, target: Node)
    requires n in b.nodes && Suspended(lib, b, now, s, n).suspended.Some?
    ensures Continued(lib, b, now, s, n, vars, target)
            == ExecutorFacts.After(SaidBy(Suspended(lib, b, now, s, n)), BranchRun(lib, b, now, s, n, vars, target))
  {
    hide Run, Items;
    var m := Suspended(lib, b, now, s, n);
    var c := CalledConfig(lib, b, now, s, vars);
    SuspendedIsPlain(lib, b, now, s, n);
    SuspensionHalts(SiteConfig(lib, b, now, s), Initial(n.outputs, n.id, s.initialHops));
    var initial := Initial(target.outputs, target.id, m.hops + 1);
    assert m.out + [] == m.out && m.unsupported + [] == m.unsupported && m.skips + [] == m.skips && m.emissions + [] == m.emissions;
    if m.hops + 1 > s.hopLimit {
      RunEnd(c, Redirected(m, s.hopLimit, target));
      assert [] + [Text(HOP_LIMIT_MESSAGE)] == [Text(HOP_LIMIT_MESSAGE)];
    } else {
      assert Redirected(m, s.hopLimit, target) == ExecutorFacts.After(SaidBy(m), initial);
      ExecutorFacts.RunAfter(c, SaidBy(m), initial);
    }
  }

  // ---------------------------------------------------------------- the resumed branch

  /** The record that the suspended turn carries for workflow emissions. */
  function Record(lib: Lib, b: Bundle, now: Time, s: Site, n: Node): Option<WorkflowCarry>
  {
    CarryWorkflow(Suspended(lib, b, now, s, n).emissions, s.completedForm, b)
  }

  /** What `resumeAfterApiCall` executes is the branch, its emissions aside when no record was carried. */
  lemma ResumedBranch(lib: Lib, b: Bundle, now: Time, s: Site, n: Node, call: ApiCall, result: CallResult,
                      vars: map<string, string>, target: Node)
    requires n in b.nodes && Selects(lib, b, Suspended(lib, b, now, s, n), result, vars, target)
    requires RunNode(lib, b, now, s, n).apiCall == Some(call)
    ensures var sel := Select(lib, call.suspension.payload, result);
            var r := RunBranch(lib, b, now, s.hopLimit, call.resume, sel).0;
            var x := BranchRun(lib, b, now, s, n, vars, target);
            && r.form == x.form && r.started == x.started && r.unsupported == x.unsupported
            && r.outputs == (if x.out == [] then [EmptyReply(x.unsupported, x.skips)] else x.out)
            && (Record(lib, b, now, s, n).Some? ==> r.emissions == x.emissions)
  {
    hide Run, Initial, CarryWorkflow, EmptyReply, Select, LeadsTo;
    var m := Suspended(lib, b, now, s, n);
    var sel := Select(lib, call.suspension.payload, result);
    LedToSelected(lib, b, m.suspended.value.payload, result, vars, target);
    if m.hops + 1 <= s.hopLimit {
      var c, d := CalledConfig(lib, b, now, s, sel.vars), ResumeConfig(lib, b, now, s.hopLimit, call.resume, sel.vars);
      var initial := Initial(target.outputs, target.id, m.hops + 1);
      ExecutorFacts.RunIgnoresForm(c, d, initial, initial);
      NeverSuspends(c, target, m.hops + 1, b);
      if Record(lib, b, now, s, n).Some? {
        RecordKeepsForm(lib, b, now, s, n);
      }
    } else {
      assert [] + [Text(HOP_LIMIT_MESSAGE)] == [Text(HOP_LIMIT_MESSAGE)];
      InitialIsEmpty(target, m.hops + 1);
    }
  }

  lemma InitialIsEmpty(n: Node, hops: nat)
    ensures var m := Initial(n.outputs, n.id, hops);
            m.out == [] && m.unsupported == [] && m.skips == [] && m.emissions == [] && m.form.None? && m.started.None?
  {
  }

  lemma RecordKeepsForm(lib: Lib, b: Bundle, now: Time, s: Site, n: Node)
    requires Record(lib, b, now, s, n).Some?
    ensures Record(lib, b, now, s, n).value == WorkflowCarry(Suspended(lib, b, now, s, n).emissions, s.completedForm)
  {
    hide Run, NodesHaveWorkflow;
  }

  lemma NeverSuspends(c: Config, n: Node, hops: nat, b: Bundle)
    requires c.callsLeft <= 0 && n in b.nodes && c.bundle == b
    ensures Run(c, Initial(n.outputs, n.id, hops)).suspended.None?
  {
    hide Run;
    ExecutorFacts.ExecutionBehaves(c, n, hops);
    assert Execute(c, n.outputs, n.id, hops) == Finish(Run(c, Initial(n.outputs, n.id, hops)));
  }

  // ---------------------------------------------------------------- whole turns

  /** A running survey, if any, is ended or consumed before a node is run, and the list of completed surveys only
      changes in a turn that the survey consumed. */
  ghost predicate Announced(s: Site, before: Sanitized)
  {
    && (before.state.survey.Some? ==> s.eventsSoFar != [] || s.consumed)
    && (s.surveyTurn.completedIds == before.state.completedIds || s.consumed)
  }

  /** The reply of the branch when it says nothing of its own. */
  function Said(s: Site, m: Machine, x: Machine): seq<Output>
  {
    s.carry + (m.out + if x.out == [] then [EmptyReply(x.unsupported, x.skips)] else x.out)
  }

  /** Resuming with a result that leads to an enabled node gives the turn of the continued run: same unsupported outputs,
      form session, survey session, completed surveys, survey events and consumption; same outputs as well, unless the
      branch says nothing, in which case the resumed turn adds the empty-reply text. */
  lemma ResumingIsContinuing(lib: Lib, b: Bundle, now: Time, s: Site, n: Node, before: Sanitized, call: ApiCall,
                             result: CallResult, vars: map<string, string>, target: Node)
    requires n in b.nodes && Announced(s, before)
    requires RunNode(lib, b, now, s, n).apiCall == Some(call)
    requires Selects(lib, b, Suspended(lib, b, now, s, n), result, vars, target)
    ensures var m, x := Suspended(lib, b, now, s, n), BranchRun(lib, b, now, s, n, vars, target);
            var whole := Continued(lib, b, now, s, n, vars, target);
            var resumed := ResumeTurn(lib, b, now, call, result, None, before.discarded);
            var settled := Settle(Conclude(s, Finish(whole), n.id), before);
            && resumed.unsupported == settled.unsupported
            && resumed.nextSession == settled.nextSession
            && resumed.nextState == settled.nextState
            && resumed.surveyEvents == settled.surveyEvents && resumed.surveyTurn == settled.surveyTurn
            && resumed.outputs == Said(s, m, x)
            && (x.out != [] ==> resumed.outputs == settled.outputs)
            && (Record(lib, b, now, s, n).Some? ==> resumed.workflow.GetOr([]) == settled.workflow.GetOr([]))
  {
    hide Run, Suspended, RunBranch, BranchRun, Select, EmptyReply, CarryWorkflow, Continued, SiteConfig, Initial, FindEnabled, LeadsTo;
    var sel := Select(lib, call.suspension.payload, result);
    var m, x := Suspended(lib, b, now, s, n), BranchRun(lib, b, now, s, n, vars, target);
    var whole := Continued(lib, b, now, s, n, vars, target);
    LedToSelected(lib, b, m.suspended.value.payload, result, vars, target);
    CallOfRun(lib, b, now, s, n, call);
    ResumedBranch(lib, b, now, s, n, call, result, vars, target);
    ContinuedIsBranchAfter(lib, b, now, s, n, vars, target);
    SuspendedIsPlain(lib, b, now, s, n);
    BranchDoesNotSuspend(lib, b, now, s, n, vars, target);
    if Record(lib, b, now, s, n).Some? {
      RecordKeepsForm(lib, b, now, s, n);
    }
    Joined(s, m, x, whole, n, call, before, sel, result, lib, b, now);
  }

  lemma CallOfRun(lib: Lib, b: Bundle, now: Time, s: Site, n: Node, call: ApiCall)
    requires RunNode(lib, b, now, s, n).apiCall == Some(call)
    ensures var m := Suspended(lib, b, now, s, n);
            && m.suspended == Some(call.suspension)
            && call.resume == Resume(s.carry + m.out, m.unsupported, m.hops, s.hopLimit, s.override, s.existing,
                                     Some(SurveyCarry(s.surveyTurn.completedIds, s.surveyTurn.preview, s.eventsSoFar, s.consumed, None)),
                                     Record(lib, b, now, s, n), Some(n.id), s.matchedIntentId)
  {
    hide Run, CarryWorkflow, Initial, SiteConfig;
  }

  lemma BranchDoesNotSuspend(lib: Lib, b: Bundle, now: Time, s: Site, n: Node, vars: map<string, string>, target: Node)
    requires target in b.nodes
    ensures BranchRun(lib, b, now, s, n, vars, target).suspended.None?
  {
    hide Run, Suspended, Items;
    NeverSuspends(CalledConfig(lib, b, now, s, vars), target, Suspended(lib, b, now, s, n).hops + 1, b);
  }

  lemma Joined(s: Site, m: Machine, x: Machine, whole: Machine, n: Node, call: ApiCall, before: Sanitized, sel: Selected,
               result: CallResult, lib: Lib, b: Bundle, now: Time)
    requires Announced(s, before)
    requires sel == Select(lib, call.suspension.payload, result)
    requires m.form.None? && m.started.None? && x.suspended.None? && whole == ExecutorFacts.After(SaidBy(m), x)
    requires call.resume == Resume(s.carry + m.out, m.unsupported, m.hops, s.hopLimit, s.override, s.existing,
                                   Some(SurveyCarry(s.surveyTurn.completedIds, s.surveyTurn.preview, s.eventsSoFar, s.consumed, None)),
                                   call.resume.workflow, Some(n.id), s.matchedIntentId)
    requires call.resume.workflow.Some? ==> call.resume.workflow.value.eventsSoFar == m.emissions
    requires var r := RunBranch(lib, b, now, s.hopLimit, call.resume, sel).0;
             && r.form == x.form && r.started == x.started && r.unsupported == x.unsupported
             && r.outputs == (if x.out == [] then [EmptyReply(x.unsupported, x.skips)] else x.out)
             && (call.resume.workflow.Some? ==> r.emissions == x.emissions)
    ensures var resumed := ResumeTurn(lib, b, now, call, result, None, before.discarded);
            var settled := Settle(Conclude(s, Finish(whole), n.id), before);
            && resumed.unsupported == settled.unsupported
            && resumed.nextSession == settled.nextSession
            && resumed.nextState == settled.nextState
            && resumed.surveyEvents == settled.surveyEvents && resumed.surveyTurn == settled.surveyTurn
            && resumed.outputs == Said(s, m, x)
            && (x.out != [] ==> resumed.outputs == settled.outputs)
            && (call.resume.workflow.Some? ==> resumed.workflow.GetOr([]) == settled.workflow.GetOr([]))
  {
    hide RunBranch, Select, EmptyReply;
    assert s.eventsSoFar + [] == s.eventsSoFar;
    ExecutorFacts.Assoc(s.carry, m.out, if x.out == [] then [EmptyReply(x.unsupported, x.skips)] else x.out);
  }

  /** The same for every turn of every conversation: a suspended turn was running some node `n` at some site `s`, and
      each result that leads to an enabled node continues that run. */
  lemma SuspendedTurnContinues(lib: Lib, b: Bundle, now: Time, options: Options, input: TurnInput, raw: RawState,
                               result: CallResult, vars: map<string, string>, target: Node)
    returns (s: Site, n: Node)
    requires TurnFacts.WellFormed(lib, b) && TurnFacts.SaneOptions(lib, b, options)
    requires ResolveTurn(lib, b, now, options, input, raw).apiCall.Some?
    requires LeadsTo(lib, b, ResolveTurn(lib, b, now, options, input, raw).apiCall.value.suspension.payload, result, vars, target)
    ensures var call := ResolveTurn(lib, b, now, options, input, raw).apiCall.value;
            var before := Sanitize(lib, raw, b, now, options.StateLimits());
            var resumed := ResumeTurn(lib, b, now, call, result, None, before.discarded);
            var settled := Settle(Conclude(s, Finish(Continued(lib, b, now, s, n, vars, target)), n.id), before);
            && n in b.nodes && RunNode(lib, b, now, s, n).apiCall == Some(call) && Announced(s, before)
            && resumed.unsupported == settled.unsupported && resumed.nextState == settled.nextState
            && resumed.surveyEvents == settled.surveyEvents && resumed.surveyTurn == settled.surveyTurn
            && (BranchRun(lib, b, now, s, n, vars, target).out != [] ==> resumed.outputs == settled.outputs)
  {
    hide Run, Suspended, BranchRun, Continued, SiteConfig, LeadsTo, ResumeTurn, RunNode, Resolve, Settle, Conclude, Sanitize, Finish;
    hide TurnFacts.SiteFits, TurnFacts.WellFormed, TurnFacts.SaneOptions, TurnFacts.EnvelopeFits, FindEnabled;
    var before := Sanitize(lib, raw, b, now, options.StateLimits());
    var t := TurnOf(lib, b, now, options, before.state);
    var call := ResolveTurn(lib, b, now, options, input, raw).apiCall.value;
    TurnFacts.ResolveFits(lib, b, now, options, input, raw);
    assert Resolve(lib, b, now, options, input, before.state).apiCall == Some(call) by {
      ResumedIsFinal(lib, b, now, options, input, raw);
    }
    s, n :| TurnFacts.RunsAt(t, s, n, call);
    SiteIsAnnounced(t, s, before);
    CallOfRun(lib, b, now, s, n, call);
    ResumingIsContinuing(lib, b, now, s, n, before, call, result, vars, target);
  }

  lemma SiteIsAnnounced(t: Turn, s: Site, before: Sanitized)
    requires TurnFacts.SiteFits(t, s) && t.surveys.session == before.state.survey && t.surveys.completedIds == before.state.completedIds
    ensures Announced(s, before)
  {
  }

  lemma ResumedIsFinal(lib: Lib, b: Bundle, now: Time, options: Options, input: TurnInput, raw: RawState)
    ensures var before := Sanitize(lib, raw, b, now, options.StateLimits());
            ResolveTurn(lib, b, now, options, input, raw).apiCall == Resolve(lib, b, now, options, input, before.state).apiCall
  {
    hide Sanitize, Resolve, ResumeTurn;
  }
}
