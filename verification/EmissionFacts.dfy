/** When resuming after an external call keeps the workflow emissions of the branch. */
module EmissionFacts {
  import opened Prelude
  import opened Dialogue
  import opened OutputExecutor
  import opened Envelopes
  import opened ApiCalls
  import opened ResumeFacts
  import opened Resolver
  import opened Turns
  import ExecutorFacts
  import TurnFacts
  import SurveyAnswers

  // ---------------------------------------------------------------- which lists emit

  /** Read off the bundle: outputs, run with this many hops to go and no call left, come to a workflow output. Outputs
      that do not parse are passed over; a form or a survey that opens ends the run; a move costs a hop, and so does a
      call with an enabled failure node, which is entered instead of calling. */
  predicate Emits(c: Config, outputs: seq<Output>, hops: nat)
    decreases hops, |outputs|
  {
    outputs != [] &&
    var o, rest := outputs[0], outputs[1..];
    if !c.lib.valid(o) then Emits(c, rest, hops)
    else match o
      case Workflow(_) => true
      case ContextForm(id) => FindForm(c.bundle.contexts, id).None? && Emits(c, rest, hops)
      case SurveyV2(id, _) => Refused(c, id) && Emits(c, rest, hops)
      case DialogMove(id) =>
        var target := FindEnabled(c.bundle.nodes, id);
        hops > 0 && Emits(c, if target.Some? then target.value.outputs else rest, hops - 1)
      case ApiV2(p) => hops > 0 && FailureTarget(c, p).Some? && Emits(c, FailureTarget(c, p).value.outputs, hops - 1)
      case _ => Emits(c, rest, hops)
  }

  predicate Refused(c: Config, surveyId: Id)
  {
    SurveyAnswers.Unavailable(FindSurvey(c.bundle.surveys, surveyId), c.now, c.completedIds, c.preview).Some?
  }

  /** Once something was emitted it stays. */
  lemma EmittedStays(c: Config, m: Machine)
    requires m.emissions != []
    ensures Run(c, m).emissions != []
  {
    hide Run;
    var p := ExecutorFacts.Said([], [], [], m.emissions);
    var n := m.(emissions := []);
    assert [] + m.out == m.out && [] + m.unsupported == m.unsupported && [] + m.skips == m.skips;
    assert ExecutorFacts.After(p, n) == m;
    ExecutorFacts.RunAfter(c, p, n);
  }

  /** What handling an output other than a move or a call does to the queue and the emissions. */
  lemma PlainHandled(c: Config, m: Machine, item: Item)
    requires !item.output.DialogMove? && !item.output.ApiV2? && !m.halted && m.emissions == []
    ensures var n, o := Handle(c, m, item), item.output;
            && n.hops == m.hops
            && (n.emissions != [] <==> o.Workflow?)
            && (!o.Workflow? ==> n.halted == Opens(c, o) && (n.halted || n.queue == m.queue))
  {
    hide Rendered, BindWorkflow, FormRunning, SurveyAnswers.Unavailable, SwitchNotice, FindForm, FindSurvey;
  }

  /** A form or a survey opens. */
  predicate Opens(c: Config, o: Output)
  {
    (o.ContextForm? && FindForm(c.bundle.contexts, o.contextVariableId).Some?) || (o.SurveyV2? && !Refused(c, o.surveyId))
  }

  lemma MoveHandled(c: Config, m: Machine, item: Item)
    requires item.output.DialogMove? && !m.halted
    ensures var n, target := Handle(c, m, item), FindEnabled(c.bundle.nodes, item.output.targetNodeId);
            && n.emissions == m.emissions && n.hops == m.hops + 1 && (n.halted <==> n.hops > c.hopLimit)
            && (!n.halted ==> n.queue == if target.Some? then Items(target.value.outputs, target.value.id) else m.queue)
  {
    hide FindEnabled, Items;
  }

  lemma CallHandled(c: Config, m: Machine, item: Item)
    requires item.output.ApiV2? && !m.halted && c.callsLeft <= 0
    ensures var n, target := Handle(c, m, item), FailureTarget(c, item.output.api);
            && n.emissions == m.emissions && (n.halted <==> target.None? || m.hops + 1 > c.hopLimit)
            && (!n.halted ==> n.hops == m.hops + 1 && n.queue == Items(target.value.outputs, target.value.id))
  {
    hide FindEnabled, Items, BindRequest, FailureTarget;
  }

  /** The same bundle, clock and list of taken surveys. */
  ghost predicate Alike(c: Config, d: Config) { d == c.(completedForm := d.completedForm, vars := d.vars) }

  lemma EmitsStep(c: Config, d: Config, outputs: seq<Output>, hops: nat)
    requires Alike(c, d) && outputs != []
    ensures var o, rest := outputs[0], outputs[1..];
      && (!d.lib.valid(o) || (!o.Workflow? && !o.DialogMove? && !o.ApiV2? && !Opens(d, o)) ==> Emits(c, outputs, hops) == Emits(c, rest, hops))
      && (d.lib.valid(o) && o.Workflow? ==> Emits(c, outputs, hops))
      && (d.lib.valid(o) && Opens(d, o) ==> !Emits(c, outputs, hops))
      && (d.lib.valid(o) && o.DialogMove? ==>
            var target := FindEnabled(d.bundle.nodes, o.targetNodeId);
            Emits(c, outputs, hops) <==> hops > 0 && Emits(c, if target.Some? then target.value.outputs else rest, hops - 1))
      && (d.lib.valid(o) && o.ApiV2? ==>
            (Emits(c, outputs, hops) <==>
             hops > 0 && FailureTarget(d, o.api).Some? && Emits(c, FailureTarget(d, o.api).value.outputs, hops - 1)))
  {
    hide FindEnabled, FindForm, FindSurvey, SurveyAnswers.Unavailable;
  }

  /** A run with no call left emits exactly when its list does. */
  lemma {:induction false} RunEmits(c: Config, d: Config, m: Machine, outputs: seq<Output>)
    requires Alike(c, d) && d.callsLeft <= 0 && Holds(m.queue, outputs)
    requires !m.halted && m.emissions == [] && m.hops <= d.hopLimit
    ensures Run(d, m).emissions != [] <==> Emits(c, outputs, d.hopLimit - m.hops)
    decreases HopsLeft(d, m), |m.queue|
  {
    hide Run, Handle, Emits, FindEnabled, FailureTarget, Opens, Alike;
    if outputs == [] {
      RunEnd(d, m);
      NothingEmits(c, d.hopLimit - m.hops);
    } else {
      var item, rest := m.queue[0], m.(queue := m.queue[1..]);
      var o, next := outputs[0], Step(d, m);
      RunStep(d, m);
      EmitsStep(c, d, outputs, d.hopLimit - m.hops);
      if !d.lib.valid(o) {
        RunEmits(c, d, next, outputs[1..]);
      } else if o.DialogMove? {
        MoveHandled(d, rest, item);
        var target := FindEnabled(d.bundle.nodes, o.targetNodeId);
        if next.halted {
          RunEnd(d, next);
        } else {
          RunEmits(c, d, next, if target.Some? then target.value.outputs else outputs[1..]);
        }
      } else if o.ApiV2? {
        CallHandled(d, rest, item);
        if next.halted {
          RunEnd(d, next);
        } else {
          RunEmits(c, d, next, FailureTarget(d, o.api).value.outputs);
        }
      } else {
        PlainHandled(d, rest, item);
        if o.Workflow? {
          EmittedStays(d, next);
        } else if next.halted {
          RunEnd(d, next);
        } else {
          RunEmits(c, d, next, outputs[1..]);
        }
      }
    }
  }

  lemma NothingEmits(c: Config, hops: nat)
    ensures !Emits(c, [], hops)
  {
  }

  // ---------------------------------------------------------------- what resuming keeps

  /** The branch at `target` comes to a workflow output within the hops that the suspended turn left. */
  predicate BranchEmits(lib: Lib, b: Bundle, now: Time, resume: Resume, target: Node)
  {
    && resume.hops + 1 <= resume.hopLimit
    && Emits(ResumeConfig(lib, b, now, resume.hopLimit, resume, map[]), target.outputs, resume.hopLimit - resume.hops - 1)
  }

  lemma BranchRunEmits(lib: Lib, b: Bundle, now: Time, s: Site, n: Node, call: ApiCall, vars: map<string, string>, target: Node)
    requires RunNode(lib, b, now, s, n).apiCall == Some(call)
    ensures BranchRun(lib, b, now, s, n, vars, target).emissions != [] <==> BranchEmits(lib, b, now, call.resume, target)
  {
    hide Run, Suspended, RunNode, Emits;
    CallOfRun(lib, b, now, s, n, call);
    var hops := Suspended(lib, b, now, s, n).hops + 1;
    if hops <= s.hopLimit {
      var c := ResumeConfig(lib, b, now, call.resume.hopLimit, call.resume, map[]);
      RunEmits(c, CalledConfig(lib, b, now, s, vars), Initial(target.outputs, target.id, hops), target.outputs);
    }
  }

  /** Without a workflow record the resumed turn reports no emission at all. So it reports those of the continued run if
      and only if the call carried a record or the branch, as it stands in the bundle, does not emit. */
  lemma EmissionsKeptIff(lib: Lib, b: Bundle, now: Time, s: Site, n: Node, before: Sanitized, call: ApiCall,
                         result: CallResult, vars: map<string, string>, target: Node)
    requires n in b.nodes && Announced(s, before)
    requires RunNode(lib, b, now, s, n).apiCall == Some(call)
    requires Selects(lib, b, Suspended(lib, b, now, s, n), result, vars, target)
    ensures var whole := Continued(lib, b, now, s, n, vars, target);
            var resumed := ResumeTurn(lib, b, now, call, result, None, before.discarded);
            resumed.workflow.GetOr([]) == whole.emissions
            <==> call.resume.workflow.Some? || !BranchEmits(lib, b, now, call.resume, target)
  {
    hide Run, Suspended, RunBranch, BranchRun, Select, EmptyReply, Continued, SiteConfig, Initial, FindEnabled, NodesHaveWorkflow;
    hide BranchEmits, RunNode;
    CallOfRun(lib, b, now, s, n, call);
    ContinuedIsBranchAfter(lib, b, now, s, n, vars, target);
    ResumingIsContinuing(lib, b, now, s, n, before, call, result, vars, target);
    BranchRunEmits(lib, b, now, s, n, call, vars, target);
  }

  /** The same for every suspended turn of every conversation. */
  lemma SuspendedTurnKeepsIff(lib: Lib, b: Bundle, now: Time, options: Options, input: TurnInput, raw: RawState,
                              result: CallResult, vars: map<string, string>, target: Node)
    returns (s: Site, n: Node)
    requires TurnFacts.WellFormed(lib, b) && TurnFacts.SaneOptions(lib, b, options)
    requires ResolveTurn(lib, b, now, options, input, raw).apiCall.Some?
    requires LeadsTo(lib, b, ResolveTurn(lib, b, now, options, input, raw).apiCall.value.suspension.payload, result, vars, target)
    ensures var call := ResolveTurn(lib, b, now, options, input, raw).apiCall.value;
            var before := Sanitize(lib, raw, b, now, options.StateLimits());
            && n in b.nodes && RunNode(lib, b, now, s, n).apiCall == Some(call)
            && (ResumeTurn(lib, b, now, call, result, None, before.discarded).workflow.GetOr([])
                == Continued(lib, b, now, s, n, vars, target).emissions
                <==> call.resume.workflow.Some? || !BranchEmits(lib, b, now, call.resume, target))
  {
    hide *;
    var call := ResolveTurn(lib, b, now, options, input, raw).apiCall.value;
    s, n := SuspendedTurnContinues(lib, b, now, options, input, raw, result, vars, target);
    CallOfRun(lib, b, now, s, n, call);
    SelectsFrom(lib, b, Suspended(lib, b, now, s, n), call, result, vars, target);
    EmissionsKeptIff(lib, b, now, s, n, Sanitize(lib, raw, b, now, options.StateLimits()), call, result, vars, target);
  }

  lemma SelectsFrom(lib: Lib, b: Bundle, m: Machine, call: ApiCall, result: CallResult, vars: map<string, string>, target: Node)
    requires m.suspended == Some(call.suspension) && LeadsTo(lib, b, call.suspension.payload, result, vars, target)
    ensures Selects(lib, b, m, result, vars, target)
  {
  }

  // ---------------------------------------------------------------- an emission that is lost

  function PlainNode(id: Id, output: Output): Node
  {
    Node(id, "node", NORMAL, true, 0, [], [], None, false, 0, [output])
  }

  /** A call with no mapping and one condition. */
  function AskingOutput(connectionId: Id, condition: ApiCase): Output
  {
    ApiV2(ApiPayload(connectionId, "GET", "/", [], [], [], [], [condition], None, None))
  }

  /** A node asks, its one condition holds of the answer and leads to a node with one workflow output: the loop that goes
      on emits, the resumed turn reports nothing. */
  lemma LostEmission(lib: Lib, b: Bundle, now: Time, s: Site, before: Sanitized, asking: Node, answering: Node,
                     connectionId: Id, condition: ApiCase, w: WorkflowPayload, json: Json)
    returns (call: ApiCall)
    requires answering == PlainNode(answering.id, Workflow(w)) && asking == PlainNode(asking.id, AskingOutput(connectionId, condition))
    requires b.nodes == [asking, answering] && asking.id != answering.id && answering.id != []
    requires lib.isUuid(asking.id) && lib.isUuid(answering.id) && lib.isUuid(connectionId)
    requires condition.nextNodeId == answering.id && lib.holds(json, condition)
    requires lib.valid(Workflow(w)) && lib.valid(AskingOutput(connectionId, condition))
    requires s.completedForm.None? && s.initialHops < s.hopLimit && Announced(s, before)
    ensures RunNode(lib, b, now, s, asking).apiCall == Some(call)
    ensures ResumeTurn(lib, b, now, call, CallSucceeded(json), None, before.discarded).workflow.None?
    ensures Continued(lib, b, now, s, asking, map[], answering).emissions != []
  {
    hide Run, Continued, LeadsTo, ResumeTurn, BranchEmits, CarryWorkflow;
    call := AsksAtOnce(lib, b, now, s, asking);
    SelectsNext(lib, b, asking, connectionId, condition, answering, json);
    CallOfRun(lib, b, now, s, asking, call);
    EmittingBranch(lib, b, now, call.resume, answering, w);
    EmissionsKeptIff(lib, b, now, s, asking, before, call, CallSucceeded(json), map[], answering);
    NothingReported(lib, b, now, call, CallSucceeded(json), before.discarded);
  }

  lemma SelectsNext(lib: Lib, b: Bundle, asking: Node, connectionId: Id, condition: ApiCase, answering: Node, json: Json)
    requires b.nodes == [asking, answering] && asking.id != answering.id && answering.id != [] && answering.enabled
    requires condition.nextNodeId == answering.id && lib.holds(json, condition)
    ensures LeadsTo(lib, b, AskingOutput(connectionId, condition).api, CallSucceeded(json), map[], answering)
  {
    var p := AskingOutput(connectionId, condition).api;
    assert FirstToHold(lib, json, p.conditions, 0) && Brings(lib, json, [], map[]);
    assert Leads(lib, p, CallSucceeded(json), ConditionBranch, Some(answering.id), map[]);
    assert b.nodes[1] == answering && RunsNext(b, Some(answering.id), answering);
  }

  lemma EmittingBranch(lib: Lib, b: Bundle, now: Time, resume: Resume, n: Node, w: WorkflowPayload)
    requires n.outputs == [Workflow(w)] && lib.valid(Workflow(w))
    ensures BranchEmits(lib, b, now, resume, n) <==> resume.hops + 1 <= resume.hopLimit
  {
  }

  lemma NothingReported(lib: Lib, b: Bundle, now: Time, call: ApiCall, result: CallResult, discarded: seq<DiscardReason>)
    requires call.resume.workflow.None?
    ensures ResumeTurn(lib, b, now, call, result, None, discarded).workflow.None?
  {
    hide RunBranch, Select;
  }

  /** A node that begins with a call asks at once. */
  lemma AsksAtOnce(lib: Lib, b: Bundle, now: Time, s: Site, n: Node) returns (call: ApiCall)
    requires n.outputs != [] && n.outputs[0].ApiV2? && lib.valid(n.outputs[0])
    ensures RunNode(lib, b, now, s, n).apiCall == Some(call) && call.suspension.payload == n.outputs[0].api
    ensures call.resume.hops == s.initialHops && call.resume.hopLimit == s.hopLimit
    ensures s.completedForm.None? ==> call.resume.workflow.None?
  {
    hide BindRequest, Run, NodesHaveWorkflow;
    var c, m := SiteConfig(lib, b, now, s), Initial(n.outputs, n.id, s.initialHops);
    RunStep(c, m);
    RunEnd(c, Step(c, m));
    call := RunNode(lib, b, now, s, n).apiCall.value;
  }
}
