/** The loop of `executeOutputs` as it runs (packages/dialogue-engine/src/outputs.ts): it computes the run of the queue
    machine, and with it what `Readings` reads off the bundle. */
module ExecutorRuns {
  import opened Prelude
  import opened Dialogue
  import opened SurveyAnswers
  import opened OutputExecutor
  import opened Readings
  import ContextForms
  import SurveySessions

  /** The `CONTEXT_FORM` case, once the form is found. */
  method StartForm(c: Config, m: Machine, form: Form) returns (n: Machine)
    ensures n == OpenForm(c, m, form)
  {
    hide ContextForms.Start, ContextForms.Prompt, SwitchNotice;
    n := m.(out := m.out + SwitchNotice(c), form := Some(ContextForms.Start(form, c.now)));
    if form.slots != [] {
      n := n.(out := n.out + ContextForms.Prompt(form.slots[0]));
    }
    n := n.(queue := [], halted := true);
  }

  /** The `DIALOG_MOVE` case. */
  method FollowMove(c: Config, m: Machine, targetId: Id) returns (n: Machine)
    ensures n == Move(c, m, targetId)
  {
    hide Items, FindEnabled;
    n := m.(hops := m.hops + 1);
    if n.hops > c.hopLimit {
      n := n.(out := n.out + [Text(HOP_LIMIT_MESSAGE)], hopLimitHit := true);
      n := n.(queue := [], halted := true);
    } else {
      var target := FindEnabled(c.bundle.nodes, targetId);
      if target.Some? {
        n := n.(queue := Items(target.value.outputs, target.value.id));
      }
    }
  }

  /** The `SURVEY` case. */
  method StartSurvey(c: Config, m: Machine, item: Item, surveyId: Id) returns (n: Machine)
    ensures n == OpenSurvey(c, m, item, surveyId)
  {
    hide FindSurvey, Unavailable, SwitchNotice, SurveySessions.Start;
    n := m;
    var survey := FindSurvey(c.bundle.surveys, surveyId);
    var unavailable := Unavailable(survey, c.now, c.completedIds, c.preview);
    if unavailable.Some? {
      n := n.(skips := n.skips + [unavailable.value]);
    } else {
      var nodeId := if item.nodeId == [] then None else Some(item.nodeId);
      var started := SurveySessions.Start(survey.value, nodeId, item.index, c.now);
      n := n.(out := n.out + SwitchNotice(c) + started.outputs, started := Some(started));
      n := n.(queue := [], halted := true);
    }
  }

  /** The `API_CONDITION` case. */
  method SuspendOrFail(c: Config, m: Machine, item: Item, p: ApiPayload) returns (n: Machine)
    ensures n == CallApi(c, m, item, p)
  {
    hide Items, FindEnabled, BindRequest, FailureTarget;
    n := m;
    if c.callsLeft >= 1 {
      n := n.(suspended := Some(Suspension(item.nodeId, item.index, p, BindRequest(p, c.completedForm))));
      n := n.(queue := [], halted := true);
      return;
    }
    var target := FailureTarget(c, p);
    if target.None? {
      n := n.(out := n.out + [Text(API_FAILURE_NOTICE)]);
      n := n.(queue := [], halted := true);
      return;
    }
    n := n.(hops := n.hops + 1);
    if n.hops > c.hopLimit {
      n := n.(out := n.out + [Text(HOP_LIMIT_MESSAGE)], hopLimitHit := true);
      n := n.(queue := [], halted := true);
    } else {
      n := n.(queue := Items(target.value.outputs, target.value.id));
    }
  }

  /** The `switch` of the loop. */
  method HandleOutput(c: Config, m: Machine, item: Item) returns (n: Machine)
    ensures n == Handle(c, m, item)
    ensures !m.halted ==> OnlyAdds(m, n) && (GoesOn(c, m, n) || StopsAfter(c, m, n))
  {
    hide OnlyAdds, GoesOn, StopsAfter, OpenForm, Move, OpenSurvey, CallApi, Rendered, BindWorkflow, FindForm;
    if !m.halted {
      HandledOutput(c, m, item);
    }
    n := m;
    match item.output {
      case ContextForm(id) =>
        var form := FindForm(c.bundle.contexts, id);
        if form.Some? {
          n := StartForm(c, n, form.value);
        }
      case DialogMove(targetId) => n := FollowMove(c, n, targetId);
      case Scenario(_) => n := n.(unsupported := n.unsupported + [SCENARIO]);
      case SurveyV1(_) => n := n.(unsupported := n.unsupported + [SURVEY]);
      case SurveyV2(surveyId, _) => n := StartSurvey(c, n, item, surveyId);
      case ApiV1(_) => n := n.(unsupported := n.unsupported + [API_CONDITION]);
      case ApiV2(p) => n := SuspendOrFail(c, n, item, p);
      case Workflow(p) =>
        n := n.(emissions := n.emissions + [BindWorkflow(p, item.nodeId, item.index, c.completedForm)]);
      case o =>
        n := n.(out := n.out + if c.vars.Some? then Rendered(c.lib, o, c.vars.value) else [o]);
    }
  }

  /** `executeOutputs`. The variables of its loop are the fields of `m`; `m.halted` is its `break outer`. */
  method ExecuteOutputs(c: Config, outputs: seq<Output>, nodeId: Id, initialHops: nat) returns (r: Result)
    ensures r == Execute(c, outputs, nodeId, initialHops)
    ensures r == Replied(c, Read(c, outputs, nodeId, 0, HopsToGo(c, initialHops)), initialHops)
  {
    hide Handle, Run, EmptyReply, OnlyAdds, GoesOn, StopsAfter, Read, Replied;
    ExecuteReads(c, outputs, nodeId, initialHops);
    var m := Initial(outputs, nodeId, initialHops);
    while m.queue != [] && !m.halted
      invariant Run(c, m) == Run(c, Initial(outputs, nodeId, initialHops))
      decreases HopsLeft(c, m), |m.queue|
    {
      ghost var before := m;
      RunStep(c, before);
      var item := m.queue[0];
      m := m.(queue := m.queue[1..]);
      if c.lib.valid(item.output) {
        m := HandleOutput(c, m, item);
      }
      assert m == Step(c, before);
    }
    RunEnd(c, m);
    var reply := m.out;
    if m.suspended.None? && reply == [] {
      reply := reply + [EmptyReply(m.unsupported, m.skips)];
    }
    r := Result(reply, m.unsupported, m.form, m.suspended, m.hops, m.started, m.skips, m.emissions, m.hopLimitHit);
  }
}
