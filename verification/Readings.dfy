/** What a list of outputs comes to, read off the bundle without the work queue of packages/dialogue-engine/src/outputs.ts;
    and that the queue comes to exactly this. */
module Readings {
  import opened Prelude
  import opened Dialogue
  import opened SurveyAnswers
  import opened OutputExecutor
  import ContextForms
  import SurveySessions

  /** Why nothing more of a list is handled. */
  datatype Stop =
    | ListEnds
    | TooManyHops
    | FormOpens(form: Form)
    | SurveyOpens(survey: Survey, nodeId: Id, index: nat)
    | CallWaits(nodeId: Id, index: nat, api: ApiPayload)
    | CallRefused

  datatype Reading = Reading(out: seq<Output>, unsupported: seq<OutputType>, skips: seq<SkipReason>, emissions: seq<Emission>,
                             hops: nat, stop: Stop)
  {
    function Showing(before: seq<Output>): Reading { this.(out := before + out) }
    function OneHopMore(): Reading { this.(hops := hops + 1) }
  }

  function Nothing(stop: Stop): Reading { Reading([], [], [], [], 0, stop) }

  /** An output that is shown: as it stands, or with the answer of a call put in. */
  function Shown(c: Config, o: Output): seq<Output>
  {
    if c.vars.None? then [o] else Rendered(c.lib, o, c.vars.value)
  }

  /** A form or a survey begins: a form that was running is announced as given up. */
  function Begins(c: Config, outputs: seq<Output>, stop: Stop): Reading
  {
    var interrupted := c.existing.Some? && c.existing.value.status == IN_PROGRESS;
    Nothing(stop).Showing((if interrupted then [Text(SESSION_SWITCH_MESSAGE)] else []) + outputs)
  }

  /** The outputs from number `index` of a node on, with `left` hops to go. Those that do not parse are passed over. */
  function Read(c: Config, outputs: seq<Output>, nodeId: Id, index: nat, left: nat): Reading
    decreases left, |outputs|
  {
    if outputs == [] then Nothing(ListEnds)
    else
      var o, rest := outputs[0], Read(c, outputs[1..], nodeId, index + 1, left);
      if !c.lib.valid(o) then rest
      else if o.Displayable() then rest.Showing(Shown(c, o))
      else ReadAction(c, outputs, nodeId, index, left, rest)
  }

  /** An output that does something; `rest` is what the outputs after it come to. */
  function ReadAction(c: Config, outputs: seq<Output>, nodeId: Id, index: nat, left: nat, rest: Reading): Reading
    requires outputs != [] && !outputs[0].Displayable()
    decreases left, |outputs|, 0
  {
    match outputs[0]
    case Scenario(_) => rest.(unsupported := [SCENARIO] + rest.unsupported)
    case SurveyV1(_) => rest.(unsupported := [SURVEY] + rest.unsupported)
    case ApiV1(_) => rest.(unsupported := [API_CONDITION] + rest.unsupported)
    case Workflow(p) => rest.(emissions := [BindWorkflow(p, nodeId, index, c.completedForm)] + rest.emissions)
    case ContextForm(id) =>
      var form := FindForm(c.bundle.contexts, id);
      if form.None? then rest
      else Begins(c, if form.value.slots == [] then [] else ContextForms.Prompt(form.value.slots[0]), FormOpens(form.value))
    case SurveyV2(id, _) =>
      var survey := FindSurvey(c.bundle.surveys, id);
      var refusal := Unavailable(survey, c.now, c.completedIds, c.preview);
      if refusal.Some? then rest.(skips := [refusal.value] + rest.skips)
      else Begins(c, QuestionOutputs(survey.value, 0, true), SurveyOpens(survey.value, nodeId, index))
    case DialogMove(id) =>
      var target := FindEnabled(c.bundle.nodes, id);
      if left == 0 then Nothing(TooManyHops).Showing([Text(HOP_LIMIT_MESSAGE)]).OneHopMore()
      else if target.Some? then Read(c, target.value.outputs, target.value.id, 0, left - 1).OneHopMore()
      else Read(c, outputs[1..], nodeId, index + 1, left - 1).OneHopMore()
    case ApiV2(p) =>
      if c.callsLeft >= 1 then Nothing(CallWaits(nodeId, index, p))
      else
        var target := if p.failureNodeId.GetOr([]) == [] then None else FindEnabled(c.bundle.nodes, p.failureNodeId.value);
        if target.None? then Nothing(CallRefused).Showing([Text(API_FAILURE_NOTICE)])
        else if left == 0 then Nothing(TooManyHops).Showing([Text(HOP_LIMIT_MESSAGE)]).OneHopMore()
        else Read(c, target.value.outputs, target.value.id, 0, left - 1).OneHopMore()
  }

  /** The machine after all this, from what it had collected before. */
  function Settled(c: Config, m: Machine, r: Reading): Machine
  {
    var n := m.(queue := [], hops := m.hops + r.hops, out := m.out + r.out, unsupported := m.unsupported + r.unsupported,
                skips := m.skips + r.skips, emissions := m.emissions + r.emissions, halted := !r.stop.ListEnds?);
    match r.stop
    case ListEnds => n
    case CallRefused => n
    case TooManyHops => n.(hopLimitHit := true)
    case FormOpens(form) => n.(form := Some(FormSession(form.id, 0, map[], 0, c.now, c.now, IN_PROGRESS)))
    case CallWaits(nodeId, index, p) => n.(suspended := Some(Suspension(nodeId, index, p, BindRequest(p, c.completedForm))))
    case SurveyOpens(survey, nodeId, index) =>
      if survey.questions == [] then n
      else
        var node := if nodeId == [] then None else Some(nodeId);
        var session := SurveySession(survey.id, survey.structureVersion, node, index, 0, 0, c.now, c.now);
        n.(started := Some(SurveySessions.Started(session, QuestionOutputs(survey, 0, true),
                                                  Exposed(Attempt(survey.id, survey.structureVersion, c.now), node))))
  }

  /** The queue holds the outputs of one node from number `index` on. */
  ghost predicate Queued(queue: seq<Item>, outputs: seq<Output>, nodeId: Id, index: nat)
  {
    |queue| == |outputs| && forall i :: 0 <= i < |queue| ==> queue[i] == Item(outputs[i], nodeId, index + i)
  }

  // ---------------------------------------------------------------- one output

  lemma Regroup<T>(a: seq<T>, b: seq<T>, c: seq<T>)
    ensures (a + b) + c == a + (b + c)
  {
  }

  /** What was collected from an output stays in front of what the rest comes to. */
  lemma ShowingFirst(c: Config, m: Machine, before: seq<Output>, r: Reading)
    ensures Settled(c, m.(out := m.out + before), r) == Settled(c, m, r.Showing(before))
  {
    hide BindRequest, QuestionOutputs;
    Regroup(m.out, before, r.out);
  }

  lemma CollectedFirst(c: Config, m: Machine, u: seq<OutputType>, k: seq<SkipReason>, e: seq<Emission>, r: Reading)
    ensures Settled(c, m.(unsupported := m.unsupported + u, skips := m.skips + k, emissions := m.emissions + e), r)
         == Settled(c, m, r.(unsupported := u + r.unsupported, skips := k + r.skips, emissions := e + r.emissions))
  {
    hide BindRequest, QuestionOutputs;
    Regroup(m.unsupported, u, r.unsupported);
    Regroup(m.skips, k, r.skips);
    Regroup(m.emissions, e, r.emissions);
  }

  lemma HopFirst(c: Config, m: Machine, r: Reading)
    ensures Settled(c, m.(hops := m.hops + 1), r) == Settled(c, m, r.OneHopMore())
  {
    hide BindRequest, QuestionOutputs;
  }

  lemma QueueForgotten(c: Config, m: Machine, queue: seq<Item>, r: Reading)
    ensures Settled(c, m.(queue := queue), r) == Settled(c, m, r)
  {
    hide BindRequest, QuestionOutputs;
  }

  lemma Skipped(c: Config, m: Machine)
    requires Active(m) && !c.lib.valid(m.queue[0].output)
    ensures Step(c, m) == m.(queue := m.queue[1..])
  {
    hide Handle;
  }

  lemma ShownStep(c: Config, m: Machine)
    requires Active(m) && c.lib.valid(m.queue[0].output) && m.queue[0].output.Displayable()
    ensures Step(c, m) == m.(queue := m.queue[1..]).(out := m.out + Shown(c, m.queue[0].output))
  {
    hide Rendered, OpenForm, OpenSurvey, Move, CallApi, BindWorkflow;
  }

  /** An output that is only written down, here as `r` says. */
  lemma NotedStep(c: Config, m: Machine)
    requires Active(m) && c.lib.valid(m.queue[0].output)
    requires var o := m.queue[0].output; o.Scenario? || o.SurveyV1? || o.ApiV1? || o.Workflow?
    ensures Step(c, m) == m.(queue := m.queue[1..]).(unsupported := m.unsupported + NotedTypes(m.queue[0].output), skips := m.skips + [],
                                                    emissions := m.emissions + NotedEmission(c, m.queue[0]))
  {
    hide Rendered, OpenForm, OpenSurvey, Move, CallApi, BindWorkflow;
    assert m.skips + [] == m.skips && m.emissions + [] == m.emissions && m.unsupported + [] == m.unsupported;
  }

  function NotedTypes(o: Output): seq<OutputType>
  {
    match o
    case Scenario(_) => [SCENARIO]
    case SurveyV1(_) => [SURVEY]
    case ApiV1(_) => [API_CONDITION]
    case _ => []
  }

  function NotedEmission(c: Config, item: Item): seq<Emission>
  {
    if item.output.Workflow? then [BindWorkflow(item.output.workflow, item.nodeId, item.index, c.completedForm)] else []
  }

  lemma ReadNoted(c: Config, outputs: seq<Output>, nodeId: Id, index: nat, left: nat)
    requires outputs != [] && c.lib.valid(outputs[0])
    requires var o := outputs[0]; o.Scenario? || o.SurveyV1? || o.ApiV1? || o.Workflow?
    ensures var rest, item := Read(c, outputs[1..], nodeId, index + 1, left), Item(outputs[0], nodeId, index);
      Read(c, outputs, nodeId, index, left)
      == rest.(unsupported := NotedTypes(outputs[0]) + rest.unsupported, skips := [] + rest.skips,
               emissions := NotedEmission(c, item) + rest.emissions)
  {
    hide BindWorkflow;
    var rest := Read(c, outputs[1..], nodeId, index + 1, left);
    assert [] + rest.skips == rest.skips && [] + rest.emissions == rest.emissions && [] + rest.unsupported == rest.unsupported;
  }

  lemma FormStep(c: Config, m: Machine, outputs: seq<Output>, nodeId: Id, index: nat, left: nat)
    requires Active(m) && m.queue[0].output.ContextForm? && outputs != [] && outputs[0] == m.queue[0].output && c.lib.valid(outputs[0])
    requires FindForm(c.bundle.contexts, outputs[0].contextVariableId).Some? && !m.hopLimitHit
    ensures Step(c, m).halted && Step(c, m) == Settled(c, m, Read(c, outputs, nodeId, index, left))
  {
    hide ContextForms.Prompt, FindForm;
    var form := FindForm(c.bundle.contexts, outputs[0].contextVariableId).value;
    var prompt := if form.slots == [] then [] else ContextForms.Prompt(form.slots[0]);
    Regroup(m.out, SwitchNotice(c), prompt);
    assert m.unsupported + [] == m.unsupported && m.skips + [] == m.skips && m.emissions + [] == m.emissions;
    assert SwitchNotice(c) + prompt + [] == SwitchNotice(c) + prompt;
  }

  lemma NoForm(c: Config, m: Machine, outputs: seq<Output>, nodeId: Id, index: nat, left: nat)
    requires Active(m) && m.queue[0].output.ContextForm? && outputs != [] && outputs[0] == m.queue[0].output && c.lib.valid(outputs[0])
    requires FindForm(c.bundle.contexts, outputs[0].contextVariableId).None?
    ensures Step(c, m) == m.(queue := m.queue[1..])
    ensures Read(c, outputs, nodeId, index, left) == Read(c, outputs[1..], nodeId, index + 1, left)
  {
    hide OpenForm, FindForm;
  }

  lemma SurveyStep(c: Config, m: Machine, outputs: seq<Output>, nodeId: Id, index: nat, left: nat)
    requires Active(m) && outputs != [] && m.queue[0] == Item(outputs[0], nodeId, index) && outputs[0].SurveyV2? && c.lib.valid(outputs[0])
    requires Unavailable(FindSurvey(c.bundle.surveys, outputs[0].surveyId), c.now, c.completedIds, c.preview).None?
    ensures Step(c, m).halted && Step(c, m) == Settled(c, m, Read(c, outputs, nodeId, index, left))
  {
    hide QuestionOutputs, FindSurvey, Unavailable;
    var survey := FindSurvey(c.bundle.surveys, outputs[0].surveyId).value;
    Regroup(m.out, SwitchNotice(c), QuestionOutputs(survey, 0, true));
    assert m.unsupported + [] == m.unsupported && m.skips + [] == m.skips && m.emissions + [] == m.emissions;
    assert SwitchNotice(c) + QuestionOutputs(survey, 0, true) + [] == SwitchNotice(c) + QuestionOutputs(survey, 0, true);
  }

  lemma SurveySkipped(c: Config, m: Machine, outputs: seq<Output>, nodeId: Id, index: nat, left: nat)
    requires Active(m) && outputs != [] && m.queue[0] == Item(outputs[0], nodeId, index) && outputs[0].SurveyV2? && c.lib.valid(outputs[0])
    requires Unavailable(FindSurvey(c.bundle.surveys, outputs[0].surveyId), c.now, c.completedIds, c.preview).Some?
    ensures var reason := Unavailable(FindSurvey(c.bundle.surveys, outputs[0].surveyId), c.now, c.completedIds, c.preview).value;
      var rest := Read(c, outputs[1..], nodeId, index + 1, left);
      && Step(c, m) == m.(queue := m.queue[1..]).(unsupported := m.unsupported + [], skips := m.skips + [reason], emissions := m.emissions + [])
      && Read(c, outputs, nodeId, index, left)
         == rest.(unsupported := [] + rest.unsupported, skips := [reason] + rest.skips, emissions := [] + rest.emissions)
  {
    hide FindSurvey, Unavailable, QuestionOutputs, SurveySessions.Start;
    var rest := Read(c, outputs[1..], nodeId, index + 1, left);
    assert m.unsupported + [] == m.unsupported && m.emissions + [] == m.emissions;
    assert [] + rest.unsupported == rest.unsupported && [] + rest.emissions == rest.emissions;
  }

  /** A move within the limit: one hop, and on with the target's outputs, or with those that are left. */
  lemma MoveStep(c: Config, m: Machine, outputs: seq<Output>, nodeId: Id, index: nat, left: nat)
    requires Active(m) && m.queue[0].output.DialogMove? && outputs != [] && outputs[0] == m.queue[0].output && c.lib.valid(outputs[0])
    requires m.hops < c.hopLimit && left > 0
    ensures var target := FindEnabled(c.bundle.nodes, outputs[0].targetNodeId);
      && Step(c, m) == m.(hops := m.hops + 1).(queue := if target.Some? then Items(target.value.outputs, target.value.id) else m.queue[1..])
      && Read(c, outputs, nodeId, index, left)
         == (if target.Some? then Read(c, target.value.outputs, target.value.id, 0, left - 1)
             else Read(c, outputs[1..], nodeId, index + 1, left - 1)).OneHopMore()
  {
    hide FindEnabled, Items;
  }

  lemma MoveCut(c: Config, m: Machine, outputs: seq<Output>, nodeId: Id, index: nat)
    requires Active(m) && m.queue[0].output.DialogMove? && outputs != [] && outputs[0] == m.queue[0].output && c.lib.valid(outputs[0])
    requires m.hops >= c.hopLimit
    ensures Step(c, m).halted && Step(c, m) == Settled(c, m, Read(c, outputs, nodeId, index, 0))
  {
    hide FindEnabled, Items;
    assert m.unsupported + [] == m.unsupported && m.skips + [] == m.skips && m.emissions + [] == m.emissions;
    assert [Text(HOP_LIMIT_MESSAGE)] + [] == [Text(HOP_LIMIT_MESSAGE)];
  }

  /** A call that waits, that is refused, or whose failure node is one hop too many. */
  lemma CallStops(c: Config, m: Machine, outputs: seq<Output>, nodeId: Id, index: nat, left: nat)
    requires Active(m) && outputs != [] && m.queue[0] == Item(outputs[0], nodeId, index) && outputs[0].ApiV2? && c.lib.valid(outputs[0])
    requires c.callsLeft >= 1 || FailureTarget(c, outputs[0].api).None? || (m.hops >= c.hopLimit && left == 0)
    ensures Step(c, m).halted && Step(c, m) == Settled(c, m, Read(c, outputs, nodeId, index, left))
  {
    hide FindEnabled, Items, BindRequest;
    assert m.unsupported + [] == m.unsupported && m.skips + [] == m.skips && m.emissions + [] == m.emissions && m.out + [] == m.out;
    assert [Text(HOP_LIMIT_MESSAGE)] + [] == [Text(HOP_LIMIT_MESSAGE)] && [Text(API_FAILURE_NOTICE)] + [] == [Text(API_FAILURE_NOTICE)];
  }

  lemma CallFails(c: Config, m: Machine, outputs: seq<Output>, nodeId: Id, index: nat, left: nat)
    requires Active(m) && outputs != [] && m.queue[0] == Item(outputs[0], nodeId, index) && outputs[0].ApiV2? && c.lib.valid(outputs[0])
    requires c.callsLeft < 1 && FailureTarget(c, outputs[0].api).Some? && m.hops < c.hopLimit && left > 0
    ensures var target := FailureTarget(c, outputs[0].api).value;
      && Step(c, m) == m.(hops := m.hops + 1).(queue := Items(target.outputs, target.id))
      && Read(c, outputs, nodeId, index, left) == Read(c, target.outputs, target.id, 0, left - 1).OneHopMore()
  {
    hide FindEnabled, Items, BindRequest;
  }

  // ---------------------------------------------------------------- the whole run

  /** The queue machine comes to what is read off the bundle, from any point of a run. */
  lemma {:induction false} RunIsReading(c: Config, m: Machine, outputs: seq<Output>, nodeId: Id, index: nat)
    requires Queued(m.queue, outputs, nodeId, index) && !m.halted && !m.hopLimitHit
    ensures Run(c, m) == Settled(c, m, Read(c, outputs, nodeId, index, HopsLeft(c, m)))
    decreases HopsLeft(c, m), |m.queue|
  {
    hide Run, Handle, Step, Read, ReadAction, Settled, FindEnabled, FindForm, FindSurvey, Unavailable, FailureTarget, Shown;
    var left := HopsLeft(c, m);
    if outputs == [] {
      RunEnd(c, m);
      ReadNothing(c, m, nodeId, index, left);
    } else {
      RunStep(c, m);
      var o, n, rest := outputs[0], Step(c, m), Read(c, outputs[1..], nodeId, index + 1, left);
      assert m.queue[0] == Item(o, nodeId, index);
      QueueForgotten(c, m, m.queue[1..], rest);
      if !c.lib.valid(o) {
        Skipped(c, m);
        ReadSkipped(c, outputs, nodeId, index, left);
        RunIsReading(c, n, outputs[1..], nodeId, index + 1);
      } else if o.Displayable() {
        ShownStep(c, m);
        ReadShown(c, outputs, nodeId, index, left);
        RunIsReading(c, n, outputs[1..], nodeId, index + 1);
        ShowingFirst(c, m.(queue := m.queue[1..]), Shown(c, o), rest);
        QueueForgotten(c, m, m.queue[1..], rest.Showing(Shown(c, o)));
      } else if o.Scenario? || o.SurveyV1? || o.ApiV1? || o.Workflow? {
        NotedStep(c, m);
        ReadNoted(c, outputs, nodeId, index, left);
        RunIsReading(c, n, outputs[1..], nodeId, index + 1);
        CollectedFirst(c, m.(queue := m.queue[1..]), NotedTypes(o), [], NotedEmission(c, m.queue[0]), rest);
        QueueForgotten(c, m, m.queue[1..], Read(c, outputs, nodeId, index, left));
      } else if o.ContextForm? {
        if FindForm(c.bundle.contexts, o.contextVariableId).Some? {
          FormStep(c, m, outputs, nodeId, index, left);
          RunEnd(c, n);
        } else {
          NoForm(c, m, outputs, nodeId, index, left);
          RunIsReading(c, n, outputs[1..], nodeId, index + 1);
        }
      } else if o.SurveyV2? {
        SurveyReads(c, m, outputs, nodeId, index);
      } else {
        HopReads(c, m, outputs, nodeId, index);
      }
    }
  }

  lemma ReadNothing(c: Config, m: Machine, nodeId: Id, index: nat, left: nat)
    requires m.queue == [] && !m.halted
    ensures Settled(c, m, Read(c, [], nodeId, index, left)) == m
  {
    assert m.unsupported + [] == m.unsupported && m.skips + [] == m.skips && m.emissions + [] == m.emissions && m.out + [] == m.out;
  }

  lemma ReadSkipped(c: Config, outputs: seq<Output>, nodeId: Id, index: nat, left: nat)
    requires outputs != [] && !c.lib.valid(outputs[0])
    ensures Read(c, outputs, nodeId, index, left) == Read(c, outputs[1..], nodeId, index + 1, left)
  {
  }

  lemma ReadShown(c: Config, outputs: seq<Output>, nodeId: Id, index: nat, left: nat)
    requires outputs != [] && c.lib.valid(outputs[0]) && outputs[0].Displayable()
    ensures Read(c, outputs, nodeId, index, left) == Read(c, outputs[1..], nodeId, index + 1, left).Showing(Shown(c, outputs[0]))
  {
    hide ReadAction;
  }

  lemma SurveyReads(c: Config, m: Machine, outputs: seq<Output>, nodeId: Id, index: nat)
    requires Queued(m.queue, outputs, nodeId, index) && !m.halted && !m.hopLimitHit
    requires outputs != [] && outputs[0].SurveyV2? && c.lib.valid(outputs[0])
    ensures Run(c, m) == Settled(c, m, Read(c, outputs, nodeId, index, HopsLeft(c, m)))
    decreases HopsLeft(c, m), |m.queue|, 0
  {
    hide Run, Handle, Step, Read, ReadAction, Settled, FindSurvey, Unavailable;
    var left := HopsLeft(c, m);
    RunStep(c, m);
    var o, n, rest := outputs[0], Step(c, m), Read(c, outputs[1..], nodeId, index + 1, left);
    assert m.queue[0] == Item(o, nodeId, index);
    var refusal := Unavailable(FindSurvey(c.bundle.surveys, o.surveyId), c.now, c.completedIds, c.preview);
    if refusal.Some? {
      SurveySkipped(c, m, outputs, nodeId, index, left);
      RunIsReading(c, n, outputs[1..], nodeId, index + 1);
      CollectedFirst(c, m.(queue := m.queue[1..]), [], [refusal.value], [], rest);
      QueueForgotten(c, m, m.queue[1..], Read(c, outputs, nodeId, index, left));
    } else {
      SurveyStep(c, m, outputs, nodeId, index, left);
      RunEnd(c, n);
    }
  }

  /** A move or a call. */
  lemma HopReads(c: Config, m: Machine, outputs: seq<Output>, nodeId: Id, index: nat)
    requires Queued(m.queue, outputs, nodeId, index) && !m.halted && !m.hopLimitHit
    requires outputs != [] && (outputs[0].DialogMove? || outputs[0].ApiV2?) && c.lib.valid(outputs[0])
    ensures Run(c, m) == Settled(c, m, Read(c, outputs, nodeId, index, HopsLeft(c, m)))
    decreases HopsLeft(c, m), |m.queue|, 0
  {
    hide Run, Handle, Step, Read, ReadAction, Settled, FindEnabled, FailureTarget;
    var left := HopsLeft(c, m);
    RunStep(c, m);
    var o, n := outputs[0], Step(c, m);
    assert m.queue[0] == Item(o, nodeId, index);
    if o.DialogMove? && left == 0 {
      MoveCut(c, m, outputs, nodeId, index);
      RunEnd(c, n);
    } else if o.ApiV2? && (c.callsLeft >= 1 || FailureTarget(c, o.api).None? || left == 0) {
      CallStops(c, m, outputs, nodeId, index, left);
      RunEnd(c, n);
    } else {
      var target := if o.DialogMove? then FindEnabled(c.bundle.nodes, o.targetNodeId) else FailureTarget(c, o.api);
      if o.DialogMove? {
        MoveStep(c, m, outputs, nodeId, index, left);
      } else {
        CallFails(c, m, outputs, nodeId, index, left);
      }
      if target.Some? {
        RunIsReading(c, n, target.value.outputs, target.value.id, 0);
        HopSettles(c, m, n.queue, Read(c, target.value.outputs, target.value.id, 0, left - 1));
      } else {
        RunIsReading(c, n, outputs[1..], nodeId, index + 1);
        HopSettles(c, m, n.queue, Read(c, outputs[1..], nodeId, index + 1, left - 1));
      }
    }
  }

  lemma HopSettles(c: Config, m: Machine, queue: seq<Item>, r: Reading)
    ensures Settled(c, m.(hops := m.hops + 1).(queue := queue), r) == Settled(c, m, r.OneHopMore())
  {
    hide Settled;
    QueueForgotten(c, m.(hops := m.hops + 1), queue, r);
    HopFirst(c, m, r);
  }

  // ---------------------------------------------------------------- the reply

  /** The reply: what was shown, or a text that says why there is nothing to show, unless a call is awaited. */
  function Replied(c: Config, r: Reading, hops: nat): Result
  {
    var end := Settled(c, Initial([], [], hops), r);
    var excuse := if r.unsupported != [] then UNSUPPORTED_OUTPUT_NOTICE
                  else if AlreadyResponded in r.skips then SURVEY_ALREADY_RESPONDED_NOTICE
                  else if r.skips != [] then SURVEY_UNAVAILABLE_NOTICE
                  else DEFAULT_FALLBACK_RESPONSE;
    Result(if r.out == [] && !r.stop.CallWaits? then [Text(excuse)] else r.out, r.unsupported, end.form, end.suspended,
           hops + r.hops, end.started, r.skips, r.emissions, r.stop.TooManyHops?)
  }

  function HopsToGo(c: Config, hops: nat): nat { Max(c.hopLimit - hops, 0) }

  lemma QueuedItems(outputs: seq<Output>, nodeId: Id)
    ensures Queued(Items(outputs, nodeId), outputs, nodeId, 0)
  {
  }

  /** Running a list of outputs replies with exactly what is read off the bundle. */
  lemma ExecuteReads(c: Config, outputs: seq<Output>, nodeId: Id, hops: nat)
    ensures Execute(c, outputs, nodeId, hops) == Replied(c, Read(c, outputs, nodeId, 0, HopsToGo(c, hops)), hops)
  {
    hide Run, Read;
    var m := Initial(outputs, nodeId, hops);
    QueuedItems(outputs, nodeId);
    RunIsReading(c, m, outputs, nodeId, 0);
    SettledFromNothing(c, outputs, nodeId, hops, Read(c, outputs, nodeId, 0, HopsToGo(c, hops)));
  }

  lemma SettledFromNothing(c: Config, outputs: seq<Output>, nodeId: Id, hops: nat, r: Reading)
    ensures Finish(Settled(c, Initial(outputs, nodeId, hops), r)) == Replied(c, r, hops)
  {
    hide BindRequest, QuestionOutputs;
    assert [] + r.out == r.out && [] + r.unsupported == r.unsupported && [] + r.skips == r.skips && [] + r.emissions == r.emissions;
  }
}
