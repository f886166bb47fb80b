/** The work queue that runs a node's outputs (packages/dialogue-engine/src/outputs.ts), with the bindings it needs
    (api-call.ts, workflow-output.ts). `Step` and `Run` specify the loop of `ExecuteOutputs`. */
module OutputExecutor {
  import opened Prelude
  import opened Dialogue
  import opened SurveyAnswers
  import ContextForms
  import SurveySessions

  const HOP_LIMIT_MESSAGE := "요청을 처리하는 중 이동이 너무 많아 중단했어요. 다시 시도해 주세요."
  const SESSION_SWITCH_MESSAGE := "진행 중이던 이전 요청은 취소하고 새 요청으로 안내할게요."
  const API_FAILURE_NOTICE := "지금은 요청하신 정보를 확인할 수 없어요. 잠시 후 다시 시도해 주세요."
  const UNSUPPORTED_OUTPUT_NOTICE := "죄송해요, 이 응답은 아직 지원하지 않아요. 다른 방식으로 문의해 주세요."
  const SURVEY_ALREADY_RESPONDED_NOTICE := "이미 설문에 참여해 주셨어요. 감사합니다."
  const SURVEY_UNAVAILABLE_NOTICE := "지금은 참여할 수 있는 설문이 없어요."
  const DEFAULT_FALLBACK_RESPONSE := "죄송해요, 잘 이해하지 못했어요. 다른 방식으로 질문해 주시겠어요?"

  // ---------------------------------------------------------------- bindings

  datatype BoundField = BoundField(name: string, value: BoundValue)

  datatype Request = Request(connectionId: Id, verb: string, pathTemplate: string, pathValues: seq<BoundValue>,
                             query: seq<BoundField>, body: seq<BoundField>)

  datatype Suspension = Suspension(nodeId: Id, outputIndex: nat, payload: ApiPayload, request: Option<Request>)

  datatype Emission = Emission(nodeId: Id, outputIndex: nat, targetId: Id, actionKey: string, fields: seq<BoundField>,
                               bindingMissing: bool)

  function ResolveBinding(b: Binding, form: Option<CompletedForm>): Option<BoundValue>
  {
    match b
    case ConstValue(v) => Some(BoundValue(v, false))
    case SlotValue(contextId, slotName) =>
      if form.None? || form.value.contextVariableId != contextId || slotName !in form.value.values
         || Trim(form.value.values[slotName]) == []
      then None
      else Some(BoundValue(form.value.values[slotName], true))
  }

  /** All values, or none when a single one is missing. */
  function ResolveAll(bs: seq<Binding>, form: Option<CompletedForm>): (r: Option<seq<BoundValue>>)
    ensures r.Some? <==> forall i :: 0 <= i < |bs| ==> ResolveBinding(bs[i], form).Some?
    ensures r.Some? ==> |r.value| == |bs| && forall i :: 0 <= i < |bs| ==> Some(r.value[i]) == ResolveBinding(bs[i], form)
  {
    if bs == [] then Some([])
    else
      var first, rest := ResolveBinding(bs[0], form), ResolveAll(bs[1..], form);
      assert forall i :: 1 <= i < |bs| ==> bs[i] == bs[1..][i - 1];
      if first.None? || rest.None? then None else Some([first.value] + rest.value)
  }

  function ResolveFields(fs: seq<NamedBinding>, form: Option<CompletedForm>): (r: Option<seq<BoundField>>)
    ensures r.Some? <==> forall i :: 0 <= i < |fs| ==> ResolveBinding(fs[i].value, form).Some?
    ensures r.Some? ==> |r.value| == |fs|
    ensures r.Some? ==> forall i :: 0 <= i < |fs| ==>
              r.value[i].name == fs[i].name && Some(r.value[i].value) == ResolveBinding(fs[i].value, form)
  {
    if fs == [] then Some([])
    else
      var first, rest := ResolveBinding(fs[0].value, form), ResolveFields(fs[1..], form);
      assert forall i :: 1 <= i < |fs| ==> fs[i] == fs[1..][i - 1];
      if first.None? || rest.None? then None else Some([BoundField(fs[0].name, first.value)] + rest.value)
  }

  function BindRequest(p: ApiPayload, form: Option<CompletedForm>): Option<Request>
  {
    var pathValues, query, body := ResolveAll(p.pathParams, form), ResolveFields(p.query, form), ResolveFields(p.body, form);
    if pathValues.None? || query.None? || body.None? then None
    else Some(Request(p.connectionId, p.verb, p.path, pathValues.value, query.value, body.value))
  }

  /** The field loops of `bindRequest` and `bindWorkflowOutput`: stop at the first binding that is not met. */
  method CollectFields(fs: seq<NamedBinding>, form: Option<CompletedForm>) returns (r: Option<seq<BoundField>>)
    ensures r == ResolveFields(fs, form)
  {
    var bound: seq<BoundField> := [];
    for i := 0 to |fs|
      invariant |bound| == i
      invariant forall j :: 0 <= j < i ==> Some(bound[j].value) == ResolveBinding(fs[j].value, form) && bound[j].name == fs[j].name
    {
      var value := ResolveBinding(fs[i].value, form);
      if value.None? {
        return None;
      }
      bound := bound + [BoundField(fs[i].name, value.value)];
    }
    ghost var spec := ResolveFields(fs, form);
    assert forall j :: 0 <= j < |fs| ==> ResolveBinding(fs[j].value, form).Some?;
    assert bound == spec.value;
    return Some(bound);
  }

  function BindWorkflow(p: WorkflowPayload, nodeId: Id, outputIndex: nat, form: Option<CompletedForm>): Emission
  {
    var fields := ResolveFields(p.fields, form);
    Emission(nodeId, outputIndex, p.targetId, p.actionKey, fields.GetOr([]), fields.None?)
  }

  // ---------------------------------------------------------------- `{api.*}` rendering

  function Take(s: string, n: nat): string { if |s| > n then s[..n] else s }

  function RenderText(lib: Lib, s: string, vars: map<string, string>, max: nat): (r: string)
    ensures |r| <= max && r <= lib.render(s, vars) && (|lib.render(s, vars)| <= max ==> r == lib.render(s, vars))
  {
    Take(lib.render(s, vars), max)
  }

  function RenderOptional(lib: Lib, s: Option<string>, vars: map<string, string>, max: nat): Option<string>
  {
    if s.None? then None else Some(RenderText(lib, s.value, vars, max))
  }

  function RenderButtons(lib: Lib, buttons: seq<Button>, vars: map<string, string>): (r: seq<Button>)
    ensures |r| <= |buttons|
  {
    if buttons == [] then []
    else
      var caption := RenderText(lib, buttons[0].caption, vars, 40);
      (if caption == [] then [] else [buttons[0].(caption := caption)]) + RenderButtons(lib, buttons[1..], vars)
  }

  /** A card whose title renders to nothing is dropped. */
  function RenderCard(lib: Lib, card: Card, vars: map<string, string>): Option<Card>
  {
    var title := RenderText(lib, card.title, vars, 100);
    if title == [] then None
    else Some(card.(title := title,
                    description := RenderOptional(lib, card.description, vars, 500),
                    buttons := if card.buttons.None? then None else Some(RenderButtons(lib, card.buttons.value, vars))))
  }

  function RenderCards(lib: Lib, cards: seq<Card>, vars: map<string, string>): (r: seq<Card>)
    ensures |r| <= |cards|
  {
    if cards == [] then []
    else
      var first := RenderCard(lib, cards[0], vars);
      (if first.None? then [] else [first.value]) + RenderCards(lib, cards[1..], vars)
  }

  /** What a displayable output adds to the reply once `{api.*}` is rendered; nothing when a required text vanishes. */
  function Rendered(lib: Lib, o: Output, vars: map<string, string>): (r: seq<Output>)
    ensures |r| <= 2
    ensures o.Displayable() ==> AllDisplayable(r)
  {
    match o
    case Text(text) =>
      var rendered := RenderText(lib, text, vars, 1000);
      if rendered == [] then [] else [Text(rendered)]
    case CardOut(card) =>
      var rendered := RenderCard(lib, card, vars);
      if rendered.None? then [] else [CardOut(rendered.value)]
    case Buttons(prompt, buttons, quickReply) =>
      var rendered := RenderButtons(lib, buttons, vars);
      if rendered == [] then [] else [Buttons(RenderOptional(lib, prompt, vars, 500), rendered, quickReply)]
    case Carousel(heading, cards) =>
      var text, rendered := RenderOptional(lib, heading, vars, 300), RenderCards(lib, cards, vars);
      if rendered == [] then []
      else if |rendered| == 1 then
        (if text.Some? && text.value != [] then [Text(text.value)] else []) + [CardOut(rendered[0])]
      else [Carousel(text, rendered)]
    case _ => [o]
  }

  // ---------------------------------------------------------------- the machine

  datatype Item = Item(output: Output, nodeId: Id, index: nat)

  /** What stays fixed while one list of outputs is run. `vars` is set once an API call has returned. */
  datatype Config = Config(lib: Lib, bundle: Bundle, now: Time, hopLimit: int, callsLeft: int,
                           vars: Option<map<string, string>>, existing: Option<FormSession>,
                           completedForm: Option<CompletedForm>, completedIds: seq<Id>, preview: bool)

  datatype Machine = Machine(queue: seq<Item>, hops: nat, out: seq<Output>, unsupported: seq<OutputType>,
                             form: Option<FormSession>, suspended: Option<Suspension>,
                             started: Option<SurveySessions.Started>, skips: seq<SkipReason>, emissions: seq<Emission>,
                             halted: bool, hopLimitHit: bool)

  function Items(outputs: seq<Output>, nodeId: Id): (r: seq<Item>)
    ensures |r| == |outputs|
    ensures forall i :: 0 <= i < |r| ==> r[i] == Item(outputs[i], nodeId, i)
  {
    seq(|outputs|, i requires 0 <= i < |outputs| => Item(outputs[i], nodeId, i))
  }

  ghost predicate Holds(queue: seq<Item>, outputs: seq<Output>)
  {
    |queue| == |outputs| && forall i :: 0 <= i < |queue| ==> queue[i].output == outputs[i]
  }

  function Initial(outputs: seq<Output>, nodeId: Id, hops: nat): Machine
  {
    Machine(Items(outputs, nodeId), hops, [], [], None, None, None, [], [], false, false)
  }

  predicate FormRunning(c: Config) { c.existing.Some? && c.existing.value.status == IN_PROGRESS }

  function SwitchNotice(c: Config): seq<Output>
  {
    if FormRunning(c) then [Text(SESSION_SWITCH_MESSAGE)] else []
  }

  function Halt(m: Machine): Machine { m.(queue := [], halted := true) }

  function HitHopLimit(m: Machine): Machine
  {
    Halt(m).(out := m.out + [Text(HOP_LIMIT_MESSAGE)], hopLimitHit := true)
  }

  function OpenForm(c: Config, m: Machine, form: Form): Machine
  {
    var prompt := if form.slots == [] then [] else ContextForms.Prompt(form.slots[0]);
    Halt(m).(out := m.out + SwitchNotice(c) + prompt, form := Some(ContextForms.Start(form, c.now)))
  }

  function Move(c: Config, m: Machine, targetId: Id): Machine
  {
    var moved := m.(hops := m.hops + 1);
    if moved.hops > c.hopLimit then HitHopLimit(moved)
    else
      var target := FindEnabled(c.bundle.nodes, targetId);
      if target.None? then moved else moved.(queue := Items(target.value.outputs, target.value.id))
  }

  function OpenSurvey(c: Config, m: Machine, item: Item, surveyId: Id): Machine
  {
    var survey := FindSurvey(c.bundle.surveys, surveyId);
    var unavailable := Unavailable(survey, c.now, c.completedIds, c.preview);
    if unavailable.Some? then m.(skips := m.skips + [unavailable.value])
    else
      var started := SurveySessions.Start(survey.value, if item.nodeId == [] then None else Some(item.nodeId), item.index, c.now);
      Halt(m).(out := m.out + SwitchNotice(c) + started.outputs, started := Some(started))
  }

  /** Where a call that may not be made leads. */
  function FailureTarget(c: Config, p: ApiPayload): Option<Node>
  {
    if p.failureNodeId.Some? && p.failureNodeId.value != [] then FindEnabled(c.bundle.nodes, p.failureNodeId.value) else None
  }

  function CallApi(c: Config, m: Machine, item: Item, p: ApiPayload): Machine
  {
    if c.callsLeft >= 1 then
      Halt(m).(suspended := Some(Suspension(item.nodeId, item.index, p, BindRequest(p, c.completedForm))))
    else
      var target := FailureTarget(c, p);
      if target.None? then Halt(m).(out := m.out + [Text(API_FAILURE_NOTICE)])
      else
        var moved := m.(hops := m.hops + 1);
        if moved.hops > c.hopLimit then HitHopLimit(moved)
        else moved.(queue := Items(target.value.outputs, target.value.id))
  }

  /** Handles one output; `m` has already lost it from its queue. */
  function Handle(c: Config, m: Machine, item: Item): Machine
  {
    match item.output
    case ContextForm(id) =>
      var form := FindForm(c.bundle.contexts, id);
      if form.None? then m else OpenForm(c, m, form.value)
    case DialogMove(targetId) => Move(c, m, targetId)
    case Scenario(_) => m.(unsupported := m.unsupported + [SCENARIO])
    case SurveyV1(_) => m.(unsupported := m.unsupported + [SURVEY])
    case SurveyV2(surveyId, _) => OpenSurvey(c, m, item, surveyId)
    case ApiV1(_) => m.(unsupported := m.unsupported + [API_CONDITION])
    case ApiV2(p) => CallApi(c, m, item, p)
    case Workflow(p) => m.(emissions := m.emissions + [BindWorkflow(p, item.nodeId, item.index, c.completedForm)])
    case o => m.(out := m.out + if c.vars.Some? then Rendered(c.lib, o, c.vars.value) else [o])
  }

  predicate Active(m: Machine) { !m.halted && m.queue != [] }

  /** One round of the loop: take the first item, skip it when it does not parse, handle it otherwise. */
  function Step(c: Config, m: Machine): Machine
    requires Active(m)
  {
    var rest := m.(queue := m.queue[1..]);
    if c.lib.valid(m.queue[0].output) then Handle(c, rest, m.queue[0]) else rest
  }

  function HopsLeft(c: Config, m: Machine): nat { Max(c.hopLimit - m.hops, 0) }

  lemma StepDescends(c: Config, m: Machine)
    requires Active(m)
    ensures var n := Step(c, m);
            HopsLeft(c, n) < HopsLeft(c, m) || (HopsLeft(c, n) == HopsLeft(c, m) && |n.queue| < |m.queue|)
  {
    hide Rendered, BindWorkflow, BindRequest, Unavailable, FormRunning, SwitchNotice;
  }

  /** The loop of `executeOutputs`, run to its end. */
  function Run(c: Config, m: Machine): Machine
    decreases HopsLeft(c, m), |m.queue|
  {
    if Active(m) then
      StepDescends(c, m);
      Run(c, Step(c, m))
    else m
  }

  lemma RunStep(c: Config, m: Machine)
    requires Active(m)
    ensures Run(c, m) == Run(c, Step(c, m))
    ensures var n := Step(c, m);
            HopsLeft(c, n) < HopsLeft(c, m) || (HopsLeft(c, n) == HopsLeft(c, m) && |n.queue| < |m.queue|)
  {
    hide Step;
    StepDescends(c, m);
  }

  lemma RunEnd(c: Config, m: Machine)
    requires !Active(m)
    ensures Run(c, m) == m
  {
  }

  // ---------------------------------------------------------------- the result

  datatype Result = Result(outputs: seq<Output>, unsupported: seq<OutputType>, form: Option<FormSession>,
                           suspended: Option<Suspension>, hops: nat, started: Option<SurveySessions.Started>,
                           skips: seq<SkipReason>, emissions: seq<Emission>, hopLimitHit: bool)

  function EmptyReply(unsupported: seq<OutputType>, skips: seq<SkipReason>): Output
  {
    Text(if unsupported != [] then UNSUPPORTED_OUTPUT_NOTICE
         else if skips != [] then (if AlreadyResponded in skips then SURVEY_ALREADY_RESPONDED_NOTICE else SURVEY_UNAVAILABLE_NOTICE)
         else DEFAULT_FALLBACK_RESPONSE)
  }

  function Finish(m: Machine): Result
  {
    var outputs := if m.suspended.None? && m.out == [] then [EmptyReply(m.unsupported, m.skips)] else m.out;
    Result(outputs, m.unsupported, m.form, m.suspended, m.hops, m.started, m.skips, m.emissions, m.hopLimitHit)
  }

  function Execute(c: Config, outputs: seq<Output>, nodeId: Id, hops: nat): Result
  {
    Finish(Run(c, Initial(outputs, nodeId, hops)))
  }

  // ---------------------------------------------------------------- what one output may change

  /** The run goes on: nothing is opened or awaited, and the queue is as it was or, for one hop within the limit, as it
      was or that of an enabled node. */
  ghost predicate GoesOn(c: Config, m: Machine, n: Machine)
  {
    && !n.halted && n.form == m.form && n.started == m.started && n.suspended == m.suspended && n.hopLimitHit == m.hopLimitHit
    && if n.hops == m.hops then n.queue == m.queue
       else n.hops == m.hops + 1 <= c.hopLimit && (n.queue == m.queue || QueueOfNode(c, n.queue))
  }

  ghost predicate QueueOfNode(c: Config, queue: seq<Item>)
  {
    exists t :: t in c.bundle.nodes && t.enabled && queue == Items(t.outputs, t.id)
  }

  /** The run ends for one reason: a form, a survey, a call, the hop limit, or a call that cannot be made. */
  ghost predicate StopsAfter(c: Config, m: Machine, n: Machine)
  {
    var h := Halt(m);
    || (n == h.(out := n.out, form := n.form) && n.form.Some?)
    || (n == h.(out := n.out, started := n.started) && n.started.Some?)
    || (n == h.(suspended := n.suspended) && n.suspended.Some? && c.callsLeft >= 1)
    || (n == HitHopLimit(m.(hops := m.hops + 1)) && n.hops > c.hopLimit)
    || (n == h.(out := m.out + [Text(API_FAILURE_NOTICE)]) && c.callsLeft < 1)
  }

  ghost predicate OnlyAdds(m: Machine, n: Machine)
  {
    m.out <= n.out && m.unsupported <= n.unsupported && m.skips <= n.skips && m.emissions <= n.emissions
  }

  lemma MoveChanges(c: Config, m: Machine, id: Id)
    requires !m.halted
    ensures var n := Move(c, m, id); OnlyAdds(m, n) && (GoesOn(c, m, n) || StopsAfter(c, m, n))
  {
    hide Items, FindEnabled;
  }

  lemma CallChanges(c: Config, m: Machine, item: Item, p: ApiPayload)
    requires !m.halted
    ensures var n := CallApi(c, m, item, p); OnlyAdds(m, n) && (GoesOn(c, m, n) || StopsAfter(c, m, n))
  {
    hide Items, FindEnabled, BindRequest;
  }

  lemma SurveyChanges(c: Config, m: Machine, item: Item, id: Id)
    requires !m.halted
    ensures var n := OpenSurvey(c, m, item, id); OnlyAdds(m, n) && (GoesOn(c, m, n) || StopsAfter(c, m, n))
  {
    hide Items, FindSurvey, Unavailable, SwitchNotice, SurveySessions.Start, QueueOfNode;
  }

  lemma FormChanges(c: Config, m: Machine, form: Form)
    requires !m.halted
    ensures var n := OpenForm(c, m, form); OnlyAdds(m, n) && StopsAfter(c, m, n)
  {
    hide SwitchNotice, ContextForms.Start, ContextForms.Prompt;
  }

  /** Handling one output takes nothing back of what was collected, and either the run goes on or it ends. */
  lemma HandledOutput(c: Config, m: Machine, item: Item)
    requires !m.halted
    ensures var n := Handle(c, m, item); OnlyAdds(m, n) && (GoesOn(c, m, n) || StopsAfter(c, m, n))
  {
    hide Move, CallApi, OpenSurvey, OpenForm, Rendered, BindWorkflow, FindForm, QueueOfNode, StopsAfter;
    match item.output
    case ContextForm(id) =>
      if FindForm(c.bundle.contexts, id).Some? {
        FormChanges(c, m, FindForm(c.bundle.contexts, id).value);
      }
    case DialogMove(id) => MoveChanges(c, m, id);
    case SurveyV2(id, _) => SurveyChanges(c, m, item, id);
    case ApiV2(p) => CallChanges(c, m, item, p);
    case _ =>
  }
}
