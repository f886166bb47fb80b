/** What every run of the output executor keeps. */
module ExecutorFacts {
  import opened Prelude
  import opened Dialogue
  import opened SurveyAnswers
  import opened OutputExecutor
  import ContextForms
  import SurveySessions

  // ---------------------------------------------------------------- what was said before does not matter

  datatype Said = Said(out: seq<Output>, unsupported: seq<OutputType>, skips: seq<SkipReason>, emissions: seq<Emission>)

  /** The machine `m` as it is when `p` had been collected before. */
  function After(p: Said, m: Machine): Machine
  {
    m.(out := p.out + m.out, unsupported := p.unsupported + m.unsupported, skips := p.skips + m.skips,
       emissions := p.emissions + m.emissions)
  }

  lemma Assoc<T>(a: seq<T>, b: seq<T>, c: seq<T>)
    ensures a + (b + c) == (a + b) + c
  {
  }

  lemma MoveAfter(c: Config, p: Said, m: Machine, targetId: Id)
    ensures Move(c, After(p, m), targetId) == After(p, Move(c, m, targetId))
  {
    hide Items, FindEnabled;
    Assoc(p.out, m.out, [Text(HOP_LIMIT_MESSAGE)]);
  }

  lemma OpenFormAfter(c: Config, p: Said, m: Machine, form: Form)
    ensures OpenForm(c, After(p, m), form) == After(p, OpenForm(c, m, form))
  {
    hide ContextForms.Start, ContextForms.Prompt;
    Assoc(p.out, m.out, SwitchNotice(c));
    Assoc(p.out, m.out + SwitchNotice(c), if form.slots == [] then [] else ContextForms.Prompt(form.slots[0]));
  }

  lemma OpenSurveyAfter(c: Config, p: Said, m: Machine, item: Item, surveyId: Id)
    ensures OpenSurvey(c, After(p, m), item, surveyId) == After(p, OpenSurvey(c, m, item, surveyId))
  {
    hide Unavailable, FindSurvey, SurveySessions.Start, FormRunning;
    var survey := FindSurvey(c.bundle.surveys, surveyId);
    var unavailable := Unavailable(survey, c.now, c.completedIds, c.preview);
    if unavailable.Some? {
      Assoc(p.skips, m.skips, [unavailable.value]);
    } else {
      var nodeId := if item.nodeId == [] then None else Some(item.nodeId);
      Assoc(p.out, m.out, SwitchNotice(c));
      Assoc(p.out, m.out + SwitchNotice(c), SurveySessions.Start(survey.value, nodeId, item.index, c.now).outputs);
    }
  }

  lemma CallApiAfter(c: Config, p: Said, m: Machine, item: Item, api: ApiPayload)
    ensures CallApi(c, After(p, m), item, api) == After(p, CallApi(c, m, item, api))
  {
    hide Items, FindEnabled, BindRequest;
    Assoc(p.out, m.out, [Text(HOP_LIMIT_MESSAGE)]);
    Assoc(p.out, m.out, [Text(API_FAILURE_NOTICE)]);
  }

  lemma HandleAfter(c: Config, p: Said, m: Machine, item: Item)
    ensures Handle(c, After(p, m), item) == After(p, Handle(c, m, item))
  {
    hide Rendered, BindWorkflow, Move, OpenForm, OpenSurvey, CallApi, FindForm;
    match item.output
    case ContextForm(id) =>
      var form := FindForm(c.bundle.contexts, id);
      if form.Some? {
        OpenFormAfter(c, p, m, form.value);
      }
    case DialogMove(id) => MoveAfter(c, p, m, id);
    case Scenario(_) => Assoc(p.unsupported, m.unsupported, [SCENARIO]);
    case SurveyV1(_) => Assoc(p.unsupported, m.unsupported, [SURVEY]);
    case SurveyV2(id, _) => OpenSurveyAfter(c, p, m, item, id);
    case ApiV1(_) => Assoc(p.unsupported, m.unsupported, [API_CONDITION]);
    case ApiV2(api) => CallApiAfter(c, p, m, item, api);
    case Workflow(w) => Assoc(p.emissions, m.emissions, [BindWorkflow(w, item.nodeId, item.index, c.completedForm)]);
    case o => Assoc(p.out, m.out, if c.vars.Some? then Rendered(c.lib, o, c.vars.value) else [o]);
  }

  /** A run appends to what had been collected and does not look at it. */
  lemma {:induction false} RunAfter(c: Config, p: Said, m: Machine)
    ensures Run(c, After(p, m)) == After(p, Run(c, m))
    decreases HopsLeft(c, m), |m.queue|
  {
    hide Handle, Run;
    if Active(m) {
      RunStep(c, m);
      RunStep(c, After(p, m));
      HandleAfter(c, p, m.(queue := m.queue[1..]), m.queue[0]);
      assert Step(c, After(p, m)) == After(p, Step(c, m));
      RunAfter(c, p, Step(c, m));
    } else {
      RunEnd(c, m);
      RunEnd(c, After(p, m));
    }
  }

  // ---------------------------------------------------------------- the completed form feeds bindings only

  function Quiet(m: Machine): Machine { m.(emissions := []) }

  lemma OpenSurveyIgnoresForm(c: Config, d: Config, m: Machine, n: Machine, item: Item, id: Id)
    requires d == c.(completedForm := d.completedForm) && Quiet(m) == Quiet(n)
    ensures Quiet(OpenSurvey(c, m, item, id)) == Quiet(OpenSurvey(d, n, item, id))
  {
    hide Unavailable, FindSurvey, SurveySessions.Start;
  }

  lemma MoveIgnoresForm(c: Config, d: Config, m: Machine, n: Machine, id: Id)
    requires d == c.(completedForm := d.completedForm) && Quiet(m) == Quiet(n)
    ensures Quiet(Move(c, m, id)) == Quiet(Move(d, n, id))
  {
    hide Items, FindEnabled;
  }

  lemma OpenFormIgnoresForm(c: Config, d: Config, m: Machine, n: Machine, form: Form)
    requires d == c.(completedForm := d.completedForm) && Quiet(m) == Quiet(n)
    ensures Quiet(OpenForm(c, m, form)) == Quiet(OpenForm(d, n, form))
  {
    hide ContextForms.Start, ContextForms.Prompt;
  }

  lemma CallApiIgnoresForm(c: Config, d: Config, m: Machine, n: Machine, item: Item, api: ApiPayload)
    requires c.callsLeft <= 0 && d == c.(completedForm := d.completedForm) && Quiet(m) == Quiet(n)
    ensures Quiet(CallApi(c, m, item, api)) == Quiet(CallApi(d, n, item, api))
  {
    hide Items, FindEnabled, BindRequest;
  }

  lemma HandleIgnoresForm(c: Config, d: Config, m: Machine, n: Machine, item: Item)
    requires c.callsLeft <= 0 && d == c.(completedForm := d.completedForm) && Quiet(m) == Quiet(n)
    ensures Quiet(Handle(c, m, item)) == Quiet(Handle(d, n, item))
  {
    hide Rendered, BindWorkflow, FindForm, OpenForm, OpenSurvey, CallApi, Move;
    match item.output
    case ContextForm(id) =>
      var form := FindForm(c.bundle.contexts, id);
      if form.Some? {
        OpenFormIgnoresForm(c, d, m, n, form.value);
      }
    case DialogMove(id) => MoveIgnoresForm(c, d, m, n, id);
    case SurveyV2(id, _) => OpenSurveyIgnoresForm(c, d, m, n, item, id);
    case ApiV2(api) => CallApiIgnoresForm(c, d, m, n, item, api);
    case _ =>
  }

  /** With no call left, the completed form changes workflow emissions and nothing else. */
  lemma {:induction false} RunIgnoresForm(c: Config, d: Config, m: Machine, n: Machine)
    requires c.callsLeft <= 0 && d == c.(completedForm := d.completedForm) && Quiet(m) == Quiet(n)
    ensures Quiet(Run(c, m)) == Quiet(Run(d, n))
    decreases HopsLeft(c, m), |m.queue|
  {
    hide Handle, Run;
    if Active(m) {
      RunStep(c, m);
      RunStep(d, n);
      HandleIgnoresForm(c, d, m.(queue := m.queue[1..]), n.(queue := n.queue[1..]), m.queue[0]);
      RunIgnoresForm(c, d, Step(c, m), Step(d, n));
    } else {
      RunEnd(c, m);
      RunEnd(d, n);
    }
  }

  // ---------------------------------------------------------------- how a run can end

  /** A survey session that the executor has just opened. */
  ghost predicate FreshSurvey(c: Config, s: SurveySessions.Started)
  {
    exists survey: Survey, nodeId: Option<Id>, index: nat ::
      FindSurvey(c.bundle.surveys, survey.id) == Some(survey) && survey.questions != [] && index < LongestList(c.bundle)
      && (nodeId.Some? ==> IsNodeId(c.bundle.nodes, nodeId.value))
      && survey.id !in c.completedIds
      && s == SurveySessions.Start(survey, nodeId, index, c.now)
  }

  ghost predicate IsNodeId(nodes: seq<Node>, id: Id) { exists i :: 0 <= i < |nodes| && nodes[i].id == id }

  /** Items that belong to a node of the bundle. */
  ghost predicate Belongs(b: Bundle, item: Item) { item.index < LongestList(b) && IsNodeId(b.nodes, item.nodeId) }

  function Longest(nodes: seq<Node>): (r: nat)
    ensures forall n :: n in nodes ==> |n.outputs| <= r
  {
    if nodes == [] then 0 else Max(|nodes[0].outputs|, Longest(nodes[1..]))
  }

  function LongestList(b: Bundle): nat { Longest(b.nodes) }

  ghost predicate FreshForm(c: Config, f: FormSession)
  {
    exists form: Form :: FindForm(c.bundle.contexts, form.id) == Some(form) && f == ContextForms.Start(form, c.now)
  }

  ghost predicate Wellbehaved(c: Config, m: Machine)
  {
    && AllDisplayable(m.out)
    && (forall i :: 0 <= i < |m.queue| ==> Belongs(c.bundle, m.queue[i]))
    && (!m.halted ==> m.form.None? && m.started.None? && m.suspended.None? && !m.hopLimitHit)
    && (m.form.Some? ==> m.started.None? && m.suspended.None? && FreshForm(c, m.form.value))
    && (m.started.Some? ==> m.suspended.None? && FreshSurvey(c, m.started.value))
    && (m.suspended.Some? ==> c.callsLeft >= 1)
  }

  lemma ItemsAreShort(c: Config, n: Node)
    requires n in c.bundle.nodes
    ensures forall i :: 0 <= i < |n.outputs| ==> Belongs(c.bundle, Items(n.outputs, n.id)[i])
  {
  }

  lemma HandleBehaves(c: Config, m: Machine, item: Item)
    requires Wellbehaved(c, m) && !m.halted && Belongs(c.bundle, item)
    ensures Wellbehaved(c, Handle(c, m, item))
  {
    hide FormRunning, Unavailable, BindRequest, BindWorkflow, Rendered, Belongs, Items;
    hide ContextForms.Start, ContextForms.Prompt, FindEnabled, FindForm, FindSurvey, SurveySessions.Start;
    match item.output
    case ContextForm(id) =>
      var form := FindForm(c.bundle.contexts, id);
      if form.Some? {
        assert FreshForm(c, ContextForms.Start(form.value, c.now));
      }
    case DialogMove(id) =>
      var target := FindEnabled(c.bundle.nodes, id);
      if target.Some? {
        ItemsAreShort(c, target.value);
      }
    case SurveyV2(surveyId, _) =>
      var survey := FindSurvey(c.bundle.surveys, surveyId);
      if Unavailable(survey, c.now, c.completedIds, c.preview).None? {
        OpensFresh(c, m, item, surveyId);
      }
    case ApiV2(p) =>
      if p.failureNodeId.Some? {
        var target := FindEnabled(c.bundle.nodes, p.failureNodeId.value);
        if target.Some? {
          ItemsAreShort(c, target.value);
        }
      }
    case _ =>
  }

  lemma OpensFresh(c: Config, m: Machine, item: Item, surveyId: Id)
    requires Belongs(c.bundle, item)
    requires Unavailable(FindSurvey(c.bundle.surveys, surveyId), c.now, c.completedIds, c.preview).None?
    ensures OpenSurvey(c, m, item, surveyId).started.Some? && FreshSurvey(c, OpenSurvey(c, m, item, surveyId).started.value)
    ensures AllDisplayable(m.out) ==> AllDisplayable(OpenSurvey(c, m, item, surveyId).out)
  {
    hide SurveySessions.Start, QuestionOutputs, FindSurvey;
    var survey := FindSurvey(c.bundle.surveys, surveyId).value;
    var nodeId := if item.nodeId == [] then None else Some(item.nodeId);
    assert OpenSurvey(c, m, item, surveyId).started == Some(SurveySessions.Start(survey, nodeId, item.index, c.now));
    assert AllDisplayable(SurveySessions.Start(survey, nodeId, item.index, c.now).outputs) by {
      StartDisplayable(survey, nodeId, item.index, c.now);
    }
  }

  lemma StartDisplayable(survey: Survey, nodeId: Option<Id>, index: nat, now: Time)
    requires survey.questions != []
    ensures AllDisplayable(SurveySessions.Start(survey, nodeId, index, now).outputs)
    ensures SurveySessions.Start(survey, nodeId, index, now).outputs != []
  {
    hide QuestionOutputs;
  }

  lemma {:induction false} RunBehaves(c: Config, m: Machine)
    requires Wellbehaved(c, m)
    ensures Wellbehaved(c, Run(c, m))
    decreases HopsLeft(c, m), |m.queue|
  {
    hide Handle, Run, FreshForm, FreshSurvey, Belongs;
    if Active(m) {
      RunStep(c, m);
      HandleBehaves(c, m.(queue := m.queue[1..]), m.queue[0]);
      RunBehaves(c, Step(c, m));
    } else {
      RunEnd(c, m);
    }
  }

  /** Every reply of the executor: shown outputs only, never empty unless it waits for a call; at most one of a form,
      a survey and a call; and a call only when one was left. */
  lemma ExecutionBehaves(c: Config, n: Node, hops: nat)
    requires n in c.bundle.nodes
    ensures var r := Execute(c, n.outputs, n.id, hops);
            && AllDisplayable(r.outputs)
            && (r.suspended.None? ==> r.outputs != [])
            && (r.suspended.Some? ==> c.callsLeft >= 1 && r.form.None? && r.started.None?)
            && (r.form.Some? ==> r.started.None? && FreshForm(c, r.form.value))
            && (r.started.Some? ==> FreshSurvey(c, r.started.value))
  {
    hide Run, FreshForm, FreshSurvey, Belongs;
    ItemsAreShort(c, n);
    RunBehaves(c, Initial(n.outputs, n.id, hops));
  }

  // ---------------------------------------------------------------- how long a run can take

  /** Items the loop takes from its queue. */
  function Handled(c: Config, m: Machine): nat
    decreases HopsLeft(c, m), |m.queue|
  {
    if Active(m) then
      StepDescends(c, m);
      1 + Handled(c, Step(c, m))
    else 0
  }

  /** A step either shortens the queue or spends a hop on a list no longer than the longest. */
  lemma StepCost(c: Config, m: Machine)
    requires Active(m)
    ensures var n := Step(c, m);
            || (|n.queue| < |m.queue| && HopsLeft(c, n) <= HopsLeft(c, m))
            || (|n.queue| <= LongestList(c.bundle) && HopsLeft(c, n) + 1 == HopsLeft(c, m))
  {
    hide Handle, LongestList;
    var rest := m.(queue := m.queue[1..]);
    HandleCost(c, rest, m.queue[0]);
  }

  /** Handling an output never lengthens the queue unless it spends a hop. */
  ghost predicate Costs(c: Config, m: Machine, n: Machine)
  {
    || (|n.queue| <= |m.queue| && HopsLeft(c, n) <= HopsLeft(c, m))
    || (|n.queue| <= LongestList(c.bundle) && HopsLeft(c, n) + 1 == HopsLeft(c, m))
  }

  lemma HandleCost(c: Config, m: Machine, item: Item)
    ensures Costs(c, m, Handle(c, m, item))
  {
    hide Move, CallApi, OpenSurvey, OpenForm, LongestList, Rendered, BindWorkflow, FindForm, Costs;
    match item.output {
      case ContextForm(id) =>
        if FindForm(c.bundle.contexts, id).Some? {
          FormCost(c, m, FindForm(c.bundle.contexts, id).value);
        }
      case DialogMove(id) => MoveCost(c, m, id);
      case SurveyV2(id, _) => SurveyCost(c, m, item, id);
      case ApiV2(p) => CallCost(c, m, item, p);
      case _ =>
    }
    NoCost(c, m, Handle(c, m, item));
  }

  lemma NoCost(c: Config, m: Machine, n: Machine)
    ensures n.queue == m.queue && n.hops == m.hops ==> Costs(c, m, n)
  {
    hide LongestList;
  }

  lemma MoveCost(c: Config, m: Machine, id: Id)
    ensures Costs(c, m, Move(c, m, id))
  {
    hide FindEnabled, Longest;
  }

  lemma CallCost(c: Config, m: Machine, item: Item, p: ApiPayload)
    ensures Costs(c, m, CallApi(c, m, item, p))
  {
    hide FindEnabled, Longest, BindRequest;
  }

  lemma SurveyCost(c: Config, m: Machine, item: Item, id: Id)
    ensures Costs(c, m, OpenSurvey(c, m, item, id))
  {
    hide FindSurvey, LongestList, Unavailable, SwitchNotice, SurveySessions.Start;
  }

  lemma FormCost(c: Config, m: Machine, form: Form)
    ensures Costs(c, m, OpenForm(c, m, form))
  {
    hide LongestList, SwitchNotice, ContextForms.Start, ContextForms.Prompt;
  }

  lemma {:induction false} HandledBound(c: Config, m: Machine)
    ensures Handled(c, m) <= |m.queue| + HopsLeft(c, m) * LongestList(c.bundle)
    decreases HopsLeft(c, m), |m.queue|
  {
    hide Handled, Step, LongestList, HopsLeft;
    HandledStep(c, m);
    if Active(m) {
      StepDescends(c, m);
      StepCost(c, m);
      var n, l := Step(c, m), LongestList(c.bundle);
      HandledBound(c, n);
      if HopsLeft(c, n) + 1 == HopsLeft(c, m) {
        assert HopsLeft(c, m) * l == HopsLeft(c, n) * l + l;
      } else {
        MulMonotone(HopsLeft(c, n), HopsLeft(c, m), l);
      }
    }
  }

  lemma HandledStep(c: Config, m: Machine)
    ensures Handled(c, m) == if Active(m) then 1 + Handled(c, Step(c, m)) else 0
  {
    hide Step;
  }

  lemma MulMonotone(a: nat, b: nat, l: nat)
    requires a <= b
    ensures a * l <= b * l
  {
  }

  /** A node is run in at most (hops left + 1) times the longest output list. */
  lemma RunIsShort(c: Config, n: Node, hops: nat)
    requires n in c.bundle.nodes
    ensures Handled(c, Initial(n.outputs, n.id, hops)) <= (Max(c.hopLimit - hops, 0) + 1) * LongestList(c.bundle)
  {
    var m := Initial(n.outputs, n.id, hops);
    HandledBound(c, m);
    assert |m.queue| <= LongestList(c.bundle);
    assert (HopsLeft(c, m) + 1) * LongestList(c.bundle) == HopsLeft(c, m) * LongestList(c.bundle) + LongestList(c.bundle);
  }

  /** The same bound with hops left counted below 0 as well. */
  ghost predicate SignedBound(c: Config, n: Node, hops: nat)
  {
    Handled(c, Initial(n.outputs, n.id, hops)) <= (c.hopLimit - hops + 1) * LongestList(c.bundle)
  }

  /** It holds exactly when the node starts within the limit, or has nothing to handle and the bound is not negative. */
  lemma SignedBoundIff(c: Config, n: Node, hops: nat)
    requires n in c.bundle.nodes
    ensures SignedBound(c, n, hops) <==>
      hops <= c.hopLimit || (n.outputs == [] && (hops == c.hopLimit + 1 || LongestList(c.bundle) == 0))
  {
    hide Handled, LongestList, Step;
    var m, l := Initial(n.outputs, n.id, hops), LongestList(c.bundle);
    RunIsShort(c, n, hops);
    HandledStep(c, m);
    LongestListHolds(c.bundle, n);
    if hops > c.hopLimit {
      NotPositive(c.hopLimit - hops + 1, l);
    }
  }

  lemma LongestListHolds(b: Bundle, n: Node)
    requires n in b.nodes
    ensures |n.outputs| <= LongestList(b)
  {
  }

  lemma NotPositive(a: int, l: nat)
    requires a <= 0
    ensures a * l <= 0 && (a * l == 0 <==> a == 0 || l == 0)
  {
  }

  /** With hops left counted below 0 the bound fails: under a limit of 0 the node after a survey, which starts at hop 1,
      is still handled. */
  lemma NegativeHopsStillRun(c: Config, n: Node, text: string)
    requires c.hopLimit == 0 && n in c.bundle.nodes && n.outputs == [Text(text)]
    ensures !SignedBound(c, n, 1)
  {
    hide Handled, LongestList;
    SignedBoundIff(c, n, 1);
  }
}
