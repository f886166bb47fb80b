/** Suspending a turn at an external call and resuming it (packages/dialogue-engine/src/api-call.ts), together with the
    four places of resolver.ts that run a node and may suspend. */
module ApiCalls {
  import opened Prelude
  import opened Dialogue
  import opened OutputExecutor
  import opened ExecutorRuns
  import opened Readings
  import opened Envelopes
  import SurveySessions

  const API_NO_MATCH_NOTICE := "확인한 결과에 맞는 안내를 찾지 못했어요. 다른 방법으로 문의해 주세요."

  // ---------------------------------------------------------------- records

  /** What `resolveTurn` hands to the resolver about surveys. */
  datatype SurveyTurn = SurveyTurn(session: Option<SurveySession>, completedIds: seq<Id>, preview: bool)

  datatype SurveyOutcome = SurveyOutcome(next: Option<SurveySession>, completedIds: seq<Id>, events: seq<SurveyEvent>,
                                         consumed: bool)

  datatype SurveyCarry = SurveyCarry(completedIds: seq<Id>, preview: bool, eventsSoFar: seq<SurveyEvent>, consumed: bool,
                                     sessionFallback: Option<SurveySession>)

  datatype WorkflowCarry = WorkflowCarry(eventsSoFar: seq<Emission>, completedForm: Option<CompletedForm>)

  datatype Resume = Resume(carry: seq<Output>, unsupported: seq<OutputType>, hops: nat, hopLimit: int,
                           sessionFallback: Option<FormSession>, existing: Option<FormSession>,
                           survey: Option<SurveyCarry>, workflow: Option<WorkflowCarry>,
                           matchedNodeId: Option<Id>, matchedIntentId: Option<Id>)

  datatype ApiCall = ApiCall(suspension: Suspension, resume: Resume)

  datatype Resolution = Resolution(outputs: seq<Output>, nextSession: Option<FormSession>, pending: Option<PendingClarify>,
                                   unsupported: seq<OutputType>, survey: Option<SurveyOutcome>,
                                   workflow: Option<seq<Emission>>, apiCall: Option<ApiCall>,
                                   matchedNodeId: Option<Id>, matchedIntentId: Option<Id>, matchedFaqId: Option<Id>)

  datatype Branch = FailureBranch | ConditionBranch | DefaultBranch | NoticeBranch

  datatype TurnResult = TurnResult(outputs: seq<Output>, nextSession: Option<FormSession>, pending: Option<PendingClarify>,
                                   unsupported: seq<OutputType>, nextState: Envelope, discarded: seq<DiscardReason>,
                                   apiCall: Option<ApiCall>, apiBranch: Option<Branch>, surveyEvents: seq<SurveyEvent>,
                                   surveyTurn: bool, workflow: Option<seq<Emission>>, matchedNodeId: Option<Id>,
                                   matchedIntentId: Option<Id>, matchedFaqId: Option<Id>)

  // ---------------------------------------------------------------- running a node inside a turn

  /** The circumstances in which the resolver runs a node: what to say first, which sessions are at stake. */
  datatype Site = Site(carry: seq<Output>, override: Option<FormSession>, existing: Option<FormSession>,
                       surveyTurn: SurveyTurn, eventsSoFar: seq<SurveyEvent>, consumed: bool,
                       completedForm: Option<CompletedForm>, hopLimit: int, initialHops: nat,
                       matchedIntentId: Option<Id>)

  function SiteConfig(lib: Lib, b: Bundle, now: Time, s: Site): Config
  {
    Config(lib, b, now, s.hopLimit, 1, None, s.existing, s.completedForm, s.surveyTurn.completedIds, s.surveyTurn.preview)
  }

  /** `mergeSurveyOutcome`: nothing when no survey took part in the turn. */
  function MergeSurvey(events: seq<SurveyEvent>, t: SurveyTurn, started: Option<SurveySessions.Started>, consumed: bool): Option<SurveyOutcome>
  {
    if events == [] && started.None? && !consumed then None
    else Some(SurveyOutcome(if started.Some? then Some(started.value.session) else None, t.completedIds,
                            events + if started.Some? then [started.value.event] else [], consumed))
  }

  predicate NodesHaveWorkflow(nodes: seq<Node>)
  {
    exists i, j :: 0 <= i < |nodes| && 0 <= j < |nodes[i].outputs| && nodes[i].outputs[j].Workflow?
  }

  /** `workflowCarry`: a record is carried over when something was emitted, or when a completed form could still feed a
      workflow output of the bundle. */
  function CarryWorkflow(emissions: seq<Emission>, form: Option<CompletedForm>, b: Bundle): Option<WorkflowCarry>
  {
    if emissions == [] && !(form.Some? && NodesHaveWorkflow(b.nodes)) then None
    else Some(WorkflowCarry(emissions, form))
  }

  /** The turn of a node that ran to its end. */
  function Conclude(s: Site, r: Result, nodeId: Id): Resolution
  {
    Resolution(s.carry + r.outputs, r.form.OrElse(s.override), None, r.unsupported,
               MergeSurvey(s.eventsSoFar, s.surveyTurn, r.started, s.consumed),
               if r.emissions == [] then None else Some(r.emissions), None, Some(nodeId), s.matchedIntentId, None)
  }

  /** `buildSuspendedResolution`. */
  function Suspend(s: Site, r: Result, b: Bundle, nodeId: Id): Resolution
    requires r.suspended.Some?
  {
    var survey := SurveyCarry(s.surveyTurn.completedIds, s.surveyTurn.preview, s.eventsSoFar, s.consumed, None);
    var resume := Resume(s.carry + r.outputs, r.unsupported, r.hops, s.hopLimit, s.override, s.existing, Some(survey),
                         CarryWorkflow(r.emissions, s.completedForm, b), Some(nodeId), s.matchedIntentId);
    Resolution([], None, None, [], None, None, Some(ApiCall(r.suspended.value, resume)), Some(nodeId), s.matchedIntentId, None)
  }

  function RunNode(lib: Lib, b: Bundle, now: Time, s: Site, n: Node): Resolution
  {
    var r := Execute(SiteConfig(lib, b, now, s), n.outputs, n.id, s.initialHops);
    if r.suspended.Some? then Suspend(s, r, b, n.id) else Conclude(s, r, n.id)
  }

  // ---------------------------------------------------------------- what running a node inside a turn comes to

  /** The surveys of a turn in which one took part: its events, and the session begun, if one was. */
  ghost predicate TakesPart(s: Site, started: Option<SurveySessions.Started>, outcome: Option<SurveyOutcome>)
  {
    if s.eventsSoFar == [] && started.None? && !s.consumed then outcome.None?
    else
      && outcome.Some? && outcome.value.completedIds == s.surveyTurn.completedIds && outcome.value.consumed == s.consumed
      && outcome.value.next == (if started.Some? then Some(started.value.session) else None)
      && outcome.value.events == s.eventsSoFar + if started.Some? then [started.value.event] else []
  }

  /** A run that came to its end: what was said before stays in front, and a form that it began comes before the one at stake. */
  ghost predicate RunEnds(s: Site, x: Result, nodeId: Id, r: Resolution)
  {
    && r.outputs == s.carry + x.outputs && r.unsupported == x.unsupported && r.pending.None? && r.apiCall.None?
    && r.nextSession == (if x.form.Some? then x.form else s.override) && TakesPart(s, x.started, r.survey)
    && r.workflow == (if x.emissions == [] then None else Some(x.emissions))
    && r.matchedNodeId == Some(nodeId) && r.matchedIntentId == s.matchedIntentId && r.matchedFaqId.None?
  }

  /** A run that waits for a call: nothing is said yet, and all that the turn will need is carried over the call. */
  ghost predicate RunWaits(s: Site, x: Result, b: Bundle, nodeId: Id, r: Resolution)
    requires x.suspended.Some?
  {
    && r.outputs == [] && r.unsupported == [] && r.nextSession.None? && r.pending.None? && r.survey.None? && r.workflow.None?
    && r.matchedNodeId == Some(nodeId) && r.matchedIntentId == s.matchedIntentId && r.matchedFaqId.None?
    && r.apiCall.Some? && r.apiCall.value.suspension == x.suspended.value
    && var c := r.apiCall.value.resume;
       && c.carry == s.carry + x.outputs && c.unsupported == x.unsupported && c.hops == x.hops && c.hopLimit == s.hopLimit
       && c.sessionFallback == s.override && c.existing == s.existing
       && c.survey == Some(SurveyCarry(s.surveyTurn.completedIds, s.surveyTurn.preview, s.eventsSoFar, s.consumed, None))
       && c.matchedNodeId == Some(nodeId) && c.matchedIntentId == s.matchedIntentId
       && if x.emissions == [] && (s.completedForm.None? || !exists n, o :: n in b.nodes && o in n.outputs && o.Workflow?)
          then c.workflow.None? else c.workflow == Some(WorkflowCarry(x.emissions, s.completedForm))
  }

  /** Node `n` is run in these circumstances: what is read off its outputs ends the turn or waits for a call. */
  ghost predicate NodeRuns(lib: Lib, b: Bundle, now: Time, s: Site, n: Node, r: Resolution)
  {
    var c := Config(lib, b, now, s.hopLimit, 1, None, s.existing, s.completedForm, s.surveyTurn.completedIds, s.surveyTurn.preview);
    var x := Replied(c, Read(c, n.outputs, n.id, 0, HopsToGo(c, s.initialHops)), s.initialHops);
    if x.suspended.Some? then RunWaits(s, x, b, n.id, r) else RunEnds(s, x, n.id, r)
  }

  lemma SomeWorkflow(nodes: seq<Node>)
    ensures NodesHaveWorkflow(nodes) <==> exists n, o :: n in nodes && o in n.outputs && o.Workflow?
  {
    if n, o :| n in nodes && o in n.outputs && o.Workflow? {
      var i :| 0 <= i < |nodes| && nodes[i] == n;
      var j :| 0 <= j < |nodes[i].outputs| && nodes[i].outputs[j] == o;
    }
    if i, j :| 0 <= i < |nodes| && 0 <= j < |nodes[i].outputs| && nodes[i].outputs[j].Workflow? {
      assert nodes[i] in nodes && nodes[i].outputs[j] in nodes[i].outputs;
    }
  }

  /** Running a node, in whatever circumstances. */
  lemma RunNodeRuns(lib: Lib, b: Bundle, now: Time, s: Site, n: Node)
    ensures NodeRuns(lib, b, now, s, n, RunNode(lib, b, now, s, n))
  {
    hide Execute, Read, Replied, HopsToGo, NodesHaveWorkflow;
    ExecuteReads(SiteConfig(lib, b, now, s), n.outputs, n.id, s.initialHops);
    SomeWorkflow(b.nodes);
  }

  // ---------------------------------------------------------------- the call's result

  datatype CallResult = NotExecuted | CallFailed(outcome: string) | CallSucceeded(json: Json)

  datatype Selected = Selected(branch: Branch, targetId: Option<Id>, vars: map<string, string>)

  predicate MappingMissing(lib: Lib, json: Json, ms: seq<Mapping>)
  {
    ms != [] && ((ms[0].required && lib.extract(json, ms[0]).Missing?) || MappingMissing(lib, json, ms[1..]))
  }

  function Variables(lib: Lib, json: Json, ms: seq<Mapping>): map<string, string>
  {
    if ms == [] then map[]
    else
      var before, m := Variables(lib, json, ms[..|ms| - 1]), ms[|ms| - 1];
      match lib.extract(json, m)
      case Missing => before
      case NonScalar => before[m.name := ""]
      case Scalar(text) => before[m.name := text]
  }

  /** The first condition that holds. */
  function FirstCase(lib: Lib, json: Json, cases: seq<ApiCase>, i: nat): (r: Option<nat>)
    requires i <= |cases|
    ensures r.Some? ==> i <= r.value < |cases| && lib.holds(json, cases[r.value])
    ensures r.Some? ==> forall j :: i <= j < r.value ==> !lib.holds(json, cases[j])
    ensures r.None? ==> forall j :: i <= j < |cases| ==> !lib.holds(json, cases[j])
    decreases |cases| - i
  {
    if i == |cases| then None else if lib.holds(json, cases[i]) then Some(i) else FirstCase(lib, json, cases, i + 1)
  }

  function Present(id: Option<Id>): Option<Id> { if id.Some? && id.value != [] then id else None }

  /** Which branch a result takes, where it leads and which variables it brings. */
  function Select(lib: Lib, p: ApiPayload, result: CallResult): Selected
  {
    if !result.CallSucceeded? || MappingMissing(lib, result.json, p.mappings) then
      Selected(FailureBranch, Present(p.failureNodeId), map[])
    else
      var vars := Variables(lib, result.json, p.mappings);
      var i := FirstCase(lib, result.json, p.conditions, 0);
      if i.Some? then Selected(ConditionBranch, Present(Some(p.conditions[i.value].nextNodeId)), vars)
      else Selected(DefaultBranch, Present(p.defaultNodeId), vars)
  }

  function Notice(branch: Branch): Output
  {
    Text(if branch == FailureBranch then API_FAILURE_NOTICE else API_NO_MATCH_NOTICE)
  }

  function ResumeConfig(lib: Lib, b: Bundle, now: Time, hopLimit: int, resume: Resume, vars: map<string, string>): Config
  {
    Config(lib, b, now, hopLimit, 0, Some(vars), resume.existing,
           if resume.workflow.Some? then resume.workflow.value.completedForm else None,
           if resume.survey.Some? then resume.survey.value.completedIds else [],
           resume.survey.Some? && resume.survey.value.preview)
  }

  /** What the selected branch contributes, and the branch reported. */
  function RunBranch(lib: Lib, b: Bundle, now: Time, hopLimit: int, resume: Resume, sel: Selected): (Result, Branch)
  {
    var target := if sel.targetId.Some? then FindEnabled(b.nodes, sel.targetId.value) else None;
    var nothing := Result([], [], None, None, resume.hops, None, [], [], false);
    if target.None? then (nothing.(outputs := [Notice(sel.branch)]), NoticeBranch)
    else if resume.hops + 1 > hopLimit then (nothing.(outputs := [Text(HOP_LIMIT_MESSAGE)], hopLimitHit := true), sel.branch)
    else (Execute(ResumeConfig(lib, b, now, hopLimit, resume, sel.vars), target.value.outputs, target.value.id, resume.hops + 1),
          sel.branch)
  }

  /** The final turn, from what was carried over and what the branch contributed. */
  function Join(resume: Resume, exec: Result, branch: Branch, discarded: seq<DiscardReason>): TurnResult
  {
    var session := exec.form.OrElse(resume.sessionFallback);
    var startedSession := if exec.started.Some? then Some(exec.started.value.session) else None;
    var survey := if resume.survey.Some? then startedSession.OrElse(resume.survey.value.sessionFallback) else None;
    var ids := if resume.survey.Some? then resume.survey.value.completedIds else [];
    var events := if resume.survey.Some?
                  then resume.survey.value.eventsSoFar + (if exec.started.Some? then [exec.started.value.event] else []) else [];
    TurnResult(resume.carry + exec.outputs, session, None, resume.unsupported + exec.unsupported,
               Envelope(session, None, survey, ids), discarded, None, Some(branch), events,
               resume.survey.Some? && resume.survey.value.consumed,
               if resume.workflow.Some? then Some(resume.workflow.value.eventsSoFar + exec.emissions) else None,
               resume.matchedNodeId, resume.matchedIntentId, None)
  }

  /** `resumeAfterApiCall`. `hopLimit` is the caller's option; without it the limit of the suspended turn applies. */
  function ResumeTurn(lib: Lib, b: Bundle, now: Time, call: ApiCall, result: CallResult, hopLimit: Option<int>,
                      discarded: seq<DiscardReason>): TurnResult
  {
    var run := RunBranch(lib, b, now, hopLimit.GetOr(call.resume.hopLimit), call.resume, Select(lib, call.suspension.payload, result));
    var joined := Join(call.resume, run.0, run.1, discarded);
    if result.NotExecuted? then joined.(apiBranch := None) else joined
  }

  // ---------------------------------------------------------------- where a result leads

  /** No answer came, or it lacks a value that is required. */
  ghost predicate Fails(lib: Lib, p: ApiPayload, result: CallResult)
  {
    !result.CallSucceeded? || exists i :: 0 <= i < |p.mappings| && p.mappings[i].required && lib.extract(result.json, p.mappings[i]).Missing?
  }

  ghost predicate FirstToHold(lib: Lib, json: Json, cases: seq<ApiCase>, k: int)
  {
    0 <= k < |cases| && lib.holds(json, cases[k]) && forall j :: 0 <= j < k ==> !lib.holds(json, cases[j])
  }

  /** Mapping number `i` gives this variable a value, and no later one does. */
  ghost predicate GivesLast(lib: Lib, json: Json, ms: seq<Mapping>, i: int, name: string)
  {
    && 0 <= i < |ms| && ms[i].name == name && !lib.extract(json, ms[i]).Missing?
    && forall j :: i < j < |ms| && ms[j].name == name ==> lib.extract(json, ms[j]).Missing?
  }

  function ValueOf(x: Extracted): string { if x.Scalar? then x.text else "" }

  ghost predicate Brings(lib: Lib, json: Json, ms: seq<Mapping>, vars: map<string, string>)
  {
    && (forall name :: name in vars ==> exists i :: GivesLast(lib, json, ms, i, name))
    && (forall i, name :: GivesLast(lib, json, ms, i, name) ==> name in vars && vars[name] == ValueOf(lib.extract(json, ms[i])))
  }

  /** The branch of a result, the node id it names and the variables it brings. */
  ghost predicate Leads(lib: Lib, p: ApiPayload, result: CallResult, branch: Branch, next: Option<Id>, vars: map<string, string>)
  {
    if Fails(lib, p, result) then branch == FailureBranch && next == p.failureNodeId && vars == map[]
    else
      && Brings(lib, result.json, p.mappings, vars)
      && if exists k :: FirstToHold(lib, result.json, p.conditions, k)
         then branch == ConditionBranch
              && exists k :: FirstToHold(lib, result.json, p.conditions, k) && next == Some(p.conditions[k].nextNodeId)
         else branch == DefaultBranch && next == p.defaultNodeId
  }

  /** The first enabled node with this id. */
  ghost predicate IsEnabledNode(nodes: seq<Node>, id: Id, n: Node)
  {
    exists i :: 0 <= i < |nodes| && nodes[i] == n && n.id == id && n.enabled
                && forall j :: 0 <= j < i ==> !(nodes[j].id == id && nodes[j].enabled)
  }

  ghost predicate RunsNext(b: Bundle, next: Option<Id>, n: Node)
  {
    next.Some? && next.value != [] && IsEnabledNode(b.nodes, next.value, n)
  }

  lemma {:induction false} EnabledIsFirst(nodes: seq<Node>, id: Id)
    ensures forall n :: IsEnabledNode(nodes, id, n) <==> FindEnabled(nodes, id) == Some(n)
  {
    if nodes != [] {
      var rest := nodes[1..];
      EnabledIsFirst(rest, id);
      if nodes[0].id == id && nodes[0].enabled {
        assert IsEnabledNode(nodes, id, nodes[0]);
      } else {
        forall n ensures IsEnabledNode(nodes, id, n) <==> IsEnabledNode(rest, id, n) {
          EnabledBehind(nodes, id, n);
        }
      }
    }
  }

  lemma EnabledBehind(nodes: seq<Node>, id: Id, n: Node)
    requires nodes != [] && !(nodes[0].id == id && nodes[0].enabled)
    ensures IsEnabledNode(nodes, id, n) <==> IsEnabledNode(nodes[1..], id, n)
  {
    var rest := nodes[1..];
    assert forall j :: 0 < j < |nodes| ==> nodes[j] == rest[j - 1];
    if IsEnabledNode(rest, id, n) {
      var i :| 0 <= i < |rest| && rest[i] == n && n.id == id && n.enabled && forall j :: 0 <= j < i ==> !(rest[j].id == id && rest[j].enabled);
      assert nodes[i + 1] == n;
    }
    if IsEnabledNode(nodes, id, n) {
      var i :| 0 <= i < |nodes| && nodes[i] == n && n.id == id && n.enabled && forall j :: 0 <= j < i ==> !(nodes[j].id == id && nodes[j].enabled);
      assert rest[i - 1] == n;
      assert forall j :: 0 <= j < i - 1 ==> rest[j] == nodes[j + 1];
    }
  }

  lemma {:induction false} RequiredMissing(lib: Lib, json: Json, ms: seq<Mapping>)
    ensures MappingMissing(lib, json, ms) <==> exists i :: 0 <= i < |ms| && ms[i].required && lib.extract(json, ms[i]).Missing?
  {
    if ms != [] {
      RequiredMissing(lib, json, ms[1..]);
      assert forall j :: 0 < j < |ms| ==> ms[j] == ms[1..][j - 1];
    }
  }

  /** One mapping more gives its own variable, if it gives one at all, and leaves the others to those before it. */
  lemma GivesOneMore(lib: Lib, json: Json, ms: seq<Mapping>, i: int, name: string)
    requires ms != []
    ensures var front, last := ms[..|ms| - 1], |ms| - 1;
      GivesLast(lib, json, ms, i, name) <==>
        if ms[last].name == name && !lib.extract(json, ms[last]).Missing? then i == last else GivesLast(lib, json, front, i, name)
  {
    var front, last := ms[..|ms| - 1], |ms| - 1;
    assert forall j :: 0 <= j < last ==> front[j] == ms[j];
  }

  lemma {:induction false} VariablesBring(lib: Lib, json: Json, ms: seq<Mapping>)
    ensures Brings(lib, json, ms, Variables(lib, json, ms))
  {
    if ms != [] {
      var front, last := ms[..|ms| - 1], |ms| - 1;
      var before, vars := Variables(lib, json, front), Variables(lib, json, ms);
      VariablesBring(lib, json, front);
      assert vars == if lib.extract(json, ms[last]).Missing? then before else before[ms[last].name := ValueOf(lib.extract(json, ms[last]))];
      hide GivesLast, Variables;
      forall i, name ensures GivesLast(lib, json, ms, i, name) ==> name in vars && vars[name] == ValueOf(lib.extract(json, ms[i])) {
        GivesOneMore(lib, json, ms, i, name);
        if GivesLast(lib, json, front, i, name) {
          GivesBefore(lib, json, ms, i, name);
        }
      }
      forall name | name in vars ensures exists i :: GivesLast(lib, json, ms, i, name) {
        GivesOneMore(lib, json, ms, last, name);
        if name in before {
          var i :| GivesLast(lib, json, front, i, name);
          GivesOneMore(lib, json, ms, i, name);
        }
      }
    }
  }

  lemma GivesBefore(lib: Lib, json: Json, ms: seq<Mapping>, i: int, name: string)
    requires ms != [] && GivesLast(lib, json, ms[..|ms| - 1], i, name)
    ensures 0 <= i < |ms| - 1 && ms[i] == ms[..|ms| - 1][i]
  {
  }

  /** The variables are determined by the answer. */
  lemma BroughtOnce(lib: Lib, json: Json, ms: seq<Mapping>, vars: map<string, string>)
    requires Brings(lib, json, ms, vars)
    ensures vars == Variables(lib, json, ms)
  {
    var own := Variables(lib, json, ms);
    VariablesBring(lib, json, ms);
    hide Variables, GivesLast;
    forall name ensures name in vars <==> name in own {
    }
    forall name | name in vars ensures vars[name] == own[name] {
      var i :| GivesLast(lib, json, ms, i, name);
    }
  }

  /** What is selected is where the result leads, and it leads nowhere else. */
  lemma SelectLeads(lib: Lib, p: ApiPayload, result: CallResult, branch: Branch, next: Option<Id>, vars: map<string, string>)
    ensures Leads(lib, p, result, branch, next, vars) ==> Select(lib, p, result) == Selected(branch, Present(next), vars)
  {
    hide Variables, MappingMissing, Brings;
    if Leads(lib, p, result, branch, next, vars) && result.CallSucceeded? {
      RequiredMissing(lib, result.json, p.mappings);
      if !Fails(lib, p, result) {
        BroughtOnce(lib, result.json, p.mappings, vars);
        var i := FirstCase(lib, result.json, p.conditions, 0);
        if i.Some? {
          assert FirstToHold(lib, result.json, p.conditions, i.value);
        }
      }
    }
  }

  lemma SomewhereLed(lib: Lib, p: ApiPayload, result: CallResult) returns (branch: Branch, next: Option<Id>, vars: map<string, string>)
    ensures Leads(lib, p, result, branch, next, vars)
  {
    hide Variables, MappingMissing, Brings;
    if Fails(lib, p, result) {
      return FailureBranch, p.failureNodeId, map[];
    }
    vars := Variables(lib, result.json, p.mappings);
    VariablesBring(lib, result.json, p.mappings);
    if k :| FirstToHold(lib, result.json, p.conditions, k) {
      branch, next := ConditionBranch, Some(p.conditions[k].nextNodeId);
    } else {
      branch, next := DefaultBranch, p.defaultNodeId;
    }
  }

  /** The result leads to node `n` with these variables. */
  ghost predicate LeadsTo(lib: Lib, b: Bundle, p: ApiPayload, result: CallResult, vars: map<string, string>, n: Node)
  {
    exists branch, next :: Leads(lib, p, result, branch, next, vars) && RunsNext(b, next, n)
  }

  lemma LedToSelected(lib: Lib, b: Bundle, p: ApiPayload, result: CallResult, vars: map<string, string>, n: Node)
    requires LeadsTo(lib, b, p, result, vars, n)
    ensures var sel := Select(lib, p, result);
      sel.vars == vars && sel.targetId.Some? && FindEnabled(b.nodes, sel.targetId.value) == Some(n)
  {
    hide Leads, Select, IsEnabledNode, FindEnabled;
    var branch, next :| Leads(lib, p, result, branch, next, vars) && RunsNext(b, next, n);
    SelectLeads(lib, p, result, branch, next, vars);
    EnabledIsFirst(b.nodes, next.value);
  }

  /** The outputs of the node, one hop further, with the variables put in; or the notice that this is one hop too many. */
  function Branched(lib: Lib, b: Bundle, now: Time, hopLimit: int, resume: Resume, vars: map<string, string>, n: Node): Result
  {
    if resume.hops + 1 > hopLimit then
      Result([Text(HOP_LIMIT_MESSAGE)], [], None, None, resume.hops, None, [], [], true)
    else
      var c := ResumeConfig(lib, b, now, hopLimit, resume, vars);
      Replied(c, Read(c, n.outputs, n.id, 0, hopLimit - resume.hops - 1), resume.hops + 1)
  }

  /** What a branch contributes when it leads to a node, and when it leads to none. */
  ghost predicate Contributes(lib: Lib, b: Bundle, now: Time, hopLimit: int, resume: Resume, branch: Branch, next: Option<Id>,
                              vars: map<string, string>, x: Result, reported: Branch)
  {
    if exists n :: RunsNext(b, next, n) then
      reported == branch && exists n :: RunsNext(b, next, n) && x == Branched(lib, b, now, hopLimit, resume, vars, n)
    else
      reported == NoticeBranch
      && x == Result([Text(if branch == FailureBranch then API_FAILURE_NOTICE else API_NO_MATCH_NOTICE)], [], None, None,
                     resume.hops, None, [], [], false)
  }

  /** What was carried over the call and what the branch contributes, put together: outputs, unsupported types, survey and
      workflow events one after another; a form or survey that the branch began, or else those that were kept for the case
      that it begins none. */
  ghost predicate Joins(resume: Resume, x: Result, branch: Option<Branch>, discarded: seq<DiscardReason>, r: TurnResult)
  {
    && r.outputs == resume.carry + x.outputs && r.unsupported == resume.unsupported + x.unsupported
    && r.nextSession == r.nextState.form == (if x.form.Some? then x.form else resume.sessionFallback)
    && r.pending.None? && r.nextState.pending.None? && r.apiCall.None? && r.apiBranch == branch && r.discarded == discarded
    && r.matchedNodeId == resume.matchedNodeId && r.matchedIntentId == resume.matchedIntentId && r.matchedFaqId.None?
    && (resume.survey.None? ==> r.nextState.survey.None? && r.nextState.completedIds == [] && r.surveyEvents == [] && !r.surveyTurn)
    && (resume.survey.Some? ==>
          var s := resume.survey.value;
          && r.nextState.survey == (if x.started.Some? then Some(x.started.value.session) else s.sessionFallback)
          && r.nextState.completedIds == s.completedIds && r.surveyTurn == s.consumed
          && r.surveyEvents == s.eventsSoFar + if x.started.Some? then [x.started.value.event] else [])
    && r.workflow == if resume.workflow.None? then None else Some(resume.workflow.value.eventsSoFar + x.emissions)
  }

  /** The final turn of a resumed call: the result leads somewhere, and what that contributes is joined to what was said. */
  ghost predicate Resumes(lib: Lib, b: Bundle, now: Time, call: ApiCall, result: CallResult, hopLimit: int,
                          discarded: seq<DiscardReason>, r: TurnResult)
  {
    exists branch, next, vars, x, reported ::
      && Leads(lib, call.suspension.payload, result, branch, next, vars)
      && Contributes(lib, b, now, hopLimit, call.resume, branch, next, vars, x, reported)
      && Joins(call.resume, x, if result.NotExecuted? then None else Some(reported), discarded, r)
  }

  lemma BranchContributes(lib: Lib, b: Bundle, now: Time, hopLimit: int, resume: Resume, branch: Branch, next: Option<Id>, vars: map<string, string>)
    requires branch != NoticeBranch
    ensures var run := RunBranch(lib, b, now, hopLimit, resume, Selected(branch, Present(next), vars));
      Contributes(lib, b, now, hopLimit, resume, branch, next, vars, run.0, run.1)
  {
    hide Execute, Replied, Read, IsEnabledNode;
    if next.Some? {
      EnabledIsFirst(b.nodes, next.value);
      var target := FindEnabled(b.nodes, next.value);
      if target.Some? && next.value != [] {
        assert RunsNext(b, next, target.value);
        ExecuteReads(ResumeConfig(lib, b, now, hopLimit, resume, vars), target.value.outputs, target.value.id, resume.hops + 1);
      }
    }
  }

  lemma TurnResumes(lib: Lib, b: Bundle, now: Time, call: ApiCall, result: CallResult, limit: Option<int>, discarded: seq<DiscardReason>)
    ensures Resumes(lib, b, now, call, result, limit.GetOr(call.resume.hopLimit), discarded,
                    ResumeTurn(lib, b, now, call, result, limit, discarded))
  {
    hide Leads, Select, RunBranch, Contributes, Join, Joins;
    var branch, next, vars := SomewhereLed(lib, call.suspension.payload, result);
    SelectLeads(lib, call.suspension.payload, result, branch, next, vars);
    LedToNoNotice(lib, call.suspension.payload, result, branch, next, vars);
    BranchContributes(lib, b, now, limit.GetOr(call.resume.hopLimit), call.resume, branch, next, vars);
    var run := RunBranch(lib, b, now, limit.GetOr(call.resume.hopLimit), call.resume, Select(lib, call.suspension.payload, result));
    JoinJoins(call.resume, run.0, run.1, discarded);
  }

  lemma JoinJoins(resume: Resume, x: Result, branch: Branch, discarded: seq<DiscardReason>)
    ensures Joins(resume, x, Some(branch), discarded, Join(resume, x, branch, discarded))
    ensures Joins(resume, x, None, discarded, Join(resume, x, branch, discarded).(apiBranch := None))
  {
  }

  lemma LedToNoNotice(lib: Lib, p: ApiPayload, result: CallResult, branch: Branch, next: Option<Id>, vars: map<string, string>)
    requires Leads(lib, p, result, branch, next, vars)
    ensures branch != NoticeBranch
  {
    hide Brings;
  }

  // ---------------------------------------------------------------- as it runs

  /** The condition loop of `evaluateApiConditions`. */
  method EvaluateConditions(lib: Lib, json: Json, cases: seq<ApiCase>) returns (r: Option<nat>)
    ensures r == FirstCase(lib, json, cases, 0)
  {
    for i := 0 to |cases|
      invariant FirstCase(lib, json, cases, 0) == FirstCase(lib, json, cases, i)
    {
      if lib.holds(json, cases[i]) {
        return Some(i);
      }
    }
    return None;
  }

  /** The mapping loop of `buildApiVariables`. */
  method BuildVariables(lib: Lib, json: Json, ms: seq<Mapping>) returns (vars: map<string, string>, missing: bool)
    ensures vars == Variables(lib, json, ms) && missing == MappingMissing(lib, json, ms)
  {
    vars, missing := map[], false;
    for i := 0 to |ms|
      invariant vars == Variables(lib, json, ms[..i])
      invariant MappingMissing(lib, json, ms) == (missing || MappingMissing(lib, json, ms[i..]))
    {
      assert ms[..i + 1][..i] == ms[..i] && ms[i..][1..] == ms[i + 1..];
      match lib.extract(json, ms[i])
      case Missing =>
        if ms[i].required {
          missing := true;
        }
      case NonScalar => vars := vars[ms[i].name := ""];
      case Scalar(text) => vars := vars[ms[i].name := text];
    }
    assert ms[..|ms|] == ms;
  }

  /** `resumeAfterApiCall` with its reassigned branch, target and results. */
  method ResumeAfterApiCall(lib: Lib, b: Bundle, now: Time, call: ApiCall, result: CallResult, limit: Option<int>,
                            discarded: seq<DiscardReason>)
    returns (r: TurnResult)
    ensures r == ResumeTurn(lib, b, now, call, result, limit, discarded)
    ensures Resumes(lib, b, now, call, result, limit.GetOr(call.resume.hopLimit), discarded, r)
  {
    hide Resumes, Replied, Read;
    TurnResumes(lib, b, now, call, result, limit, discarded);
    hide Execute, FirstCase, Variables, MappingMissing, FindEnabled;
    var p, resume := call.suspension.payload, call.resume;
    var hopLimit := limit.GetOr(resume.hopLimit);
    var branch := FailureBranch;
    var vars: map<string, string> := map[];
    var targetId: Option<Id> := None;
    if result.CallSucceeded? {
      var mapped, missing := BuildVariables(lib, result.json, p.mappings);
      if !missing {
        vars := mapped;
        var i := EvaluateConditions(lib, result.json, p.conditions);
        if i.Some? {
          branch, targetId := ConditionBranch, Present(Some(p.conditions[i.value].nextNodeId));
        } else {
          branch, targetId := DefaultBranch, Present(p.defaultNodeId);
        }
      }
    }
    if branch == FailureBranch {
      targetId := Present(p.failureNodeId);
    }
    assert Selected(branch, targetId, vars) == Select(lib, p, result);
    var exec := Result([], [], None, None, resume.hops, None, [], [], false);
    var reported := branch;
    var target := if targetId.Some? then FindEnabled(b.nodes, targetId.value) else None;
    if target.None? {
      reported := NoticeBranch;
      exec := exec.(outputs := [Notice(branch)]);
    } else if resume.hops + 1 > hopLimit {
      exec := exec.(outputs := [Text(HOP_LIMIT_MESSAGE)], hopLimitHit := true);
    } else {
      exec := ExecuteOutputs(ResumeConfig(lib, b, now, hopLimit, resume, vars), target.value.outputs, target.value.id, resume.hops + 1);
    }
    r := Join(resume, exec, reported, discarded);
    if result.NotExecuted? {
      r := r.(apiBranch := None);
    }
  }
}
