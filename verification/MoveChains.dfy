/** What the cycle check says about the executor: when a node can and cannot run into the hop limit. */
module MoveChains {
  import opened Prelude
  import opened Dialogue
  import opened OutputExecutor
  import opened MoveCycles
  import Matching
  import SurveyAnswers

  lemma {:induction false} UniqueById(nodes: seq<Node>, n: Node)
    requires UniqueIds(nodes) && n in nodes
    ensures n.id in Matching.ById(nodes) && Matching.ById(nodes)[n.id] == n
  {
    var front, last := nodes[..|nodes| - 1], nodes[|nodes| - 1];
    if n != last {
      assert n in front;
      UniqueById(front, n);
      assert last.id != n.id;
    }
  }

  lemma {:induction false} ByIdSize(nodes: seq<Node>)
    ensures |Matching.ById(nodes)| <= |nodes|
  {
    if nodes != [] {
      ByIdSize(nodes[..|nodes| - 1]);
    }
  }

  /** A node run from the start of a turn: no hop spent, one call left. */
  function StartConfig(c: Config, hopLimit: int): Config
  {
    c.(hopLimit := hopLimit, callsLeft := 1)
  }

  // ---------------------------------------------------------------- the hop limit only ever cuts a run short

  /** While a call is left, only moves spend hops. */
  lemma HandleHops(c: Config, m: Machine, item: Item)
    requires c.callsLeft >= 1 && !m.halted && !m.hopLimitHit
    ensures var n := Handle(c, m, item);
            && m.hops <= n.hops <= m.hops + 1
            && (n.hops > m.hops ==> item.output.DialogMove?)
            && (n.hopLimitHit <==> item.output.DialogMove? && m.hops + 1 > c.hopLimit)
            && (n.hopLimitHit ==> n.halted)
  {
    hide Rendered, BindWorkflow, BindRequest, SurveyAnswers.Unavailable, FormRunning, SwitchNotice, FindEnabled, Items,
         FindForm, FindSurvey;
  }

  /** A limit that is not reached makes no difference. */
  lemma HandleSame(c: Config, d: Config, m: Machine, item: Item)
    requires d == c.(hopLimit := d.hopLimit) && c.callsLeft >= 1 && !m.halted
    requires (m.hops + 1 <= c.hopLimit && m.hops + 1 <= d.hopLimit) || !item.output.DialogMove?
    ensures Handle(c, m, item) == Handle(d, m, item)
  {
    hide Rendered, BindWorkflow, BindRequest, SurveyAnswers.Unavailable, Items, FindEnabled, FindForm, FindSurvey;
  }

  lemma {:induction false} HopsGrow(c: Config, m: Machine)
    requires c.callsLeft >= 1 && (m.halted || !m.hopLimitHit)
    ensures Run(c, m).hops >= m.hops
    decreases HopsLeft(c, m), |m.queue|
  {
    hide Handle, Run;
    if Active(m) {
      RunStep(c, m);
      HandleHops(c, m.(queue := m.queue[1..]), m.queue[0]);
      HopsGrow(c, Step(c, m));
    } else {
      RunEnd(c, m);
    }
  }

  /** Of two limits, the smaller one is hit exactly when the run under the larger one spends more hops than it. */
  lemma {:induction false} LimitCuts(c: Config, low: int, high: int, m: Machine)
    requires low <= high && c.callsLeft >= 1 && m.hops <= low && !m.halted && !m.hopLimitHit
    requires !Run(c.(hopLimit := high), m).hopLimitHit
    ensures Run(c.(hopLimit := low), m).hopLimitHit <==> Run(c.(hopLimit := high), m).hops > low
    decreases HopsLeft(c.(hopLimit := low), m), |m.queue|
  {
    hide Handle, Run;
    var d, e := c.(hopLimit := low), c.(hopLimit := high);
    if Active(m) {
      var rest, item := m.(queue := m.queue[1..]), m.queue[0];
      RunStep(d, m);
      RunStep(e, m);
      HandleHops(d, rest, item);
      HandleHops(e, rest, item);
      if c.lib.valid(item.output) && item.output.DialogMove? && m.hops + 1 > low {
        RunEnd(d, Step(d, m));
        if m.hops + 1 > high {
          RunEnd(e, Step(e, m));
        } else {
          MoveSpends(e, rest, item);
          HopsGrow(e, Step(e, m));
        }
      } else {
        if c.lib.valid(item.output) {
          HandleSame(d, e, rest, item);
        }
        if Active(Step(d, m)) {
          LimitCuts(c, low, high, Step(d, m));
        } else {
          RunEnd(d, Step(d, m));
          RunEnd(e, Step(e, m));
        }
      }
    } else {
      RunEnd(d, m);
      RunEnd(e, m);
    }
  }

  lemma MoveSpends(c: Config, m: Machine, item: Item)
    requires item.output.DialogMove?
    ensures Handle(c, m, item).hops == m.hops + 1
  {
    hide FindEnabled, Items;
  }

  // ---------------------------------------------------------------- the moves a list of outputs sets off

  /** An output after which nothing more is handled: a form, a survey that can be taken, or an external call. */
  predicate Stops(c: Config, o: Output)
  {
    || (o.ContextForm? && FindForm(c.bundle.contexts, o.contextVariableId).Some?)
    || (o.SurveyV2? && SurveyAnswers.Unavailable(FindSurvey(c.bundle.surveys, o.surveyId), c.now, c.completedIds, c.preview).None?)
    || o.ApiV2?
  }

  /** The moves that a list of outputs sets off, read off the bundle: outputs that do not parse are passed over, the list
      ends at one that stops, a move to a missing or disabled node counts and the list goes on, and any other move counts
      and leads to the list of its target. At most `depth` targets are entered. */
  function ChainMoves(c: Config, outputs: seq<Output>, depth: nat): nat
    decreases depth, |outputs|
  {
    if outputs == [] then 0
    else
      var o := outputs[0];
      if c.lib.valid(o) && Stops(c, o) then 0
      else if c.lib.valid(o) && o.DialogMove? && FindEnabled(c.bundle.nodes, o.targetNodeId).Some? then
        1 + if depth == 0 then 0 else ChainMoves(c, FindEnabled(c.bundle.nodes, o.targetNodeId).value.outputs, depth - 1)
      else (if c.lib.valid(o) && o.DialogMove? then 1 else 0) + ChainMoves(c, outputs[1..], depth)
  }

  lemma OthersKeepQueue(c: Config, m: Machine, item: Item)
    requires !item.output.DialogMove? && c.callsLeft >= 1 && !m.halted && !m.hopLimitHit
    ensures var n := Handle(c, m, item);
            n.hops == m.hops && !n.hopLimitHit && if Stops(c, item.output) then n.halted else !n.halted && n.queue == m.queue
  {
    hide Rendered, BindWorkflow, BindRequest, SurveyAnswers.Unavailable, FormRunning, SwitchNotice, FindForm, FindSurvey;
  }

  lemma MoveLands(c: Config, m: Machine, item: Item)
    requires item.output.DialogMove? && !m.halted && !m.hopLimitHit
    ensures var n, target := Handle(c, m, item), FindEnabled(c.bundle.nodes, item.output.targetNodeId);
            && n.hops == m.hops + 1 && (n.hopLimitHit <==> m.hops + 1 > c.hopLimit) && (n.halted <==> n.hopLimitHit)
            && (!n.halted ==> n.queue == if target.Some? then Items(target.value.outputs, target.value.id) else m.queue)
  {
    hide FindEnabled, Items;
  }

  lemma ChainStep(c: Config, outputs: seq<Output>, depth: nat)
    requires outputs != []
    ensures var o, rest := outputs[0], ChainMoves(c, outputs[1..], depth);
      && (!c.lib.valid(o) ==> ChainMoves(c, outputs, depth) == rest)
      && (c.lib.valid(o) && !o.DialogMove? ==> ChainMoves(c, outputs, depth) == if Stops(c, o) then 0 else rest)
      && (c.lib.valid(o) && o.DialogMove? ==>
            var target := FindEnabled(c.bundle.nodes, o.targetNodeId);
            ChainMoves(c, outputs, depth)
            == 1 + if target.None? then rest else if depth == 0 then 0 else ChainMoves(c, target.value.outputs, depth - 1))
  {
    hide FindEnabled, FindForm, FindSurvey, SurveyAnswers.Unavailable;
  }

  /** From any point of a run, the limit is hit exactly when the moves still to come outnumber the hops left. */
  lemma {:induction false} ChainHits(c: Config, d: Config, m: Machine, outputs: seq<Output>, depth: nat)
    requires d == c.(hopLimit := d.hopLimit, callsLeft := d.callsLeft) && d.callsLeft >= 1
    requires Holds(m.queue, outputs) && !m.halted && !m.hopLimitHit && m.hops <= d.hopLimit <= m.hops + depth
    ensures Run(d, m).hopLimitHit <==> m.hops + ChainMoves(c, outputs, depth) > d.hopLimit
    decreases HopsLeft(d, m), |m.queue|
  {
    hide Run, Handle, ChainMoves, FindEnabled, Stops;
    if outputs == [] {
      RunEnd(d, m);
      NoMoves(c, depth);
    } else {
      var item, rest := m.queue[0], m.(queue := m.queue[1..]);
      RunStep(d, m);
      ChainStep(c, outputs, depth);
      if !c.lib.valid(item.output) {
        ChainHits(c, d, Step(d, m), outputs[1..], depth);
      } else if !item.output.DialogMove? {
        OthersKeepQueue(d, rest, item);
        SameStops(c, d, item.output);
        if Stops(c, item.output) {
          RunEnd(d, Step(d, m));
        } else {
          ChainHits(c, d, Step(d, m), outputs[1..], depth);
        }
      } else {
        MoveLands(d, rest, item);
        var target := FindEnabled(c.bundle.nodes, item.output.targetNodeId);
        if m.hops + 1 > d.hopLimit {
          RunEnd(d, Step(d, m));
        } else if target.None? {
          ChainHits(c, d, Step(d, m), outputs[1..], depth);
        } else {
          ChainHits(c, d, Step(d, m), target.value.outputs, depth - 1);
        }
      }
    }
  }

  lemma NoMoves(c: Config, depth: nat)
    ensures ChainMoves(c, [], depth) == 0
  {
  }

  lemma SameStops(c: Config, d: Config, o: Output)
    requires d == c.(hopLimit := d.hopLimit, callsLeft := d.callsLeft)
    ensures Stops(d, o) == Stops(c, o)
  {
    hide FindForm, FindSurvey, SurveyAnswers.Unavailable;
  }

  // ---------------------------------------------------------------- chains in a bundle without move cycles

  function Ids(trail: seq<Node>): (r: seq<Id>)
    ensures |r| == |trail| && forall i :: 0 <= i < |trail| ==> r[i] == trail[i].id
  {
    seq(|trail|, i requires 0 <= i < |trail| => trail[i].id)
  }

  /** An enabled target extends the walk. */
  lemma WalkExtends(b: Bundle, trail: seq<Node>, k: nat, target: Node)
    requires UniqueIds(b.nodes) && trail != [] && (forall i :: 0 <= i < |trail| ==> trail[i] in b.nodes)
    requires Walk(Matching.ById(b.nodes), Ids(trail)) && k < |trail[|trail| - 1].outputs|
    requires trail[|trail| - 1].outputs[k] == DialogMove(target.id) && target in b.nodes
    ensures Walk(Matching.ById(b.nodes), Ids(trail + [target]))
  {
    var last := trail[|trail| - 1];
    var p := Ids(trail + [target]);
    UniqueById(b.nodes, last);
    UniqueById(b.nodes, target);
    forall i | 0 <= i < |p| - 1 ensures Edge(Matching.ById(b.nodes), p[i], p[i + 1]) {
      if i < |trail| - 1 {
        assert p[i] == Ids(trail)[i] && p[i + 1] == Ids(trail)[i + 1];
      } else {
        assert DialogMove(target.id) in last.outputs;
      }
    }
    forall i | 0 <= i < |p| ensures p[i] in Matching.ById(b.nodes) {
      if i < |trail| {
        assert p[i] == Ids(trail)[i];
      }
    }
  }

  /** No node refers to a missing or disabled node. */
  ghost predicate NoBrokenMove(b: Bundle)
  {
    forall n, t :: n in b.nodes && DialogMove(t) in n.outputs ==> FindEnabled(b.nodes, t).Some?
  }

  lemma TrailIsShort(b: Bundle, trail: seq<Node>)
    requires !HasCycle(Matching.ById(b.nodes)) && Walk(Matching.ById(b.nodes), Ids(trail))
    ensures |trail| <= |b.nodes|
  {
    AcyclicWalkIsShort(Matching.ById(b.nodes), Ids(trail));
    ByIdSize(b.nodes);
  }

  ghost predicate IsTrail(b: Bundle, trail: seq<Node>)
  {
    trail != [] && (forall i :: 0 <= i < |trail| ==> trail[i] in b.nodes) && Walk(Matching.ById(b.nodes), Ids(trail))
  }

  lemma TrailGoesOn(b: Bundle, trail: seq<Node>, k: nat)
    requires UniqueIds(b.nodes) && !HasCycle(Matching.ById(b.nodes)) && IsTrail(b, trail) && k < |trail[|trail| - 1].outputs|
    requires var o := trail[|trail| - 1].outputs[k]; o.DialogMove? && FindEnabled(b.nodes, o.targetNodeId).Some?
    ensures var target := FindEnabled(b.nodes, trail[|trail| - 1].outputs[k].targetNodeId).value;
            IsTrail(b, trail + [target]) && |trail| + 1 <= |b.nodes|
  {
    hide Walk, HasCycle, UniqueIds, Ids;
    var target := FindEnabled(b.nodes, trail[|trail| - 1].outputs[k].targetNodeId).value;
    WalkExtends(b, trail, k, target);
    TrailIsShort(b, trail + [target]);
  }

  /** Without cycles a chain enters no more targets than there are nodes left, so more depth changes nothing; and without
      broken moves every move enters one. */
  lemma {:induction false} ChainEnds(c: Config, trail: seq<Node>, k: nat, depth: nat, more: nat)
    requires UniqueIds(c.bundle.nodes) && !HasCycle(Matching.ById(c.bundle.nodes)) && IsTrail(c.bundle, trail)
    requires k <= |trail[|trail| - 1].outputs| && |c.bundle.nodes| <= |trail| + depth && depth <= more
    ensures ChainMoves(c, trail[|trail| - 1].outputs[k..], depth) == ChainMoves(c, trail[|trail| - 1].outputs[k..], more)
    ensures NoBrokenMove(c.bundle) && |trail| <= |c.bundle.nodes| ==>
      |trail| + ChainMoves(c, trail[|trail| - 1].outputs[k..], depth) <= |c.bundle.nodes|
    decreases depth, |trail[|trail| - 1].outputs| - k
  {
    hide ChainMoves, IsTrail, FindEnabled, Stops, HasCycle, UniqueIds, NoBrokenMove;
    assert IsTrail(c.bundle, trail);
    var last := LastOf(c.bundle, trail);
    var outputs := last.outputs[k..];
    if outputs == [] {
      NoMoves(c, depth);
      NoMoves(c, more);
    } else {
      ChainStep(c, outputs, depth);
      ChainStep(c, outputs, more);
      assert outputs[0] == last.outputs[k] && outputs[1..] == last.outputs[k + 1..];
      var o := outputs[0];
      if c.lib.valid(o) && o.DialogMove? && FindEnabled(c.bundle.nodes, o.targetNodeId).Some? {
        var target := FindEnabled(c.bundle.nodes, o.targetNodeId).value;
        TrailGoesOn(c.bundle, trail, k);
        ChainEnds(c, trail + [target], 0, depth - 1, more - 1);
        assert target.outputs[0..] == target.outputs;
      } else {
        ChainEnds(c, trail, k + 1, depth, more);
        if o.DialogMove? && FindEnabled(c.bundle.nodes, o.targetNodeId).None? {
          BrokenMove(c.bundle, last, k);
        }
      }
    }
  }

  lemma LastOf(b: Bundle, trail: seq<Node>) returns (last: Node)
    requires IsTrail(b, trail)
    ensures trail != [] && last == trail[|trail| - 1] && last in b.nodes
  {
    last := trail[|trail| - 1];
  }

  lemma BrokenMove(b: Bundle, n: Node, k: nat)
    requires n in b.nodes && k < |n.outputs| && n.outputs[k].DialogMove? && FindEnabled(b.nodes, n.outputs[k].targetNodeId).None?
    ensures !NoBrokenMove(b)
  {
    assert DialogMove(n.outputs[k].targetNodeId) in n.outputs;
  }

  // ---------------------------------------------------------------- the cycle check and the hop limit

  /** The moves that running a node sets off: the chain is followed through as many targets as there are nodes. */
  function MovesFrom(c: Config, n: Node): nat { ChainMoves(c, n.outputs, |c.bundle.nodes|) }

  /** In any bundle, cyclic or not, running a node hits the hop limit exactly when the chain of its moves, followed through
      as many targets as the limit allows, is longer than the limit. */
  lemma HitsLimitWithin(c: Config, n: Node, hopLimit: nat, depth: nat)
    requires depth >= hopLimit
    ensures Execute(StartConfig(c, hopLimit), n.outputs, n.id, 0).hopLimitHit <==> ChainMoves(c, n.outputs, depth) > hopLimit
  {
    hide Run, ChainMoves;
    var m := Initial(n.outputs, n.id, 0);
    ChainHits(c, StartConfig(c, hopLimit), m, n.outputs, depth);
  }

  /** A run that stays within the limit spends exactly the hops counted in the bundle: a smaller limit would be hit by the
      one exactly when by the other. */
  lemma HopsAreMoves(c: Config, n: Node, hopLimit: nat, depth: nat)
    requires depth >= hopLimit && !Execute(StartConfig(c, hopLimit), n.outputs, n.id, 0).hopLimitHit
    ensures Execute(StartConfig(c, hopLimit), n.outputs, n.id, 0).hops == ChainMoves(c, n.outputs, depth)
  {
    hide Run, ChainMoves;
    var spent, counted := Execute(StartConfig(c, hopLimit), n.outputs, n.id, 0).hops, ChainMoves(c, n.outputs, depth);
    HitsLimitWithin(c, n, hopLimit, depth);
    if spent != counted {
      var low := if spent < counted then spent else counted;
      assert low <= counted <= hopLimit;
      HitsLimitWithin(c, n, low, depth);
      LimitCuts(StartConfig(c, 0), low, hopLimit, Initial(n.outputs, n.id, 0));
    }
  }

  lemma StartsTrail(b: Bundle, n: Node)
    requires UniqueIds(b.nodes) && n in b.nodes
    ensures IsTrail(b, [n]) && b.nodes != []
  {
    UniqueById(b.nodes, n);
  }

  /** In a bundle without move cycles, running a node hits the hop limit exactly when it sets off more moves than that. */
  lemma HitsLimitIff(c: Config, n: Node, hopLimit: nat)
    requires UniqueIds(c.bundle.nodes) && !HasCycle(Matching.ById(c.bundle.nodes)) && n in c.bundle.nodes
    ensures Execute(StartConfig(c, hopLimit), n.outputs, n.id, 0).hopLimitHit <==> MovesFrom(c, n) > hopLimit
  {
    hide Run, ChainMoves, IsTrail, HasCycle, UniqueIds, Execute;
    var size := |c.bundle.nodes|;
    var deep := if size < hopLimit then hopLimit else size;
    StartsTrail(c.bundle, n);
    HitsLimitWithin(c, n, hopLimit, deep);
    assert n.outputs[0..] == n.outputs;
    ChainEnds(c, [n], 0, size, deep);
  }

  /** When no move is broken either, a limit of the number of nodes is always enough. */
  lemma CheckedBundleNeverHits(c: Config, n: Node, hopLimit: nat)
    requires UniqueIds(c.bundle.nodes) && !HasCycle(Matching.ById(c.bundle.nodes)) && n in c.bundle.nodes
    requires NoBrokenMove(c.bundle) && hopLimit >= |c.bundle.nodes|
    ensures !Execute(StartConfig(c, hopLimit), n.outputs, n.id, 0).hopLimitHit
  {
    hide Run, ChainMoves, IsTrail, HasCycle, UniqueIds, Execute, NoBrokenMove;
    StartsTrail(c.bundle, n);
    HitsLimitIff(c, n, hopLimit);
    assert n.outputs[0..] == n.outputs;
    ChainEnds(c, [n], 0, |c.bundle.nodes|, |c.bundle.nodes|);
  }

  /** A node with two moves to a node that is gone. */
  function StrandedNode(id: Id, gone: Id): Node
  {
    Node(id, "stranded", NORMAL, true, 0, [], [], None, false, 0, [DialogMove(gone), DialogMove(gone)])
  }

  /** Broken moves spend hops too: without a cycle, and with a limit of the number of nodes, the limit is still hit. */
  lemma BrokenMovesHitLimit(c: Config, id: Id, gone: Id)
    requires c.lib.isUuid(id) && c.lib.isUuid(gone) && id != gone && c.lib.valid(DialogMove(gone))
    requires c.bundle.nodes == [StrandedNode(id, gone)]
    ensures UniqueIds(c.bundle.nodes) && !HasCycle(Matching.ById(c.bundle.nodes))
    ensures MovesFrom(c, StrandedNode(id, gone)) == 2
    ensures Execute(StartConfig(c, |c.bundle.nodes|), StrandedNode(id, gone).outputs, id, 0).hopLimitHit
  {
    hide HasCycle, Execute;
    var n := StrandedNode(id, gone);
    StrandedIsAcyclic(id, gone);
    assert FindEnabled([n], gone).None?;
    assert n.outputs[1..] == [DialogMove(gone)] && n.outputs[1..][1..] == [];
    ChainStep(c, n.outputs, 1);
    ChainStep(c, n.outputs[1..], 1);
    NoMoves(c, 1);
    HitsLimitIff(c, n, 1);
  }

  lemma StrandedIsAcyclic(id: Id, gone: Id)
    requires id != gone
    ensures !HasCycle(Matching.ById([StrandedNode(id, gone)]))
  {
    var n := StrandedNode(id, gone);
    var g := Matching.ById([n]);
    assert [n][..|[n]| - 1] == [] && Matching.ById([]) == map[];
    assert g == map[id := n];
    var rest := n.outputs[1..];
    assert rest == [DialogMove(gone)] && rest[1..] == [] && MovesOf([]) == [];
    assert MovesOf(rest) == [gone];
    assert MovesOf(n.outputs) == [gone, gone];
    forall p ensures !ClosedWalk(g, p) {
      assert |p| >= 2 ==> !Edge(g, p[0], p[1]);
    }
  }
}
