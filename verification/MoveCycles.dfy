/** Detecting cycles of `DIALOG_MOVE` (packages/dialogue-engine/src/design-validator.ts). */
module MoveCycles {
  import opened Prelude
  import opened Dialogue
  import Matching

  type Graph = map<Id, Node>

  function MovesOf(outputs: seq<Output>): (r: seq<Id>)
    ensures forall t :: t in r <==> DialogMove(t) in outputs
  {
    if outputs == [] then []
    else (if outputs[0].DialogMove? then [outputs[0].targetNodeId] else []) + MovesOf(outputs[1..])
  }

  /** A move between two existing nodes. */
  ghost predicate Edge(g: Graph, a: Id, b: Id)
  {
    a in g && b in g && b in MovesOf(g[a].outputs)
  }

  ghost predicate Walk(g: Graph, p: seq<Id>)
  {
    && (forall i :: 0 <= i < |p| ==> p[i] in g)
    && (forall i :: 0 <= i < |p| - 1 ==> Edge(g, p[i], p[i + 1]))
  }

  ghost predicate ClosedWalk(g: Graph, p: seq<Id>)
  {
    |p| >= 2 && Walk(g, p) && p[0] == p[|p| - 1]
  }

  ghost predicate HasCycle(g: Graph) { exists p :: ClosedWalk(g, p) }

  // ---------------------------------------------------------------- finishing order

  /** Every move of a listed node leads to a node listed before it. */
  ghost predicate Ordered(g: Graph, order: seq<Id>)
  {
    forall i, b :: 0 <= i < |order| && Edge(g, order[i], b) ==> b in order[..i]
  }

  lemma {:induction false} OrderDescends(g: Graph, order: seq<Id>, p: seq<Id>, i: nat)
    requires Ordered(g, order) && Walk(g, p) && p != [] && i < |order| && order[i] == p[0]
    ensures |p| - 1 <= i
    ensures exists j :: 0 <= j <= i - (|p| - 1) && order[j] == p[|p| - 1]
  {
    if |p| > 1 {
      assert Edge(g, p[0], p[1]);
      var j :| 0 <= j < i && order[j] == p[1];
      OrderDescends(g, order, p[1..], j);
    }
  }

  /** A graph whose nodes can all be listed in such an order has no cycle. */
  lemma {:induction false} OrderedIsAcyclic(g: Graph, order: seq<Id>, p: seq<Id>, i: nat)
    requires Ordered(g, order) && ClosedWalk(g, p) && i < |order| && order[i] == p[0]
    ensures false
    decreases i
  {
    OrderDescends(g, order, p, i);
    var j :| 0 <= j <= i - (|p| - 1) && order[j] == p[0];
    OrderedIsAcyclic(g, order, p, j);
  }

  // ---------------------------------------------------------------- long walks

  function PositionOf(p: seq<Id>, x: Id): (i: nat)
    requires x in p
    ensures i < |p| && p[i] == x && x !in p[..i]
  {
    if p[0] == x then 0 else 1 + PositionOf(p[1..], x)
  }

  /** In an acyclic graph a walk visits no node twice, so it is no longer than the graph. */
  lemma AcyclicWalkIsShort(g: Graph, p: seq<Id>)
    requires !HasCycle(g) && Walk(g, p)
    ensures Distinct(p) && |p| <= |g|
  {
    forall i, j | 0 <= i < j < |p| ensures p[i] != p[j] {
      var q := p[i..j + 1];
      assert forall k :: 0 <= k < |q| ==> q[k] == p[i + k];
      assert Walk(g, q);
      assert !ClosedWalk(g, q);
    }
    DistinctBound(p, g.Keys);
  }

  /** A move from the end of a walk back into it closes the rest of the walk. */
  lemma ClosesWalk(g: Graph, p: seq<Id>, i: nat, next: Id)
    requires i < |p| && p[i] == next && Walk(g, p) && Edge(g, p[|p| - 1], next)
    ensures ClosedWalk(g, p[i..] + [next])
  {
    hide Edge;
    var q := p[i..] + [next];
    forall k | 0 <= k < |q| - 1 ensures Edge(g, q[k], q[k + 1]) {
      assert q[k] == p[i + k];
      if i + k + 1 < |p| {
        assert q[k + 1] == p[i + k + 1];
      }
    }
    assert Edge(g, p[|p| - 1], next) ==> next in g by { EdgeEnds(g, p[|p| - 1], next); }
  }

  lemma EdgeEnds(g: Graph, a: Id, b: Id)
    requires Edge(g, a, b)
    ensures a in g && b in g
  {
  }

  // ---------------------------------------------------------------- the search

  datatype Colour = WHITE | GRAY | BLACK

  function NamesOf(g: Graph, p: seq<Id>): seq<string>
  {
    seq(|p|, i requires 0 <= i < |p| => if p[i] in g then g[p[i]].name else p[i])
  }

  /** `names` are the names of the nodes of a closed walk, one after another. */
  ghost predicate TellsCycle(g: Graph, p: seq<Id>, names: seq<string>)
  {
    ClosedWalk(g, p) && |names| == |p| && forall i :: 0 <= i < |p| ==> names[i] == g[p[i]].name
  }

  lemma NamesTell(g: Graph, p: seq<Id>)
    requires ClosedWalk(g, p)
    ensures TellsCycle(g, p, NamesOf(g, p))
  {
  }

  /** Colours and reports at two moments: no node turned white or gray in between, gray and black ones kept their colour,
      and reports were only added. */
  ghost predicate Keeps(before: map<Id, Colour>, after: map<Id, Colour>, reported: seq<seq<string>>, now: seq<seq<string>>)
  {
    && before.Keys == after.Keys && reported <= now
    && (forall x :: x in before && before[x] != WHITE ==> after[x] == before[x])
    && (forall x :: x in before && after[x] != BLACK ==> before[x] == after[x])
  }

  lemma KeepsOn(a: map<Id, Colour>, b: map<Id, Colour>, c: map<Id, Colour>, r: seq<seq<string>>, s: seq<seq<string>>, t: seq<seq<string>>)
    requires Keeps(a, b, r, s) && Keeps(b, c, s, t)
    ensures Keeps(a, c, r, t)
  {
  }

  /** Painting a white node gray on the way in and black on the way out keeps the rest. */
  lemma KeepsAround(a: map<Id, Colour>, b: map<Id, Colour>, x: Id, r: seq<seq<string>>, t: seq<seq<string>>)
    requires x in a && a[x] == WHITE && Keeps(a[x := GRAY], b, r, t)
    ensures Keeps(a, b[x := BLACK], r, t) && b[x] == GRAY && a[x := GRAY].Keys == a.Keys
  {
  }

  class CycleFinder {
    const g: Graph
    var state: map<Id, Colour>
    var stack: seq<Id>
    var cycles: seq<seq<string>>
    /** The sorted, joined node ids of each reported cycle stand for their set. */
    var seenCycleKeys: set<set<Id>>
    /** The reported cycles as node ids, and the nodes in the order in which they turned black. */
    ghost var paths: seq<seq<Id>>
    ghost var finished: seq<Id>

    constructor (nodes: seq<Node>)
      ensures Valid() && g == Matching.ById(nodes) && stack == [] && cycles == []
      ensures forall x :: x in g ==> state[x] == WHITE
    {
      var byId := Matching.ById(nodes);
      g := byId;
      state := map x | x in byId :: WHITE;
      stack, cycles, seenCycleKeys, paths, finished := [], [], {}, [], [];
    }

    ghost predicate Valid()
      reads this
    {
      && state.Keys == g.Keys
      && Walk(g, stack) && Distinct(stack) && Distinct(finished)
      && (forall x :: x in g ==> (state[x] == GRAY <==> x in stack))
      && (forall x :: x in finished <==> x in g && state[x] == BLACK)
      && (cycles == [] ==> seenCycleKeys == {} && Ordered(g, finished))
      && |cycles| == |paths|
      && forall i :: 0 <= i < |paths| ==> ClosedWalk(g, paths[i]) && cycles[i] == NamesOf(g, paths[i])
    }

    /** Reports the cycle that the move from the top of the stack back to `next` closes, unless its node set is known. */
    method Report(next: Id)
      requires Valid() && next in stack && Edge(g, stack[|stack| - 1], next)
      modifies this`cycles, this`seenCycleKeys, this`paths
      ensures Valid() && cycles != [] && |cycles| >= |old(cycles)| && cycles[..|old(cycles)|] == old(cycles)
    {
      hide PositionOf, ClosedWalk, Ordered, NamesOf, Edge;
      var idx := PositionOf(stack, next);
      var cyclePath := stack[idx..] + [next];
      ClosesWalk(g, stack, idx, next);
      var key := set x | x in cyclePath;
      if key !in seenCycleKeys {
        seenCycleKeys := seenCycleKeys + {key};
        cycles := cycles + [NamesOf(g, cyclePath)];
        paths := paths + [cyclePath];
      }
    }

    method Enter(nodeId: Id)
      requires Valid() && nodeId in g && state[nodeId] == WHITE
      requires stack != [] ==> Edge(g, stack[|stack| - 1], nodeId)
      modifies this`state, this`stack
      ensures Valid() && stack == old(stack) + [nodeId] && state == old(state)[nodeId := GRAY]
    {
      assert nodeId !in stack && nodeId !in finished;
      state := state[nodeId := GRAY];
      stack := stack + [nodeId];
    }

    method Leave()
      requires Valid() && stack != []
      requires cycles == [] ==> forall b :: Edge(g, stack[|stack| - 1], b) ==> b in finished
      modifies this`state, this`stack, this`finished
      ensures Valid() && stack == old(stack)[..|old(stack)| - 1] && state == old(state)[old(stack)[|old(stack)| - 1] := BLACK]
    {
      var nodeId := stack[|stack| - 1];
      assert nodeId in stack && nodeId !in finished;
      stack := stack[..|stack| - 1];
      state := state[nodeId := BLACK];
      finished := finished + [nodeId];
      assert cycles == [] ==> Ordered(g, finished) by {
        if cycles == [] {
          forall i, b | 0 <= i < |finished| && Edge(g, finished[i], b) ensures b in finished[..i] {
            assert finished[..i] == old(finished)[..i];
          }
        }
      }
    }

    /** Deals with one move of the node on top of the stack. */
    method Follow(next: Id, ghost white: set<Id>)
      requires Valid() && state.Keys == g.Keys && stack != [] && next in g && Edge(g, stack[|stack| - 1], next) && WhitesIn(state) < white
      modifies this
      ensures Valid() && stack == old(stack) && Keeps(old(state), state, old(cycles), cycles)
      ensures cycles == [] ==> next in finished
      ensures forall x :: x in old(finished) ==> x in finished
      decreases white, 0
    {
      if state[next] == GRAY {
        Report(next);
      } else if state[next] == WHITE {
        Dfs(next, WhitesIn(state));
      }
    }

    /** The inner function `dfs`. */
    method Dfs(nodeId: Id, ghost white: set<Id>)
      requires Valid() && state.Keys == g.Keys && nodeId in g && state[nodeId] == WHITE && white == WhitesIn(state)
      requires stack != [] ==> Edge(g, stack[|stack| - 1], nodeId)
      modifies this
      ensures Valid() && stack == old(stack) && state[nodeId] == BLACK && Keeps(old(state), state, old(cycles), cycles)
      decreases white, 1
    {
      hide Valid, MovesOf, Keeps;
      ghost var before, reported := state, cycles;
      Enter(nodeId);
      var targets := MovesOf(g[nodeId].outputs);
      ghost var entered := state;
      KeepsItself(entered, cycles);
      for i := 0 to |targets|
        invariant Valid() && state.Keys == g.Keys && stack == old(stack) + [nodeId] && Keeps(entered, state, reported, cycles)
        invariant cycles == [] ==> forall j :: 0 <= j < i && targets[j] in g ==> targets[j] in finished
      {
        var next := targets[i];
        if next in g {
          assert Edge(g, nodeId, next) by { assert next in targets; }
          FewerWhites(before, entered, state, nodeId, reported, cycles);
          ghost var seen, told := state, cycles;
          Follow(next, white);
          KeepsOn(entered, seen, state, reported, told, cycles);
          SameKeys(seen, state, told, cycles);
        }
      }
      KeepsAround(before, state, nodeId, reported, cycles);
      Leave();
      assert stack == old(stack);
    }
  }

  lemma KeepsItself(a: map<Id, Colour>, r: seq<seq<string>>)
    ensures Keeps(a, a, r, r)
  {
  }

  lemma SameKeys(a: map<Id, Colour>, b: map<Id, Colour>, r: seq<seq<string>>, t: seq<seq<string>>)
    requires Keeps(a, b, r, t)
    ensures a.Keys == b.Keys && r <= t
  {
  }

  ghost function WhitesIn(state: map<Id, Colour>): set<Id> { set x | x in state && state[x] == WHITE }

  lemma FewerWhites(before: map<Id, Colour>, entered: map<Id, Colour>, now: map<Id, Colour>, x: Id, r: seq<seq<string>>, t: seq<seq<string>>)
    requires x in before && before[x] == WHITE && entered == before[x := GRAY] && Keeps(entered, now, r, t)
    ensures WhitesIn(now) < WhitesIn(before)
  {
    assert x in WhitesIn(before) && x !in WhitesIn(now);
    assert forall y :: y in WhitesIn(now) ==> y in WhitesIn(before);
  }

  /** `findMoveCycles`: it reports something exactly when the moves have a cycle, and every report is a closed walk. */
  method FindMoveCycles(nodes: seq<Node>) returns (cycles: seq<seq<string>>, ghost paths: seq<seq<Id>>)
    ensures cycles != [] <==> HasCycle(Matching.ById(nodes))
    ensures |cycles| == |paths| && forall i :: 0 <= i < |paths| ==> TellsCycle(Matching.ById(nodes), paths[i], cycles[i])
  {
    hide TellsCycle, NamesOf;
    var f := new CycleFinder(nodes);
    for i := 0 to |nodes|
      invariant f.Valid() && f.stack == [] && f.g == Matching.ById(nodes)
      invariant forall j :: 0 <= j < i ==> nodes[j].id in f.g && f.state[nodes[j].id] == BLACK
    {
      HasEveryId(nodes, i);
      if f.state[nodes[i].id] == WHITE {
        f.Dfs(nodes[i].id, WhitesIn(f.state));
      }
    }
    cycles, paths := f.cycles, f.paths;
    if cycles == [] && HasCycle(f.g) {
      var p :| ClosedWalk(f.g, p);
      IdsComeFromNodes(nodes, p[0]);
      var i :| 0 <= i < |f.finished| && f.finished[i] == p[0];
      OrderedIsAcyclic(f.g, f.finished, p, i);
    }
    forall i | 0 <= i < |paths| ensures TellsCycle(f.g, paths[i], cycles[i]) {
      NamesTell(f.g, paths[i]);
    }
    if cycles != [] {
      assert ClosedWalk(f.g, paths[0]);
    }
  }

  lemma {:induction false} HasEveryId(nodes: seq<Node>, i: nat)
    requires i < |nodes|
    ensures nodes[i].id in Matching.ById(nodes)
  {
    if i < |nodes| - 1 {
      HasEveryId(nodes[..|nodes| - 1], i);
    }
  }

  lemma {:induction false} IdsComeFromNodes(nodes: seq<Node>, id: Id)
    requires id in Matching.ById(nodes)
    ensures exists i :: 0 <= i < |nodes| && nodes[i].id == id
  {
    var front, last := nodes[..|nodes| - 1], nodes[|nodes| - 1];
    if last.id != id {
      IdsComeFromNodes(front, id);
      var i :| 0 <= i < |front| && front[i].id == id;
      assert nodes[i].id == id;
    } else {
      assert nodes[|nodes| - 1].id == id;
    }
  }
}
