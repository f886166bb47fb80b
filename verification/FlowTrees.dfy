/** The read-only flow summary and its orphans (packages/dialogue-engine/src/flow-tree.ts, design-validator.ts). */
module FlowTrees {
  import opened Prelude
  import opened Dialogue
  import opened MoveChains
  import IndexFacts
  import Matching
  import MatchingFacts
  import PipelineFacts

  type Graph = map<Id, Node>

  datatype Via = ROOT | DIALOG_MOVE | BUTTON_NODE | API_BRANCH | SURVEY_COMPLETE

  datatype Ref = Ref(via: Via, target: Id)

  datatype FlowNode = FlowNode(nodeId: Id, via: Via, repeated: bool, children: seq<FlowNode>)

  // ---------------------------------------------------------------- references between nodes

  function ButtonRefs(buttons: seq<Button>): seq<Ref>
  {
    if buttons == [] then []
    else (if buttons[0].action == NODE then [Ref(BUTTON_NODE, buttons[0].value)] else []) + ButtonRefs(buttons[1..])
  }

  function CardRefs(cards: seq<Card>): seq<Ref>
  {
    if cards == [] then []
    else ButtonRefs(cards[0].buttons.GetOr([])) + CardRefs(cards[1..])
  }

  function CaseRefs(cases: seq<ApiCase>): seq<Ref>
  {
    if cases == [] then [] else [Ref(API_BRANCH, cases[0].nextNodeId)] + CaseRefs(cases[1..])
  }

  function OptionalRef(via: Via, id: Option<Id>): seq<Ref>
  {
    if id.Some? && id.value != [] then [Ref(via, id.value)] else []
  }

  /** The references of one output. */
  function OutputRefs(o: Output): seq<Ref>
  {
    match o
    case DialogMove(id) => [Ref(DIALOG_MOVE, id)]
    case Buttons(_, buttons, _) => ButtonRefs(buttons)
    case CardOut(card) => ButtonRefs(card.buttons.GetOr([]))
    case Carousel(_, cards) => CardRefs(cards)
    case ApiV1(cases) => CaseRefs(cases)
    case ApiV2(p) => CaseRefs(p.conditions) + OptionalRef(API_BRANCH, p.defaultNodeId) + OptionalRef(API_BRANCH, p.failureNodeId)
    case SurveyV2(_, onComplete) => OptionalRef(SURVEY_COMPLETE, onComplete)
    case _ => []
  }

  function AllRefs(outputs: seq<Output>): seq<Ref>
  {
    if outputs == [] then [] else OutputRefs(outputs[0]) + AllRefs(outputs[1..])
  }

  function Only(via: Via, refs: seq<Ref>): (r: seq<Ref>)
    ensures forall x :: x in r <==> x in refs && x.via == via
  {
    if refs == [] then [] else (if refs[0].via == via then [refs[0]] else []) + Only(via, refs[1..])
  }

  /** `getOutgoingNodeRefs`, in the order in which the tree lists children: moves, buttons, branches, surveys. */
  function Outgoing(n: Node): seq<Ref>
  {
    var refs := AllRefs(n.outputs);
    Only(DIALOG_MOVE, refs) + Only(BUTTON_NODE, refs) + Only(API_BRANCH, refs) + Only(SURVEY_COMPLETE, refs)
  }

  /** References to nodes that exist. */
  function Existing(g: Graph, refs: seq<Ref>): (r: seq<Ref>)
    ensures forall i :: 0 <= i < |r| ==> r[i].target in g
    ensures forall x :: x in r <==> x in refs && x.target in g
  {
    if refs == [] then [] else (if refs[0].target in g then [refs[0]] else []) + Existing(g, refs[1..])
  }

  // ---------------------------------------------------------------- what refers to a node

  /** A button of the output, on a card or beside its text. */
  ghost predicate HasButton(o: Output, b: Button)
  {
    || (o.Buttons? && b in o.buttons)
    || (o.CardOut? && b in o.card.buttons.GetOr([]))
    || (o.Carousel? && exists card :: card in o.cards && b in card.buttons.GetOr([]))
  }

  ghost predicate HasCase(cases: seq<ApiCase>, target: Id) { exists c :: c in cases && c.nextNodeId == target }

  /** The output refers to node `target`: it moves there, has a button that leads there, may branch there after its call or
      goes there when its survey is done. */
  ghost predicate Mentions(o: Output, via: Via, target: Id)
  {
    match via
    case ROOT => false
    case DIALOG_MOVE => o == DialogMove(target)
    case BUTTON_NODE => exists b :: HasButton(o, b) && b.action == NODE && b.value == target
    case API_BRANCH =>
      || (o.ApiV1? && HasCase(o.legacy, target))
      || (o.ApiV2? && (HasCase(o.api.conditions, target)
                       || (target != [] && (o.api.defaultNodeId == Some(target) || o.api.failureNodeId == Some(target)))))
    case SURVEY_COMPLETE => o.SurveyV2? && target != [] && o.onCompleteNodeId == Some(target)
  }

  ghost predicate MentionedBy(n: Node, via: Via, target: Id) { exists o :: o in n.outputs && Mentions(o, via, target) }

  ghost predicate Refers(g: Graph, a: Id, b: Id)
  {
    a in g && b in g && exists via :: MentionedBy(g[a], via, b)
  }

  lemma {:induction false} ButtonsRefer(buttons: seq<Button>, via: Via, target: Id)
    ensures Ref(via, target) in ButtonRefs(buttons)
       <==> via == BUTTON_NODE && exists b :: b in buttons && b.action == NODE && b.value == target
  {
    if buttons != [] {
      ButtonsRefer(buttons[1..], via, target);
      assert forall b :: b in buttons <==> b == buttons[0] || b in buttons[1..];
    }
  }

  ghost predicate CardMentions(card: Card, target: Id)
  {
    exists b :: b in card.buttons.GetOr([]) && b.action == NODE && b.value == target
  }

  lemma {:induction false} CardsRefer(cards: seq<Card>, via: Via, target: Id)
    ensures Ref(via, target) in CardRefs(cards) <==> via == BUTTON_NODE && exists card :: card in cards && CardMentions(card, target)
  {
    if cards != [] {
      ButtonsRefer(cards[0].buttons.GetOr([]), via, target);
      CardsRefer(cards[1..], via, target);
      assert Ref(via, target) in ButtonRefs(cards[0].buttons.GetOr([])) <==> via == BUTTON_NODE && CardMentions(cards[0], target);
      assert forall card :: card in cards <==> card == cards[0] || card in cards[1..];
    }
  }

  lemma {:induction false} CasesRefer(cases: seq<ApiCase>, via: Via, target: Id)
    ensures Ref(via, target) in CaseRefs(cases) <==> via == API_BRANCH && HasCase(cases, target)
  {
    if cases != [] {
      CasesRefer(cases[1..], via, target);
      assert forall c :: c in cases <==> c == cases[0] || c in cases[1..];
    }
  }

  lemma OutputRefers(o: Output, via: Via, target: Id)
    ensures Ref(via, target) in OutputRefs(o) <==> Mentions(o, via, target)
  {
    hide ButtonRefs, CardRefs, CaseRefs;
    match o {
      case Buttons(_, buttons, _) => ButtonsRefer(buttons, via, target);
      case CardOut(card) => ButtonsRefer(card.buttons.GetOr([]), via, target);
      case Carousel(_, cards) =>
        CardsRefer(cards, via, target);
        if card, b :| card in cards && b in card.buttons.GetOr([]) && b.action == NODE && b.value == target {
          assert CardMentions(card, target) && HasButton(o, b);
        }
      case ApiV1(cases) => CasesRefer(cases, via, target);
      case ApiV2(p) => CasesRefer(p.conditions, via, target);
      case _ =>
    }
  }

  lemma {:induction false} AllRefer(outputs: seq<Output>, via: Via, target: Id)
    ensures Ref(via, target) in AllRefs(outputs) <==> exists o :: o in outputs && Mentions(o, via, target)
  {
    hide OutputRefs, Mentions;
    if outputs != [] {
      OutputRefers(outputs[0], via, target);
      AllRefer(outputs[1..], via, target);
      assert forall o :: o in outputs <==> o == outputs[0] || o in outputs[1..];
    }
  }

  function Place(via: Via): nat
  {
    match via
    case ROOT => 0
    case DIALOG_MOVE => 1
    case BUTTON_NODE => 2
    case API_BRANCH => 3
    case SURVEY_COMPLETE => 4
  }

  /** The references of a node are those its outputs mention. */
  lemma OutgoingIff(n: Node, via: Via, target: Id)
    ensures Ref(via, target) in Outgoing(n) <==> MentionedBy(n, via, target)
  {
    hide Mentions, AllRefs;
    AllRefer(n.outputs, via, target);
    NoRoot(n.outputs, via, target);
  }

  /** Moves come first, then buttons, branches and surveys. */
  lemma OutgoingOrdered(n: Node)
    ensures forall i, j :: 0 <= i < j < |Outgoing(n)| ==> Place(Outgoing(n)[i].via) <= Place(Outgoing(n)[j].via)
  {
    hide AllRefs;
    var refs := AllRefs(n.outputs);
    var a, b, c, d := Only(DIALOG_MOVE, refs), Only(BUTTON_NODE, refs), Only(API_BRANCH, refs), Only(SURVEY_COMPLETE, refs);
    assert forall i :: 0 <= i < |a| ==> a[i] in a;
    assert forall i :: 0 <= i < |b| ==> b[i] in b;
    assert forall i :: 0 <= i < |c| ==> c[i] in c;
    assert forall i :: 0 <= i < |d| ==> d[i] in d;
  }

  lemma NoRoot(outputs: seq<Output>, via: Via, target: Id)
    ensures via == ROOT ==> forall o :: !Mentions(o, via, target)
  {
  }

  lemma ReferredIff(g: Graph, a: Id, b: Id)
    ensures Refers(g, a, b) <==> a in g && exists r :: r in Existing(g, Outgoing(g[a])) && r.target == b
  {
    hide Outgoing, MentionedBy;
    if a in g {
      forall via ensures Ref(via, b) in Outgoing(g[a]) <==> MentionedBy(g[a], via, b) {
        OutgoingIff(g[a], via, b);
      }
      if via :| MentionedBy(g[a], via, b) && b in g {
        assert Ref(via, b) in Existing(g, Outgoing(g[a]));
      }
      if r :| r in Existing(g, Outgoing(g[a])) && r.target == b {
        assert r == Ref(r.via, b);
      }
    }
  }

  ghost predicate Path(g: Graph, p: seq<Id>)
  {
    && (forall i :: 0 <= i < |p| ==> p[i] in g)
    && (forall i :: 0 <= i < |p| - 1 ==> Refers(g, p[i], p[i + 1]))
  }

  ghost predicate Connects(g: Graph, p: seq<Id>, from: Id, to: Id)
  {
    p != [] && Path(g, p) && p[0] == from && p[|p| - 1] == to
  }

  ghost predicate Reachable(g: Graph, from: Id, to: Id)
  {
    exists p :: Connects(g, p, from, to)
  }

  // ---------------------------------------------------------------- trees

  /** `t` lists, below a node, every reference of it, and stops at nodes that are their own ancestors. */
  ghost predicate Unfolds(g: Graph, t: FlowNode, ancestry: set<Id>)
    decreases t
  {
    && t.nodeId in g
    && t.repeated == (t.nodeId in ancestry)
    && if t.repeated then t.children == []
       else
         && Listed(t.children) == Existing(g, Outgoing(g[t.nodeId]))
         && forall c :: c in t.children ==> Unfolds(g, c, ancestry + {t.nodeId})
  }

  function Listed(children: seq<FlowNode>): (r: seq<Ref>)
    ensures |r| == |children|
    ensures forall i :: 0 <= i < |r| ==> r[i] == Ref(children[i].via, children[i].nodeId)
  {
    seq(|children|, i requires 0 <= i < |children| => Ref(children[i].via, children[i].nodeId))
  }

  function NodesIn(t: FlowNode): set<Id>
  {
    {t.nodeId} + NodesInAll(t.children)
  }

  function NodesInAll(ts: seq<FlowNode>): set<Id>
  {
    if ts == [] then {} else NodesInAll(ts[..|ts| - 1]) + NodesIn(ts[|ts| - 1])
  }

  lemma {:induction false} ChildIsInside(ts: seq<FlowNode>, i: nat)
    requires i < |ts|
    ensures NodesIn(ts[i]) <= NodesInAll(ts)
  {
    if i < |ts| - 1 {
      ChildIsInside(ts[..|ts| - 1], i);
    }
  }

  lemma {:induction false} InsideSomeChild(ts: seq<FlowNode>, x: Id) returns (i: nat)
    requires x in NodesInAll(ts)
    ensures i < |ts| && x in NodesIn(ts[i])
  {
    if x in NodesIn(ts[|ts| - 1]) {
      i := |ts| - 1;
    } else {
      i := InsideSomeChild(ts[..|ts| - 1], x);
    }
  }

  class FlowTreeBuilder {
    const g: Graph
    var visited: set<Id>

    constructor (nodes: seq<Node>)
      ensures g == Matching.ById(nodes) && visited == {}
    {
      g := Matching.ById(nodes);
      visited := {};
    }

    /** The inner function `buildNode`. */
    method BuildNode(node: Node, via: Via, ancestry: set<Id>) returns (t: FlowNode)
      requires node.id in g && g[node.id] == node && forall id :: id in g ==> g[id].id == id
      modifies this
      ensures Unfolds(g, t, ancestry) && t.nodeId == node.id && t.via == via
      ensures visited == old(visited) + NodesIn(t)
      decreases g.Keys - ancestry
    {
      hide Outgoing, Existing, Unfolds, NodesIn, NodesInAll;
      visited := visited + {node.id};
      if node.id in ancestry {
        t := FlowNode(node.id, via, true, []);
        LeafUnfolds(g, node.id, via, ancestry);
        return;
      }
      NothingInside();
      var refs := Existing(g, Outgoing(node));
      var children: seq<FlowNode> := [];
      for i := 0 to |refs|
        invariant |children| == i && Listed(children) == refs[..i]
        invariant forall c :: c in children ==> Unfolds(g, c, ancestry + {node.id})
        invariant visited == old(visited) + {node.id} + NodesInAll(children)
      {
        assert refs[i].target in g;
        var child := BuildNode(g[refs[i].target], refs[i].via, ancestry + {node.id});
        OneMoreInside(children, child);
        children := children + [child];
        assert refs[..i + 1] == refs[..i] + [refs[i]];
      }
      assert refs[..|refs|] == refs;
      t := FlowNode(node.id, via, false, children);
      TreeUnfolds(g, node.id, via, children, ancestry);
    }
  }

  lemma LeafUnfolds(g: Graph, id: Id, via: Via, ancestry: set<Id>)
    requires id in g && id in ancestry
    ensures Unfolds(g, FlowNode(id, via, true, []), ancestry) && NodesIn(FlowNode(id, via, true, [])) == {id}
  {
  }

  lemma NothingInside()
    ensures NodesInAll([]) == {}
  {
  }

  lemma OneMoreInside(children: seq<FlowNode>, child: FlowNode)
    ensures NodesInAll(children + [child]) == NodesInAll(children) + NodesIn(child)
    ensures Listed(children + [child]) == Listed(children) + [Ref(child.via, child.nodeId)]
  {
    hide NodesIn;
    assert (children + [child])[..|children|] == children;
  }

  lemma TreeUnfolds(g: Graph, id: Id, via: Via, children: seq<FlowNode>, ancestry: set<Id>)
    requires id in g && id !in ancestry && Listed(children) == Existing(g, Outgoing(g[id]))
    requires forall c :: c in children ==> Unfolds(g, c, ancestry + {id})
    ensures Unfolds(g, FlowNode(id, via, false, children), ancestry)
    ensures NodesIn(FlowNode(id, via, false, children)) == {id} + NodesInAll(children)
  {
    hide Outgoing, Existing, Listed, NodesInAll;
  }

  // ---------------------------------------------------------------- the nodes of a tree are the reachable ones

  lemma PathPrepends(g: Graph, a: Id, q: seq<Id>)
    requires q != [] && Path(g, q) && a in g && Refers(g, a, q[0])
    ensures Path(g, [a] + q)
  {
    hide Refers;
    var p := [a] + q;
    forall j | 0 <= j < |p| - 1 ensures Refers(g, p[j], p[j + 1]) {
      if j > 0 {
        assert p[j] == q[j - 1] && p[j + 1] == q[j];
      }
    }
  }

  lemma ChildIsReferred(g: Graph, t: FlowNode, ancestry: set<Id>, i: nat)
    requires Unfolds(g, t, ancestry) && i < |t.children|
    ensures Refers(g, t.nodeId, t.children[i].nodeId)
  {
    hide Outgoing, Existing, Refers;
    assert Listed(t.children)[i] in Existing(g, Outgoing(g[t.nodeId]));
    ReferredIff(g, t.nodeId, t.children[i].nodeId);
  }

  /** Every node of a tree is reached from its root. */
  lemma {:induction false} TreeNodesAreReachable(g: Graph, t: FlowNode, ancestry: set<Id>, x: Id) returns (p: seq<Id>)
    requires Unfolds(g, t, ancestry) && x in NodesIn(t)
    ensures Connects(g, p, t.nodeId, x)
    decreases t
  {
    hide Outgoing, Existing, Listed, Refers, NodesInAll;
    p := [t.nodeId];
    if x != t.nodeId {
      var i := InsideSomeChild(t.children, x);
      ChildIsReferred(g, t, ancestry, i);
      var q := TreeNodesAreReachable(g, t.children[i], ancestry + {t.nodeId}, x);
      PathPrepends(g, t.nodeId, q);
      p := [t.nodeId] + q;
    }
  }

  /** A path without repetition that avoids the ancestors is followed by the tree to its end. */
  lemma {:induction false} TreeFollowsPath(g: Graph, t: FlowNode, ancestry: set<Id>, p: seq<Id>)
    requires Unfolds(g, t, ancestry) && p != [] && Path(g, p) && p[0] == t.nodeId && Distinct(p)
    requires forall i :: 0 <= i < |p| ==> p[i] !in ancestry
    ensures p[|p| - 1] in NodesIn(t)
    decreases |p|
  {
    hide Outgoing, Existing, Listed, NodesInAll, Refers;
    if |p| > 1 {
      assert Refers(g, p[0], p[1]);
      ReferredIff(g, p[0], p[1]);
      var r :| r in Existing(g, Outgoing(g[t.nodeId])) && r.target == p[1];
      var i :| 0 <= i < |t.children| && Listed(t.children)[i] == r;
      var c, rest := t.children[i], p[1..];
      assert c in t.children;
      forall j | 0 <= j < |rest| - 1 ensures Refers(g, rest[j], rest[j + 1]) {
        assert Refers(g, p[j + 1], p[j + 2]);
      }
      TreeFollowsPath(g, c, ancestry + {t.nodeId}, rest);
      ChildIsInside(t.children, i);
    }
  }

  lemma CutLoop(g: Graph, p: seq<Id>, i: nat, j: nat)
    requires Path(g, p) && i < j < |p| && p[i] == p[j]
    ensures Path(g, p[..i] + p[j..])
  {
    hide Refers;
    var shorter := p[..i] + p[j..];
    forall k | 0 <= k < |shorter| - 1 ensures Refers(g, shorter[k], shorter[k + 1]) {
      if k < i {
        assert shorter[k] == p[k] && shorter[k + 1] == p[k + 1];
      } else {
        assert shorter[k] == p[k - i + j] && shorter[k + 1] == p[k - i + j + 1];
      }
    }
  }

  /** A path can be cut until it repeats nothing. */
  lemma {:induction false} SimplePath(g: Graph, p: seq<Id>, from: Id, to: Id) returns (q: seq<Id>)
    requires Connects(g, p, from, to)
    ensures Connects(g, q, from, to) && Distinct(q)
    decreases |p|
  {
    hide Path;
    if Distinct(p) {
      q := p;
    } else {
      var i, j :| 0 <= i < j < |p| && p[i] == p[j];
      CutLoop(g, p, i, j);
      q := SimplePath(g, p[..i] + p[j..], from, to);
    }
  }

  lemma TreeNodesAreExact(g: Graph, t: FlowNode, x: Id)
    requires Unfolds(g, t, {})
    ensures x in NodesIn(t) <==> Reachable(g, t.nodeId, x)
  {
    if x in NodesIn(t) {
      var p := TreeNodesAreReachable(g, t, {}, x);
    }
    if Reachable(g, t.nodeId, x) {
      var p :| Connects(g, p, t.nodeId, x);
      var q := SimplePath(g, p, t.nodeId, x);
      TreeFollowsPath(g, t, {}, q);
    }
  }

  // ---------------------------------------------------------------- branches do not repeat

  /** A descent through the tree from `t`. */
  ghost predicate Branch(t: FlowNode, branch: seq<FlowNode>)
  {
    && branch != [] && branch[0] == t
    && forall i :: 0 <= i < |branch| - 1 ==> branch[i + 1] in branch[i].children
  }

  /** Down any branch, nodes are distinct except that the last may repeat an earlier one, and then it is marked. */
  lemma {:induction false} BranchesDoNotRepeat(g: Graph, t: FlowNode, ancestry: set<Id>, branch: seq<FlowNode>)
    requires Unfolds(g, t, ancestry) && Branch(t, branch)
    ensures forall i :: 0 <= i < |branch| ==>
              (branch[i].repeated <==> branch[i].nodeId in ancestry || exists j :: 0 <= j < i && branch[j].nodeId == branch[i].nodeId)
    ensures forall i :: 0 <= i < |branch| - 1 ==> !branch[i].repeated
    decreases |branch|
  {
    if |branch| > 1 {
      var c, rest := branch[1], branch[1..];
      assert c in branch[0].children;
      assert forall i :: 0 <= i < |rest| - 1 ==> rest[i + 1] in rest[i].children by {
        forall i | 0 <= i < |rest| - 1 ensures rest[i + 1] in rest[i].children {
          assert branch[i + 1 + 1] in branch[i + 1].children;
        }
      }
      BranchesDoNotRepeat(g, c, ancestry + {t.nodeId}, rest);
      forall i | 0 <= i < |branch|
        ensures branch[i].repeated <==> branch[i].nodeId in ancestry || exists j :: 0 <= j < i && branch[j].nodeId == branch[i].nodeId
      {
        if i > 0 {
          RestRepeats(branch, ancestry, i);
        }
      }
      forall i | 0 <= i < |branch| - 1 ensures !branch[i].repeated {
        if i > 0 {
          assert branch[i] == rest[i - 1];
        }
      }
    }
  }

  lemma RestRepeats(branch: seq<FlowNode>, ancestry: set<Id>, i: nat)
    requires 0 < i < |branch|
    requires var rest := branch[1..];
             rest[i - 1].repeated <==> rest[i - 1].nodeId in ancestry + {branch[0].nodeId}
                                       || exists j :: 0 <= j < i - 1 && rest[j].nodeId == rest[i - 1].nodeId
    ensures branch[i].repeated <==> branch[i].nodeId in ancestry || exists j :: 0 <= j < i && branch[j].nodeId == branch[i].nodeId
  {
    var rest := branch[1..];
    if j :| 0 <= j < i - 1 && rest[j].nodeId == rest[i - 1].nodeId {
      assert branch[j + 1].nodeId == branch[i].nodeId;
    }
    if j :| 0 <= j < i && branch[j].nodeId == branch[i].nodeId {
      if j > 0 {
        assert rest[j - 1].nodeId == rest[i - 1].nodeId;
      }
    }
  }

  // ---------------------------------------------------------------- the whole tree

  /** The first start node of the list. */
  ghost predicate IsFirstStart(nodes: seq<Node>, i: nat): (b: bool)
    ensures b ==> i < |nodes|
  {
    i < |nodes| && nodes[i].kind == START && forall j :: 0 <= j < i ==> nodes[j].kind != START
  }

  function FirstStart(nodes: seq<Node>): (r: Option<Node>)
    ensures r.Some? ==> r.value in nodes && r.value.kind == START
    ensures r.None? ==> forall n :: n in nodes ==> n.kind != START
  {
    if nodes == [] then None else if nodes[0].kind == START then Some(nodes[0]) else FirstStart(nodes[1..])
  }

  /** The start node, or else the first of the ranking. */
  function RootOf(nodes: seq<Node>): (r: Node)
    requires nodes != []
    ensures r in nodes
  {
    var start := FirstStart(nodes);
    Matching.RankedNodes(nodes);
    assert |Matching.RankNodes(nodes)| == |nodes| by {
      assert |multiset(Matching.RankNodes(nodes))| == |multiset(nodes)|;
    }
    assert Matching.RankNodes(nodes)[0] in multiset(Matching.RankNodes(nodes));
    if start.Some? then start.value else Matching.RankNodes(nodes)[0]
  }

  /** The first start node, or, where there is none, the node that precedes all others. */
  ghost predicate IsRoot(nodes: seq<Node>, root: Node)
  {
    && root in nodes
    && ((exists i: nat :: IsFirstStart(nodes, i) && nodes[i] == root)
        || ((forall n :: n in nodes ==> n.kind != START) && forall n :: n in nodes && n != root ==> MatchingFacts.Precedes(root, n)))
  }

  lemma RootIs(nodes: seq<Node>)
    requires nodes != [] && UniqueIds(nodes)
    ensures IsRoot(nodes, RootOf(nodes))
  {
    hide Matching.RankNodes, UniqueIds, MatchingFacts.Precedes, Matching.Before;
    if FirstStart(nodes).Some? {
      var i := StartPlace(nodes);
    } else {
      var ranked := Matching.RankNodes(nodes);
      IndexFacts.RankedIsOrdered(nodes);
      PipelineFacts.SameMembers(ranked, nodes);
      assert nodes[0] in nodes;
      forall n | n in nodes && n != RootOf(nodes) ensures MatchingFacts.Precedes(RootOf(nodes), n) {
        var k :| 0 <= k < |ranked| && ranked[k] == n;
        MatchingFacts.PrecedesIff(ranked[0], n);
      }
    }
  }

  lemma {:induction false} StartPlace(nodes: seq<Node>) returns (i: nat)
    requires FirstStart(nodes).Some?
    ensures IsFirstStart(nodes, i) && nodes[i] == FirstStart(nodes).value
  {
    if nodes[0].kind == START {
      i := 0;
    } else {
      var k := StartPlace(nodes[1..]);
      i := k + 1;
      forall j | 0 <= j < i ensures nodes[j].kind != START {
        assert j > 0 ==> nodes[j] == nodes[1..][j - 1];
      }
    }
  }

  /** In the order of the bundle, the ids that no reference path reaches from the root. */
  ghost function Unreached(g: Graph, root: Id, nodes: seq<Node>): seq<Id>
  {
    if nodes == [] then [] else (if Reachable(g, root, nodes[0].id) then [] else [nodes[0].id]) + Unreached(g, root, nodes[1..])
  }

  function Outside(nodes: seq<Node>, visited: set<Id>): seq<Id>
  {
    if nodes == [] then [] else (if nodes[0].id in visited then [] else [nodes[0].id]) + Outside(nodes[1..], visited)
  }

  lemma {:induction false} OutsideIsUnreached(g: Graph, root: Id, nodes: seq<Node>, visited: set<Id>)
    requires forall n :: n in nodes ==> (n.id in visited <==> Reachable(g, root, n.id))
    ensures Outside(nodes, visited) == Unreached(g, root, nodes)
  {
    hide Reachable;
    if nodes != [] {
      OutsideIsUnreached(g, root, nodes[1..], visited);
    }
  }

  /** `buildFlowTree`: the orphans are, in the order of the bundle, exactly the nodes that no reference path reaches from
      the root. */
  method BuildFlowTree(nodes: seq<Node>) returns (roots: seq<FlowNode>, orphans: seq<Id>)
    requires UniqueIds(nodes)
    ensures nodes == [] ==> roots == [] && orphans == []
    ensures nodes != [] ==> |roots| == 1 && roots[0].nodeId == RootOf(nodes).id && Unfolds(Matching.ById(nodes), roots[0], {})
    ensures nodes != [] ==> IsRoot(nodes, RootOf(nodes)) && orphans == Unreached(Matching.ById(nodes), RootOf(nodes).id, nodes)
  {
    if nodes == [] {
      return [], [];
    }
    hide RootOf, IsRoot, Unfolds, Reachable, NodesIn, UniqueIds, Matching.ById, Unreached, Outside;
    RootIs(nodes);
    var root := RootOf(nodes);
    var b := new FlowTreeBuilder(nodes);
    KeysAreIds(nodes);
    UniqueById(nodes, root);
    var t := b.BuildNode(root, ROOT, {});
    roots := [t];
    orphans := Unvisited(nodes, b.visited);
    forall n | n in nodes ensures n.id in b.visited <==> Reachable(b.g, root.id, n.id) {
      TreeNodesAreExact(b.g, t, n.id);
    }
    OutsideIsUnreached(b.g, root.id, nodes, b.visited);
  }

  method Unvisited(nodes: seq<Node>, visited: set<Id>) returns (orphans: seq<Id>)
    ensures orphans == Outside(nodes, visited)
  {
    hide Outside;
    orphans := [];
    assert nodes[0..] == nodes;
    for i := 0 to |nodes|
      invariant orphans + Outside(nodes[i..], visited) == Outside(nodes, visited)
    {
      OutsideStep(nodes, i, visited);
      if nodes[i].id !in visited {
        orphans := orphans + [nodes[i].id];
      }
    }
    OutsideEnd(nodes, visited);
    assert orphans + [] == orphans;
  }

  lemma OutsideStep(nodes: seq<Node>, i: nat, visited: set<Id>)
    requires i < |nodes|
    ensures Outside(nodes[i..], visited) == (if nodes[i].id in visited then [] else [nodes[i].id]) + Outside(nodes[i + 1..], visited)
  {
    assert nodes[i..][0] == nodes[i] && nodes[i..][1..] == nodes[i + 1..];
  }

  lemma OutsideEnd(nodes: seq<Node>, visited: set<Id>)
    ensures Outside(nodes[|nodes|..], visited) == []
  {
  }

  lemma {:induction false} KeysAreIds(nodes: seq<Node>)
    ensures forall id :: id in Matching.ById(nodes) ==> Matching.ById(nodes)[id].id == id
  {
    if nodes != [] {
      KeysAreIds(nodes[..|nodes| - 1]);
    }
  }
}
