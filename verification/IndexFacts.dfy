/** A turn does not depend on the prebuilt index, and the ranking does not depend on the order in which nodes are stored. */
module IndexFacts {
  import opened Prelude
  import opened Dialogue
  import opened Matching
  import opened Envelopes
  import opened ApiCalls
  import opened Resolver
  import opened Turns

  // ---------------------------------------------------------------- a strict total order

  lemma {:induction false} LexIrreflexive(a: string)
    ensures !LexLess(a, a)
  {
    if a != [] {
      LexIrreflexive(a[1..]);
    }
  }

  lemma {:induction false} LexTransitive(a: string, b: string, c: string)
    requires LexLess(a, b) && LexLess(b, c)
    ensures LexLess(a, c)
    decreases |a|
  {
    if a != [] && a[0] == b[0] && b[0] == c[0] {
      LexTransitive(a[1..], b[1..], c[1..]);
    }
  }

  lemma {:induction false} LexTotal(a: string, b: string)
    ensures LexLess(a, b) || LexLess(b, a) || a == b
    decreases |a|
  {
    if a != [] && b != [] && a[0] == b[0] {
      LexTotal(a[1..], b[1..]);
      assert a == [a[0]] + a[1..] && b == [b[0]] + b[1..];
    }
  }

  lemma BeforeIrreflexive(a: Node)
    ensures !Before(a, a)
  {
    LexIrreflexive(a.id);
  }

  lemma BeforeTransitive(a: Node, b: Node, c: Node)
    requires Before(a, b) && Before(b, c)
    ensures Before(a, c)
  {
    hide LexLess, Conditions;
    if LexLess(a.id, b.id) && LexLess(b.id, c.id) {
      LexTransitive(a.id, b.id, c.id);
    }
  }

  lemma BeforeTotal(a: Node, b: Node)
    requires a.id != b.id
    ensures Before(a, b) || Before(b, a)
  {
    hide LexLess, Conditions;
    LexTotal(a.id, b.id);
  }

  // ---------------------------------------------------------------- the ranking

  ghost predicate Ordered(ns: seq<Node>) { forall i, j :: 0 <= i < j < |ns| ==> Before(ns[i], ns[j]) }

  ghost predicate NotAmong(n: Node, ns: seq<Node>) { forall i :: 0 <= i < |ns| ==> ns[i].id != n.id }

  lemma {:induction false} InsertKeepsOrder(n: Node, ranked: seq<Node>)
    requires Ordered(ranked) && NotAmong(n, ranked)
    ensures Ordered(InsertNode(n, ranked))
  {
    hide Before;
    if ranked != [] {
      var rest := ranked[1..];
      if Before(n, ranked[0]) {
        forall i | 0 <= i < |ranked| ensures Before(n, ranked[i]) {
          if i > 0 {
            BeforeTransitive(n, ranked[0], ranked[i]);
          }
        }
      } else {
        BeforeTotal(n, ranked[0]);
        InsertKeepsOrder(n, rest);
        var tail := InsertNode(n, rest);
        InsertedNodes(n, rest);
        forall i | 0 <= i < |tail| ensures Before(ranked[0], tail[i]) {
          assert tail[i] in multiset(tail);
          assert tail[i] == n || tail[i] in rest;
        }
      }
    }
  }

  lemma {:induction false} RankedIsOrdered(nodes: seq<Node>)
    requires UniqueIds(nodes)
    ensures Ordered(RankNodes(nodes)) && multiset(RankNodes(nodes)) == multiset(nodes)
  {
    hide Before, InsertNode;
    RankedNodes(nodes);
    if nodes != [] {
      var front, last := nodes[..|nodes| - 1], nodes[|nodes| - 1];
      RankedIsOrdered(front);
      RankedNodes(front);
      var ranked := RankNodes(front);
      forall i | 0 <= i < |ranked| ensures ranked[i].id != last.id {
        assert ranked[i] in multiset(ranked);
        assert ranked[i] in front;
      }
      InsertKeepsOrder(last, ranked);
    }
  }

  lemma FirstIsLeast(xs: seq<Node>, ys: seq<Node>)
    requires Ordered(xs) && Ordered(ys) && multiset(xs) == multiset(ys) && xs != []
    ensures ys != [] && xs[0] == ys[0]
  {
    hide Before;
    assert xs[0] in multiset(xs);
    assert ys[0] in multiset(ys);
    assert xs[0] in ys && ys[0] in xs;
    if xs[0] != ys[0] {
      assert Before(xs[0], ys[0]) && Before(ys[0], xs[0]);
      BeforeTransitive(xs[0], ys[0], xs[0]);
      BeforeIrreflexive(xs[0]);
    }
  }

  lemma {:induction false} OneOrder(xs: seq<Node>, ys: seq<Node>)
    requires Ordered(xs) && Ordered(ys) && multiset(xs) == multiset(ys)
    ensures xs == ys
  {
    hide Before;
    if xs == [] {
      assert |multiset(ys)| == |ys|;
    } else {
      FirstIsLeast(xs, ys);
      assert xs == [xs[0]] + xs[1..] && ys == [ys[0]] + ys[1..];
      assert multiset(xs[1..]) == multiset(xs) - multiset{xs[0]};
      OneOrder(xs[1..], ys[1..]);
    }
  }

  lemma {:induction false} SameIdsDistinct(nodes: seq<Node>, stored: seq<Node>)
    requires UniqueIds(nodes) && multiset(nodes) == multiset(stored)
    ensures UniqueIds(stored)
  {
    forall i, j | 0 <= i < j < |stored| ensures stored[i].id != stored[j].id {
      TwicePresent(stored, i, j);
      assert multiset(nodes)[stored[i]] >= 1 && multiset(nodes)[stored[j]] >= 1;
      var k :| 0 <= k < |nodes| && nodes[k] == stored[i];
      var l :| 0 <= l < |nodes| && nodes[l] == stored[j];
      if stored[i] == stored[j] {
        OnceOnly(nodes, stored[i]);
      }
    }
  }

  lemma TwicePresent(s: seq<Node>, i: nat, j: nat)
    requires i < j < |s|
    ensures s[i] in multiset(s) && s[j] in multiset(s)
    ensures s[i] == s[j] ==> multiset(s)[s[i]] >= 2
  {
    assert s == s[..i] + [s[i]] + s[i + 1..j] + [s[j]] + s[j + 1..];
  }

  lemma {:induction false} OnceOnly(ns: seq<Node>, n: Node)
    requires UniqueIds(ns)
    ensures multiset(ns)[n] <= 1
  {
    if ns != [] {
      var front, last := ns[..|ns| - 1], ns[|ns| - 1];
      assert ns == front + [last];
      OnceOnly(front, n);
      assert n == last ==> n !in front;
    }
  }

  /** `rankNodes` gives one list for every storage order of the same nodes. */
  lemma RankingIgnoresStorage(nodes: seq<Node>, stored: seq<Node>)
    requires UniqueIds(nodes) && multiset(nodes) == multiset(stored)
    ensures RankNodes(nodes) == RankNodes(stored)
  {
    hide RankNodes, Ordered, UniqueIds;
    SameIdsDistinct(nodes, stored);
    RankedIsOrdered(nodes);
    RankedIsOrdered(stored);
    OneOrder(RankNodes(nodes), RankNodes(stored));
  }

  lemma {:induction false} MatchIgnoresStorage(lib: Lib, b: Bundle, stored: seq<Node>, norm: string, intentId: Option<Id>,
                                               form: Option<Id>, ranked: seq<Node>)
    ensures FirstMatch(lib, b, norm, intentId, form, ranked) == FirstMatch(lib, b.(nodes := stored), norm, intentId, form, ranked)
  {
    hide NodeMatches;
    if ranked != [] {
      SameNodeMatches(lib, b, stored, norm, intentId, form, ranked[0]);
      MatchIgnoresStorage(lib, b, stored, norm, intentId, form, ranked[1..]);
    }
  }

  lemma SameNodeMatches(lib: Lib, b: Bundle, stored: seq<Node>, norm: string, intentId: Option<Id>, form: Option<Id>, n: Node)
    ensures NodeMatches(lib, b, norm, intentId, form, n) == NodeMatches(lib, b.(nodes := stored), norm, intentId, form, n)
  {
    hide ExistingIntents, ExistingKeywords, NamesKeyword, FindForm;
  }

  /** The node that answers a text does not depend on the order in which the nodes are stored. */
  lemma ChoiceIgnoresStorage(lib: Lib, b: Bundle, stored: seq<Node>, norm: string, intentId: Option<Id>, form: Option<Id>)
    requires UniqueIds(b.nodes) && multiset(b.nodes) == multiset(stored)
    ensures FirstMatch(lib, b, norm, intentId, form, RankNodes(b.nodes))
         == FirstMatch(lib, b.(nodes := stored), norm, intentId, form, RankNodes(stored))
  {
    hide FirstMatch, RankNodes, UniqueIds;
    RankingIgnoresStorage(b.nodes, stored);
    MatchIgnoresStorage(lib, b, stored, norm, intentId, form, RankNodes(b.nodes));
  }

  // ---------------------------------------------------------------- examples without text

  lemma {:induction false} WithTextLast(es: seq<Example>)
    requires es != []
    ensures WithText(es) == WithText(es[..|es| - 1]) + if es[|es| - 1].norm == [] then [] else [es[|es| - 1]]
  {
    if |es| > 1 {
      WithTextLast(es[1..]);
      assert es[1..][..|es| - 2] == es[..|es| - 1][1..];
    }
  }

  function BestSoFar(front: seq<nat>, last: nat): Option<nat>
  {
    var best := Best(front);
    if last > (if best.Some? then front[best.value] else 0) then Some(|front|) else best
  }

  lemma BestStep(input: string, front: seq<Example>, last: Example, boost: seq<Id>, exactOnly: bool)
    ensures Best(Scores(input, front + [last], boost, exactOnly))
         == BestSoFar(Scores(input, front, boost, exactOnly), Score(input, last, boost, exactOnly))
  {
    hide Score;
    var scores := Scores(input, front + [last], boost, exactOnly);
    assert scores[..|front|] == Scores(input, front, boost, exactOnly);
  }

  /** The examples that the index leaves out never win. */
  lemma {:induction false} SameBest(input: string, es: seq<Example>, boost: seq<Id>, exactOnly: bool)
    ensures var all, some := Best(Scores(input, es, boost, exactOnly)), Best(Scores(input, WithText(es), boost, exactOnly));
            (all.None? <==> some.None?) && (all.Some? ==> es[all.value] == WithText(es)[some.value])
  {
    hide Score, Best, WithText, Scores;
    if es == [] {
      assert WithText(es) == [] by { WithNoText(); }
    } else {
      var front, last := es[..|es| - 1], es[|es| - 1];
      SameBest(input, front, boost, exactOnly);
      WithTextLast(es);
      assert es == front + [last];
      BestStep(input, front, last, boost, exactOnly);
      if last.norm == [] {
        NoTextNoScore(input, last, boost, exactOnly);
        assert WithText(es) == WithText(front);
      } else {
        assert WithText(es) == WithText(front) + [last];
        BestStep(input, WithText(front), last, boost, exactOnly);
      }
    }
  }

  lemma WithNoText()
    ensures WithText([]) == []
  {
  }

  lemma NoTextNoScore(input: string, e: Example, boost: seq<Id>, exactOnly: bool)
    ensures e.norm == [] ==> Score(input, e, boost, exactOnly) == 0
  {
  }

  lemma SameExample(input: string, es: seq<Example>, boost: seq<Id>, exactOnly: bool)
    ensures ChooseExample(input, WithText(es), boost, exactOnly) == ChooseExample(input, es, boost, exactOnly)
  {
    hide Best, Scores, WithText;
    SameBest(input, es, boost, exactOnly);
  }

  // ---------------------------------------------------------------- lookups by id

  lemma {:induction false} FindNodeLast(nodes: seq<Node>, id: Id)
    requires nodes != [] && UniqueIds(nodes)
    ensures FindNode(nodes, id)
         == if nodes[|nodes| - 1].id == id then Some(nodes[|nodes| - 1]) else FindNode(nodes[..|nodes| - 1], id)
  {
    if |nodes| > 1 {
      FindNodeLast(nodes[1..], id);
      assert nodes[1..][..|nodes| - 2] == nodes[..|nodes| - 1][1..];
    }
  }

  lemma {:induction false} SameLookup(nodes: seq<Node>, id: Id)
    requires UniqueIds(nodes)
    ensures FindNode(nodes, id) == if id in ById(nodes) then Some(ById(nodes)[id]) else None
  {
    if nodes != [] {
      FindNodeLast(nodes, id);
      SameLookup(nodes[..|nodes| - 1], id);
    }
  }

  // ---------------------------------------------------------------- whole turns

  /** The same options with the index of the bundle. */
  function Indexed(lib: Lib, b: Bundle, o: Options): Options { o.(index := Some(IndexOf(lib, b))) }

  function Unindexed(o: Options): Options { o.(index := None) }

  lemma SameAnswer(t: Turn, u: Turn, norm: string, s: Site, boost: seq<Id>, clarified: Option<Id>)
    requires u == t.(options := Indexed(t.lib, t.bundle, t.options)) && t.options.index.None?
    ensures Answer(u, norm, s, boost, clarified) == Answer(t, norm, s, boost, clarified)
  {
    hide ChooseExample, RankNodes, AllExamples, FirstMatch, RunNode, HasIntent, FirstExample, WithText, ById;
    SameExample(norm, AllExamples(t.lib, t.bundle.intents), boost, t.options.semantic.Some?);
    assert Ranking(u) == Ranking(t);
    SameFaqReply(t, u, norm, s);
    SameFallback(t, u);
  }

  lemma SameFaqReply(t: Turn, u: Turn, norm: string, s: Site)
    requires u == t.(options := Indexed(t.lib, t.bundle, t.options)) && t.options.index.None?
    ensures forall i :: FaqReply(u, norm, s, i) == FaqReply(t, norm, s, i)
  {
    hide MatchFaq, FindFaq, CandidateButtons, IndexOf;
  }

  lemma SameFallback(t: Turn, u: Turn)
    requires u == t.(options := Indexed(t.lib, t.bundle, t.options)) && t.options.index.None?
    ensures forall s :: Fallback(u, s) == Fallback(t, s)
  {
    hide RunNode, FindFallback, OldestErrorFaq, IndexOf;
  }

  lemma SameDisambiguation(t: Turn, u: Turn, norm: string, s: Site, pending: Option<PendingClarify>)
    requires u == t.(options := Indexed(t.lib, t.bundle, t.options)) && t.options.index.None?
    ensures Disambiguate(u, norm, s, pending) == Disambiguate(t, norm, s, pending)
  {
    hide Answer, ResolveHomonym, MeaningByHint, MeaningByLabel, MeaningByWord, IndexOf;
    forall boost, clarified ensures Answer(u, norm, s, boost, clarified) == Answer(t, norm, s, boost, clarified) {
      SameAnswer(t, u, norm, s, boost, clarified);
    }
  }

  lemma SameFormStage(t: Turn, u: Turn, raw: string, carry: seq<Output>, events: seq<SurveyEvent>, pending: Option<PendingClarify>)
    requires u == t.(options := Indexed(t.lib, t.bundle, t.options)) && t.options.index.None?
    ensures FormStage(u, raw, carry, events, pending) == FormStage(t, raw, carry, events, pending)
  {
    hide Disambiguate, ContextForms.Step, StructureBroken, FindForm, IndexOf;
    forall norm, s, p ensures Disambiguate(u, norm, s, p) == Disambiguate(t, norm, s, p) {
      SameDisambiguation(t, u, norm, s, p);
    }
  }

  lemma SameResponse(t: Turn, u: Turn, input: string, pending: Option<PendingClarify>)
    requires u == t.(options := Indexed(t.lib, t.bundle, t.options)) && t.options.index.None?
    ensures Respond(u, input, pending) == Respond(t, input, pending)
  {
    hide FormStage, SurveySessions.Step, RunNode, FindSurvey, FindNode, FindEnabled, PushCompleted, IndexOf;
    forall raw, carry, events, p ensures FormStage(u, raw, carry, events, p) == FormStage(t, raw, carry, events, p) {
      SameFormStage(t, u, raw, carry, events, p);
    }
  }

  lemma SameButtonResponse(t: Turn, u: Turn, id: Id)
    requires u == t.(options := Indexed(t.lib, t.bundle, t.options)) && t.options.index.None? && UniqueIds(t.bundle.nodes)
    ensures RespondToButton(u, id) == RespondToButton(t, id)
  {
    hide RunNode, Fallback, FindNode, ById, RankNodes, AllExamples, WithText;
    SameLookup(t.bundle.nodes, id);
    SameFallback(t, u);
  }

  /** A turn with the prebuilt index is the turn without it. */
  lemma IndexChangesNothing(lib: Lib, b: Bundle, now: Time, o: Options, input: TurnInput, raw: RawState)
    requires UniqueIds(b.nodes)
    ensures ResolveTurn(lib, b, now, Indexed(lib, b, o), input, raw) == ResolveTurn(lib, b, now, Unindexed(o), input, raw)
  {
    hide Respond, RespondToButton, Sanitize, ResumeTurn, Settle, IndexOf, UniqueIds;
    var plain, fast := Unindexed(o), Indexed(lib, b, o);
    var before := Sanitize(lib, raw, b, now, plain.StateLimits());
    var t, u := TurnOf(lib, b, now, plain, before.state), TurnOf(lib, b, now, fast, before.state);
    assert u == t.(options := Indexed(t.lib, t.bundle, t.options));
    match input {
      case Message(text) => SameResponse(t, u, text, before.state.pending);
      case NodeButton(id) => SameButtonResponse(t, u, id);
    }
  }
}
