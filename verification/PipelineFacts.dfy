/** Which stage of the pipeline answers, and which node. */
module PipelineFacts {
  import opened Prelude
  import opened Dialogue
  import opened Matching
  import opened MatchingFacts
  import opened ApiCalls
  import opened Resolver
  import opened IndexFacts
  import SurveySessions
  import OutputExecutor

  // ---------------------------------------------------------------- the node that answers

  /** What decides whether a node answers a text. */
  datatype Cue = Cue(norm: string, intentId: Option<Id>, form: Option<Id>)

  /** A node that may answer and that the cue suits. */
  ghost predicate Eligible(lib: Lib, b: Bundle, cue: Cue, n: Node)
  {
    n.enabled && n.kind != FALLBACK && Suits(lib, b, cue.norm, cue.intentId, cue.form, n)
  }

  ghost predicate NothingEligible(lib: Lib, b: Bundle, cue: Cue) { forall n :: n in b.nodes ==> !Eligible(lib, b, cue, n) }

  /** `n` is eligible and comes before every other eligible node. */
  ghost predicate Foremost(lib: Lib, b: Bundle, cue: Cue, n: Node)
  {
    n in b.nodes && Eligible(lib, b, cue, n) && forall m :: m in b.nodes && m != n && Eligible(lib, b, cue, m) ==> Precedes(n, m)
  }

  lemma {:induction false} FirstMatchIsForemost(lib: Lib, b: Bundle, cue: Cue, ranked: seq<Node>)
    requires Ordered(ranked)
    ensures var r := FirstMatch(lib, b, cue.norm, cue.intentId, cue.form, ranked);
            && (r.None? ==> forall n :: n in ranked ==> !Eligible(lib, b, cue, n))
            && (r.Some? ==> Eligible(lib, b, cue, r.value)
                            && forall m :: m in ranked && m != r.value && Eligible(lib, b, cue, m) ==> Precedes(r.value, m))
  {
    hide NodeMatches, Suits, Before, Precedes;
    if ranked != [] {
      FirstMatchIsForemost(lib, b, cue, ranked[1..]);
      SuitsIff(lib, b, cue.norm, cue.intentId, cue.form, ranked[0]);
      forall m | m in ranked[1..] ensures Precedes(ranked[0], m) {
        PrecedesIff(ranked[0], m);
        var i :| 0 <= i < |ranked[1..]| && ranked[1..][i] == m;
        assert ranked[i + 1] == m;
      }
      assert forall m :: m in ranked ==> m == ranked[0] || m in ranked[1..];
    }
  }

  lemma ChosenNode(lib: Lib, b: Bundle, cue: Cue)
    requires UniqueIds(b.nodes)
    ensures var r := FirstMatch(lib, b, cue.norm, cue.intentId, cue.form, RankNodes(b.nodes));
            && (r.None? <==> NothingEligible(lib, b, cue))
            && (r.Some? ==> Foremost(lib, b, cue, r.value))
  {
    hide FirstMatch, RankNodes, Eligible, Ordered, Precedes, UniqueIds;
    RankedIsOrdered(b.nodes);
    SameMembers(RankNodes(b.nodes), b.nodes);
    FirstMatchIsForemost(lib, b, cue, RankNodes(b.nodes));
  }

  lemma SameMembers(xs: seq<Node>, ys: seq<Node>)
    requires multiset(xs) == multiset(ys)
    ensures forall n :: n in xs <==> n in ys
  {
    forall n ensures n in xs <==> n in ys {
      assert n in xs <==> n in multiset(xs);
      assert n in ys <==> n in multiset(ys);
    }
  }

  /** The intent that node conditions see: matched by an example, settled by a question, or confirmed semantically. */
  function SeenIntent(t: Turn, norm: string, boost: seq<Id>, clarified: Option<Id>): Option<Id>
  {
    var intent := IntentFor(t, norm, boost);
    (if intent.Some? then Some(intent.value.intentId) else None).OrElse(clarified).OrElse(ConfirmedIntentId(t))
  }

  function CueOf(t: Turn, norm: string, s: Site, boost: seq<Id>, clarified: Option<Id>): Cue
  {
    Cue(norm, SeenIntent(t, norm, boost, clarified), if s.completedForm.Some? then Some(s.completedForm.value.contextVariableId) else None)
  }

  /** A text runs the foremost eligible node when there is one, whatever questions or intents match as well. */
  lemma ForemostNodeAnswers(t: Turn, norm: string, s: Site, boost: seq<Id>, clarified: Option<Id>)
    returns (n: Option<Node>)
    requires UniqueIds(t.bundle.nodes) && t.options.index.None?
    ensures var cue := CueOf(t, norm, s, boost, clarified);
            && (n.None? <==> NothingEligible(t.lib, t.bundle, cue))
            && (n.Some? ==> Foremost(t.lib, t.bundle, cue, n.value)
                            && Answer(t, norm, s, boost, clarified)
                               == RunNode(t.lib, t.bundle, t.now, s.(matchedIntentId := cue.intentId), n.value))
            && (n.None? ==> Answer(t, norm, s, boost, clarified).matchedNodeId.None? || FindFallback(t.bundle.nodes).Some?)
  {
    hide FirstMatch, RankNodes, RunNode, NothingEligible, Foremost, IntentFor, ConfirmedIntentId, FaqReply, FindFallback, UniqueIds;
    var cue := CueOf(t, norm, s, boost, clarified);
    ChosenNode(t.lib, t.bundle, cue);
    n := FirstMatch(t.lib, t.bundle, norm, cue.intentId, cue.form, RankNodes(t.bundle.nodes));
    if n.None? {
      NoNodeInReply(t, norm, s, cue.intentId);
      NoNodeInFallback(t, s.(matchedIntentId := cue.intentId));
    }
  }

  lemma NoNodeInReply(t: Turn, norm: string, s: Site, intentId: Option<Id>)
    ensures FaqReply(t, norm, s, intentId).Some? ==> FaqReply(t, norm, s, intentId).value.matchedNodeId.None?
  {
    hide MatchFaq, FindFaq, CandidateButtons, MergeSurvey;
  }

  lemma NoNodeInFallback(t: Turn, s: Site)
    ensures FindFallback(t.bundle.nodes).None? ==> Fallback(t, s).matchedNodeId.None?
  {
    hide FindFallback, OldestErrorFaq, RunNode, MergeSurvey;
  }

  // ---------------------------------------------------------------- pressing a button

  function Switch(t: Turn): SurveyEvent
    requires t.surveys.session.Some?
  {
    Abandoned(SurveySessions.AttemptOf(t.surveys.session.value), Switched)
  }

  lemma SiteRunSwitches(t: Turn, n: Node)
    requires t.surveys.session.Some?
    ensures var r := RunNode(t.lib, t.bundle, t.now, ButtonSite(t), n);
            && (r.apiCall.None? ==> r.survey.Some? && [Switch(t)] <= r.survey.value.events)
            && (r.apiCall.Some? ==> r.apiCall.value.resume.survey.Some?
                                    && r.apiCall.value.resume.survey.value.eventsSoFar == [Switch(t)]
                                    && r.apiCall.value.resume.sessionFallback == CancelledSession(t))
  {
    hide OutputExecutor.Execute, CarryWorkflow, CancelledSession;
  }

  /** Pressing a node button abandons the running survey with the reason `Switched`, now or when the pending external
      call returns, whichever node it leads to. */
  lemma ButtonAbandonsSurvey(t: Turn, nodeId: Id)
    requires t.surveys.session.Some?
    ensures var r := RespondToButton(t, nodeId);
            && (r.apiCall.None? ==> r.survey.Some? && [Switch(t)] <= r.survey.value.events)
            && (r.apiCall.Some? ==> r.apiCall.value.resume.survey.Some? && r.apiCall.value.resume.survey.value.eventsSoFar == [Switch(t)])
  {
    hide RunNode, LookupNode, FindFallback, OldestErrorFaq, CancelledSession;
    forall n ensures var r := RunNode(t.lib, t.bundle, t.now, ButtonSite(t), n);
      && (r.apiCall.None? ==> r.survey.Some? && [Switch(t)] <= r.survey.value.events)
      && (r.apiCall.Some? ==> r.apiCall.value.resume.survey.Some? && r.apiCall.value.resume.survey.value.eventsSoFar == [Switch(t)]) {
      SiteRunSwitches(t, n);
    }
  }
}
