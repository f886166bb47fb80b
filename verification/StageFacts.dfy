/** What one text comes to, stage by stage: empty, taken by the survey, taken by the form, settling a question, clear or
    unclear, and then answered (packages/dialogue-engine/src/resolver.ts). */
module StageFacts {
  import opened Prelude
  import opened Dialogue
  import opened Matching
  import opened Envelopes
  import opened ApiCalls
  import opened Resolver
  import opened PipelineFacts
  import opened AnswerFacts
  import ContextForms
  import IndexFacts
  import SurveySessions

  // ---------------------------------------------------------------- hints

  ghost predicate HintedBy(lib: Lib, norm: string, m: Meaning)
  {
    exists j :: 0 <= j < |m.hints| && lib.containsWord(norm, lib.normalize(m.hints[j]))
  }

  lemma {:induction false} HintNamed(lib: Lib, norm: string, hints: seq<string>)
    ensures NamesHint(lib, norm, hints) <==> exists j :: 0 <= j < |hints| && lib.containsWord(norm, lib.normalize(hints[j]))
  {
    if hints != [] {
      HintNamed(lib, norm, hints[1..]);
      assert forall j :: 0 < j < |hints| ==> hints[j] == hints[1..][j - 1];
    }
  }

  /** The hints single out meaning number `k`. */
  ghost predicate OnlyHinted(lib: Lib, norm: string, ms: seq<Meaning>, k: int)
  {
    0 <= k < |ms| && HintedBy(lib, norm, ms[k]) && forall j :: 0 <= j < |ms| && j != k ==> !HintedBy(lib, norm, ms[j])
  }

  ghost predicate NoneHinted(lib: Lib, norm: string, ms: seq<Meaning>)
  {
    forall j :: 0 <= j < |ms| ==> !HintedBy(lib, norm, ms[j])
  }

  lemma {:induction false} HintedOnce(lib: Lib, norm: string, ms: seq<Meaning>) returns (k: int)
    ensures var h := Hinted(lib, norm, ms);
      && (h == [] <==> NoneHinted(lib, norm, ms))
      && (|h| == 1 ==> OnlyHinted(lib, norm, ms, k) && h == [ms[k]])
      && ((exists j :: OnlyHinted(lib, norm, ms, j)) ==> |h| == 1)
  {
    hide HintedBy, NamesHint;
    k := 0;
    if ms != [] {
      var rest := ms[1..];
      k := HintedOnce(lib, norm, rest);
      HintIs(lib, norm, ms[0]);
      assert forall j :: 0 < j < |ms| ==> ms[j] == rest[j - 1];
      assert forall j :: OnlyHinted(lib, norm, ms, j) && j > 0 ==> OnlyHinted(lib, norm, rest, j - 1);
      k := if HintedBy(lib, norm, ms[0]) then 0 else k + 1;
    }
  }

  lemma HintIs(lib: Lib, norm: string, m: Meaning)
    ensures NamesHint(lib, norm, m.hints) <==> HintedBy(lib, norm, m)
  {
    HintNamed(lib, norm, m.hints);
  }

  // ---------------------------------------------------------------- the answer to a pending question

  ghost predicate Labelled(lib: Lib, norm: string, m: Meaning) { lib.normalize(m.caption) == norm }

  ghost predicate Mentioned(lib: Lib, norm: string, m: Meaning) { lib.containsWord(norm, lib.normalize(m.caption)) }

  /** The first meaning of that label; without one the first whose label is in the text; without one the first hinted. */
  ghost predicate Meant(lib: Lib, norm: string, ms: seq<Meaning>, k: int)
  {
    && 0 <= k < |ms|
    && if exists j :: 0 <= j < |ms| && Labelled(lib, norm, ms[j])
       then Labelled(lib, norm, ms[k]) && forall j :: 0 <= j < k ==> !Labelled(lib, norm, ms[j])
       else if exists j :: 0 <= j < |ms| && Mentioned(lib, norm, ms[j])
       then Mentioned(lib, norm, ms[k]) && forall j :: 0 <= j < k ==> !Mentioned(lib, norm, ms[j])
       else HintedBy(lib, norm, ms[k]) && forall j :: 0 <= j < k ==> !HintedBy(lib, norm, ms[j])
  }

  lemma {:induction false} FirstLabelled(lib: Lib, ms: seq<Meaning>, norm: string) returns (k: int)
    ensures var r := MeaningByLabel(lib, ms, norm);
      && (r.Some? ==> 0 <= k < |ms| && r.value == ms[k] && Labelled(lib, norm, ms[k]) && forall j :: 0 <= j < k ==> !Labelled(lib, norm, ms[j]))
      && (r.None? ==> forall j :: 0 <= j < |ms| ==> !Labelled(lib, norm, ms[j]))
  {
    k := 0;
    if ms != [] && lib.normalize(ms[0].caption) != norm {
      k := FirstLabelled(lib, ms[1..], norm);
      assert forall j :: 0 < j < |ms| ==> ms[j] == ms[1..][j - 1];
      k := k + 1;
    }
  }

  lemma {:induction false} FirstMentioned(lib: Lib, ms: seq<Meaning>, norm: string) returns (k: int)
    ensures var r := MeaningByWord(lib, ms, norm);
      && (r.Some? ==> 0 <= k < |ms| && r.value == ms[k] && Mentioned(lib, norm, ms[k]) && forall j :: 0 <= j < k ==> !Mentioned(lib, norm, ms[j]))
      && (r.None? ==> forall j :: 0 <= j < |ms| ==> !Mentioned(lib, norm, ms[j]))
  {
    k := 0;
    if ms != [] && !lib.containsWord(norm, lib.normalize(ms[0].caption)) {
      k := FirstMentioned(lib, ms[1..], norm);
      assert forall j :: 0 < j < |ms| ==> ms[j] == ms[1..][j - 1];
      k := k + 1;
    }
  }

  lemma {:induction false} FirstHinted(lib: Lib, ms: seq<Meaning>, norm: string) returns (k: int)
    ensures var r := MeaningByHint(lib, ms, norm);
      && (r.Some? ==> 0 <= k < |ms| && r.value == ms[k] && HintedBy(lib, norm, ms[k]) && forall j :: 0 <= j < k ==> !HintedBy(lib, norm, ms[j]))
      && (r.None? ==> forall j :: 0 <= j < |ms| ==> !HintedBy(lib, norm, ms[j]))
  {
    hide HintedBy, NamesHint;
    k := 0;
    if ms != [] {
      HintIs(lib, norm, ms[0]);
      if !NamesHint(lib, norm, ms[0].hints) {
        k := FirstHinted(lib, ms[1..], norm);
        assert forall j :: 0 < j < |ms| ==> ms[j] == ms[1..][j - 1];
        k := k + 1;
      }
    }
  }

  /** The pending question is alive, asks about this homonym, and the text means this meaning of it. */
  ghost predicate Settles(t: Turn, norm: string, pending: Option<PendingClarify>, i: int, k: int)
  {
    var dicts := t.bundle.homonyms;
    && pending.Some? && t.now - pending.value.askedAt <= t.options.ClarifyTtl()
    && 0 <= i < |dicts| && dicts[i].id == pending.value.homonymId && (forall j :: 0 <= j < i ==> dicts[j].id != dicts[i].id)
    && Meant(t.lib, norm, dicts[i].meanings, k)
  }

  lemma {:induction false} HomonymAt(dicts: seq<Homonym>, id: Id) returns (i: int)
    ensures var r := FindHomonym(dicts, id);
      r.Some? ==> 0 <= i < |dicts| && r.value == dicts[i] && dicts[i].id == id && forall j :: 0 <= j < i ==> dicts[j].id != id
  {
    i := 0;
    if dicts != [] && dicts[0].id != id {
      i := HomonymAt(dicts[1..], id);
      assert forall j :: 0 < j < |dicts| ==> dicts[j] == dicts[1..][j - 1];
      i := i + 1;
    }
  }

  lemma MeaningMeant(lib: Lib, norm: string, ms: seq<Meaning>) returns (k: int)
    ensures var r := MeaningByLabel(lib, ms, norm).OrElse(MeaningByWord(lib, ms, norm)).OrElse(MeaningByHint(lib, ms, norm));
      && (r.Some? ==> Meant(lib, norm, ms, k) && r.value == ms[k])
      && (r.None? ==> forall j :: !Meant(lib, norm, ms, j))
  {
    hide HintedBy, Labelled, Mentioned, MeaningByLabel, MeaningByWord, MeaningByHint;
    var a := FirstLabelled(lib, ms, norm);
    var b := FirstMentioned(lib, ms, norm);
    var c := FirstHinted(lib, ms, norm);
    k := if MeaningByLabel(lib, ms, norm).Some? then a else if MeaningByWord(lib, ms, norm).Some? then b else c;
  }

  lemma ClarifiedMeans(t: Turn, norm: string, pending: Option<PendingClarify>) returns (i: int, k: int)
    ensures var r := Clarified(t, norm, pending);
      && (r.Some? ==> Settles(t, norm, pending, i, k) && r.value == t.bundle.homonyms[i].meanings[k])
      && (r.None? ==> forall a, b :: !Settles(t, norm, pending, a, b))
  {
    hide MeaningByLabel, MeaningByWord, MeaningByHint, Meant, FindHomonym;
    i, k := 0, 0;
    if pending.Some? {
      i := HomonymAt(t.bundle.homonyms, pending.value.homonymId);
      var dict := FindHomonym(t.bundle.homonyms, pending.value.homonymId);
      if dict.Some? {
        k := MeaningMeant(t.lib, norm, dict.value.meanings);
      }
    }
  }

  // ---------------------------------------------------------------- a text that neither survey nor form takes

  /** The first homonym in the text is not singled out by hints, and its policy is to ask. */
  ghost predicate MustAsk(lib: Lib, norm: string, dicts: seq<Homonym>, i: int)
  {
    FirstNamed(lib, norm, dicts, i) && dicts[i].policy == ASK && forall k :: !OnlyHinted(lib, norm, dicts[i].meanings, k)
  }

  /** The intent that the first homonym in the text speaks for: that of the one hinted meaning, or else, where that is the
      policy, that of the default meaning. */
  ghost predicate SpeaksFor(lib: Lib, norm: string, dicts: seq<Homonym>, boost: seq<Id>)
  {
    || ((forall i :: !FirstNamed(lib, norm, dicts, i)) && boost == [])
    || exists i :: FirstNamed(lib, norm, dicts, i) && SpeaksForOne(lib, norm, dicts[i], boost)
  }

  ghost predicate SpeaksForOne(lib: Lib, norm: string, dict: Homonym, boost: seq<Id>)
  {
    if exists k :: OnlyHinted(lib, norm, dict.meanings, k)
    then exists k :: OnlyHinted(lib, norm, dict.meanings, k) && boost == IdsOf(dict.meanings[k].intentId)
    else if dict.policy == DEFAULT_MEANING && dict.defaultMeaning.Some? && dict.defaultMeaning.value < |dict.meanings|
    then boost == IdsOf(dict.meanings[dict.defaultMeaning.value].intentId)
    else boost == []
  }

  function IdsOf(id: Option<Id>): seq<Id> { if id.GetOr([]) == [] then [] else [id.value] }

  /** A question back about homonym number `i`. */
  ghost predicate Asks(t: Turn, s: Site, i: int, r: Resolution)
    requires 0 <= i < |t.bundle.homonyms|
  {
    var dict := t.bundle.homonyms[i];
    r.pending == Some(PendingClarify(dict.id, dict.word, t.now)) && exists o :: AskedAs(dict, o) && EndsWith(r, s, o)
  }

  /** The answer to a pending question decides the intent; without one an unclear homonym is asked about; otherwise the
      text is answered, with the intent that the homonym speaks for preferred. */
  ghost predicate Understood(t: Turn, norm: string, s: Site, pending: Option<PendingClarify>, r: Resolution)
  {
    var dicts := t.bundle.homonyms;
    || (exists i, k :: Settles(t, norm, pending, i, k)
          && var id := dicts[i].meanings[k].intentId; AnswersInOrder(t, norm, s, IdsOf(id), id, r))
    || ((forall i, k :: !Settles(t, norm, pending, i, k)) && exists i :: MustAsk(t.lib, norm, dicts, i) && Asks(t, s, i, r))
    || ((forall i, k :: !Settles(t, norm, pending, i, k)) && (forall i :: !MustAsk(t.lib, norm, dicts, i))
        && exists boost :: SpeaksFor(t.lib, norm, dicts, boost) && AnswersInOrder(t, norm, s, boost, None, r))
  }

  lemma BoostIs(id: Option<Id>)
    ensures Boosted(id) == IdsOf(id)
  {
  }

  lemma EvaluatedMeans(lib: Lib, norm: string, dict: Homonym)
    ensures var status := EvaluateHomonym(lib, norm, dict);
      && (status.Ambiguous? && dict.policy == ASK <==> dict.policy == ASK && forall k :: !OnlyHinted(lib, norm, dict.meanings, k))
      && SpeaksForOne(lib, norm, dict, if status.Resolved? then Boosted(status.intentId) else [])
  {
    hide Hinted, OnlyHinted, NoneHinted;
    var k := HintedOnce(lib, norm, dict.meanings);
    if |Hinted(lib, norm, dict.meanings)| == 1 {
      HintedWithin(lib, norm, dict.meanings, k);
      BoostIs(dict.meanings[k].intentId);
    }
  }

  lemma HintedWithin(lib: Lib, norm: string, ms: seq<Meaning>, k: int)
    requires OnlyHinted(lib, norm, ms, k)
    ensures 0 <= k < |ms|
  {
  }

  lemma DisambiguationUnderstands(t: Turn, norm: string, s: Site, pending: Option<PendingClarify>)
    requires UniqueIds(t.bundle.nodes) && t.options.index.None? && norm != []
    ensures Understood(t, norm, s, pending, Disambiguate(t, norm, s, pending))
  {
    hide Answer, AnswersInOrder, Settles, Clarified, ResolveHomonym, EvaluateHomonym, OnlyHinted, FirstNamed, SpeaksForOne,
      UniqueIds, MergeSurvey, ClarifyOutput, AskedAs, TakesPart;
    var dicts := t.bundle.homonyms;
    var i, k := ClarifiedMeans(t, norm, pending);
    if Clarified(t, norm, pending).Some? {
      SettlesWithin(t, norm, pending, i, k);
      var id := dicts[i].meanings[k].intentId;
      BoostIs(id);
      AnswerOrder(t, norm, s, Boosted(id), id);
    } else {
      HomonymUnderstood(t, norm, s, pending);
    }
  }

  lemma SettlesWithin(t: Turn, norm: string, pending: Option<PendingClarify>, i: int, k: int)
    requires Settles(t, norm, pending, i, k)
    ensures 0 <= i < |t.bundle.homonyms| && 0 <= k < |t.bundle.homonyms[i].meanings|
  {
  }

  lemma HomonymUnderstood(t: Turn, norm: string, s: Site, pending: Option<PendingClarify>)
    requires UniqueIds(t.bundle.nodes) && t.options.index.None? && norm != []
    requires Clarified(t, norm, pending).None? && forall i, k :: !Settles(t, norm, pending, i, k)
    ensures Understood(t, norm, s, pending, Disambiguate(t, norm, s, pending))
  {
    hide Answer, AnswersInOrder, Settles, Clarified, ResolveHomonym, EvaluateHomonym, OnlyHinted, FirstNamed, SpeaksForOne,
      UniqueIds, MergeSurvey, ClarifyOutput, AskedAs, TakesPart;
    var dicts := t.bundle.homonyms;
    var h := ResolveHomonym(t.lib, norm, dicts);
    var i := ResolvedHomonym(t.lib, norm, dicts);
    var boost := if h.Evaluated? && h.status.Resolved? then Boosted(h.status.intentId) else [];
    AnswerOrder(t, norm, s, boost, None);
    if h.Evaluated? {
      NamedWithin(t.lib, norm, dicts, i);
      EvaluatedMeans(t.lib, norm, dicts[i]);
      forall j | FirstNamed(t.lib, norm, dicts, j) ensures j == i {
        FirstNamedOnce(t.lib, norm, dicts, i, j);
      }
      if h.status.Ambiguous? && h.dict.policy == ASK {
        MergeTakesPart(s);
        ClarifyAsks(h.dict);
        assert MustAsk(t.lib, norm, dicts, i);
      } else {
        assert SpeaksFor(t.lib, norm, dicts, boost);
      }
    } else {
      assert SpeaksFor(t.lib, norm, dicts, boost);
    }
  }

  lemma NamedWithin(lib: Lib, norm: string, dicts: seq<Homonym>, i: int)
    requires FirstNamed(lib, norm, dicts, i)
    ensures 0 <= i < |dicts|
  {
  }

  // ---------------------------------------------------------------- the form

  /** Only a survey that was just released leaves events in a turn that it did not take. */
  function Outcome(t: Turn, events: seq<SurveyEvent>): Option<SurveyOutcome>
  {
    if events == [] then None else Some(SurveyOutcome(None, t.surveys.completedIds, events, false))
  }

  /** A reply that runs no node and asks nothing. */
  ghost predicate OnlySays(r: Resolution, outputs: seq<Output>, session: Option<FormSession>, survey: Option<SurveyOutcome>)
  {
    && r.outputs == outputs && r.nextSession == session && r.survey == survey && r.pending.None? && r.apiCall.None?
    && r.matchedNodeId.None? && r.matchedFaqId.None? && r.matchedIntentId.None? && r.unsupported == [] && r.workflow.None?
  }

  /** The definition of the form no longer fits the session. */
  ghost predicate Outdated(t: Turn, session: FormSession)
  {
    var form := FindForm(t.bundle.contexts, session.contextVariableId);
    || form.None? || session.currentSlotIndex > |form.value.slots|
    || exists name :: name in session.filledValues && !HasSlot(form.value, name)
  }

  ghost predicate HasSlot(form: Form, name: string) { exists slot :: slot in form.slots && slot.name == name }

  /** A running form takes the text. It ends when it is outdated; it goes on, or ends early, as its step says; and once it
      is complete the text is answered by what waits for the form: its message comes first, and its values, the last one
      included, are at hand. */
  ghost predicate FormResponds(t: Turn, raw: string, carry: seq<Output>, events: seq<SurveyEvent>,
                               pending: Option<PendingClarify>, r: Resolution)
  {
    var norm, hops := t.lib.normalize(raw), t.options.hopLimit.GetOr(10);
    if t.session.Some? && t.session.value.status == IN_PROGRESS then
      var session := t.session.value;
      if Outdated(t, session) then
        OnlySays(r, [Text(FORM_CHANGED_MESSAGE)], Some(session.(status := CANCELLED, lastInteractedAt := t.now)), Outcome(t, events))
      else
        var form := FindForm(t.bundle.contexts, session.contextVariableId).value;
        var a := ContextForms.Step(t.lib, session, raw, form, t.now, t.bundle.keywords);
        if a.state.status == COMPLETED then
          var completed := CompletedForm(form.id, a.state.filledValues);
          var site := Site(carry + a.outputs, None, t.session, t.surveys, events, false, Some(completed), hops, 0, None);
          Understood(t, norm, site, None, r)
        else OnlySays(r, a.outputs, Some(a.state), Outcome(t, events))
    else Understood(t, norm, Site(carry, None, t.session, t.surveys, events, false, None, hops, 0, None), pending, r)
  }

  lemma BrokenIsOutdated(t: Turn, session: FormSession)
    ensures StructureBroken(FindForm(t.bundle.contexts, session.contextVariableId), session) <==> Outdated(t, session)
  {
    hide FindForm;
    var form := FindForm(t.bundle.contexts, session.contextVariableId);
    if form.Some? {
      forall name ensures HasSlot(form.value, name) <==> exists i :: 0 <= i < |form.value.slots| && form.value.slots[i].name == name {
        SlotAt(form.value, name);
      }
    }
  }

  lemma SlotAt(form: Form, name: string)
    ensures HasSlot(form, name) <==> exists i :: 0 <= i < |form.slots| && form.slots[i].name == name
  {
    if i :| 0 <= i < |form.slots| && form.slots[i].name == name {
      assert form.slots[i] in form.slots;
    }
  }

  lemma FormStageResponds(t: Turn, raw: string, carry: seq<Output>, events: seq<SurveyEvent>, pending: Option<PendingClarify>)
    requires UniqueIds(t.bundle.nodes) && t.options.index.None? && t.lib.normalize(raw) != []
    ensures FormResponds(t, raw, carry, events, pending, FormStage(t, raw, carry, events, pending))
  {
    hide Disambiguate, Understood, UniqueIds, StructureBroken, Outdated, ContextForms.Step, FindForm;
    var norm := t.lib.normalize(raw);
    if FormIsRunning(t.session) {
      var session := t.session.value;
      BrokenIsOutdated(t, session);
      assert events + [] == events;
      if !Outdated(t, session) {
        ThereIsForm(t, session);
        var form := FindForm(t.bundle.contexts, session.contextVariableId).value;
        var a := ContextForms.Step(t.lib, session, raw, form, t.now, t.bundle.keywords);
        DisambiguationUnderstands(t, norm, TextSite(t, carry + a.outputs, events, Some(CompletedForm(form.id, a.state.filledValues))), None);
      }
    } else {
      DisambiguationUnderstands(t, norm, TextSite(t, carry, events, None), pending);
    }
  }

  lemma ThereIsForm(t: Turn, session: FormSession)
    requires !Outdated(t, session)
    ensures FindForm(t.bundle.contexts, session.contextVariableId).Some?
  {
  }

  // ---------------------------------------------------------------- the survey

  /** The survey comes last, once; of the others the newest stay, as many as there is room for. */
  ghost predicate Remembers(before: seq<Id>, id: Id, ids: seq<Id>)
  {
    exists k :: 0 <= k <= |Without(before, id)| && ids == Newest(before, id, k) && if k == 0 then |ids| <= 20 else |ids| == 20
  }

  function Newest(before: seq<Id>, id: Id, k: nat): seq<Id>
    requires k <= |Without(before, id)|
  {
    Without(before, id)[k..] + [id]
  }

  ghost predicate IsFirstNode(nodes: seq<Node>, id: Id, n: Node)
  {
    exists i :: 0 <= i < |nodes| && nodes[i] == n && n.id == id && forall j :: 0 <= j < i ==> nodes[j].id != id
  }

  /** The node named by the output that opened the survey, as that output stands now. */
  ghost predicate Follows(t: Turn, session: SurveySession, next: Node)
  {
    exists opener, id :: session.nodeId.Some? && IsFirstNode(t.bundle.nodes, session.nodeId.value, opener)
      && 0 <= session.outputIndex < |opener.outputs|
      && opener.outputs[session.outputIndex] == SurveyV2(session.surveyId, Some(id)) && id != []
      && IsEnabledNode(t.bundle.nodes, id, next)
  }

  /** The survey takes the text. Its step says what is shown and recorded; after the last answer the survey counts as
      completed and the node that follows, if there is one, is run, one hop in and with no form at hand. */
  ghost predicate SurveyResponds(t: Turn, session: SurveySession, a: SurveySessions.SurveyAdvance, r: Resolution)
    requires a.Consumed?
  {
    if !a.completed then OnlySays(r, a.outputs, t.session, Some(SurveyOutcome(a.next, t.surveys.completedIds, a.events, true)))
    else
      exists ids :: Remembers(t.surveys.completedIds, session.surveyId, ids) && AfterSurvey(t, session, a, ids, r)
  }

  ghost predicate AfterSurvey(t: Turn, session: SurveySession, a: SurveySessions.SurveyAdvance, ids: seq<Id>, r: Resolution)
    requires a.Consumed?
  {
    var hops := t.options.hopLimit.GetOr(10);
    var site := Site(a.outputs, None, None, SurveyTurn(t.surveys.session, ids, t.surveys.preview), a.events, true, None, hops, 1, None);
    if exists n :: Follows(t, session, n)
    then exists n :: Follows(t, session, n) && r == RunNode(t.lib, t.bundle, t.now, site, n)
    else OnlySays(r, a.outputs, None, Some(SurveyOutcome(None, ids, a.events, true)))
  }

  lemma PushRemembers(before: seq<Id>, id: Id)
    ensures Remembers(before, id, PushCompleted(before, id))
  {
    var k := Max(|Without(before, id)| - 19, 0);
    assert PushCompleted(before, id) == Newest(before, id, k);
  }

  lemma {:induction false} NodeIsFirst(nodes: seq<Node>, id: Id)
    ensures forall n :: IsFirstNode(nodes, id, n) <==> FindNode(nodes, id) == Some(n)
  {
    if nodes != [] {
      var rest := nodes[1..];
      NodeIsFirst(rest, id);
      if nodes[0].id == id {
        assert IsFirstNode(nodes, id, nodes[0]);
      } else {
        forall n ensures IsFirstNode(nodes, id, n) <==> IsFirstNode(rest, id, n) {
          FirstBehind(nodes, id, n);
        }
      }
    }
  }

  lemma FirstBehind(nodes: seq<Node>, id: Id, n: Node)
    requires nodes != [] && nodes[0].id != id
    ensures IsFirstNode(nodes, id, n) <==> IsFirstNode(nodes[1..], id, n)
  {
    var rest := nodes[1..];
    assert forall j :: 0 < j < |nodes| ==> nodes[j] == rest[j - 1];
    if IsFirstNode(rest, id, n) {
      var i :| 0 <= i < |rest| && rest[i] == n && n.id == id && forall j :: 0 <= j < i ==> rest[j].id != id;
      assert nodes[i + 1] == n;
    }
    if IsFirstNode(nodes, id, n) {
      var i :| 0 <= i < |nodes| && nodes[i] == n && n.id == id && forall j :: 0 <= j < i ==> nodes[j].id != id;
      assert rest[i - 1] == n && forall j :: 0 <= j < i - 1 ==> rest[j] == nodes[j + 1];
    }
  }

  lemma TargetFollows(t: Turn, session: SurveySession)
    ensures forall n :: Follows(t, session, n) <==> SurveyCompletionTarget(t, session) == Some(n)
  {
    hide IsFirstNode, IsEnabledNode, FindNode, FindEnabled;
    if session.nodeId.Some? {
      NodeIsFirst(t.bundle.nodes, session.nodeId.value);
    }
    forall id ensures forall n :: IsEnabledNode(t.bundle.nodes, id, n) <==> FindEnabled(t.bundle.nodes, id) == Some(n) {
      EnabledIsFirst(t.bundle.nodes, id);
    }
  }

  lemma ReplyResponds(t: Turn, session: SurveySession, a: SurveySessions.SurveyAdvance)
    requires a.Consumed?
    ensures SurveyResponds(t, session, a, SurveyReply(t, session, a))
  {
    hide RunNode, SurveyCompletionTarget, Follows, Remembers, PushCompleted;
    var ids := PushCompleted(t.surveys.completedIds, session.surveyId);
    PushRemembers(t.surveys.completedIds, session.surveyId);
    TargetFollows(t, session);
    assert a.completed ==> AfterSurvey(t, session, a, ids, SurveyReply(t, session, a));
  }

  // ---------------------------------------------------------------- the whole response

  /** A text is cut to the longest one allowed. One that normalises to nothing is asked for again. The running survey
      looks at it first, and takes it or lets go of it; then the form; then it is answered. */
  ghost predicate Responds(t: Turn, input: string, pending: Option<PendingClarify>, r: Resolution)
  {
    var raw := input[..Min(|input|, t.options.maxInputLength.GetOr(1000))];
    if t.lib.normalize(raw) == [] then OnlySays(r, [Text(EMPTY_INPUT_RESPONSE)], t.session, None)
    else if t.surveys.session.Some? && FindSurvey(t.bundle.surveys, t.surveys.session.value.surveyId).Some? then
      var session := t.surveys.session.value;
      var survey := FindSurvey(t.bundle.surveys, session.surveyId).value;
      var a := SurveySessions.Step(t.lib, session, raw, survey, t.now, t.surveys.preview);
      if a.Consumed? then SurveyResponds(t, session, a, r) else FormResponds(t, raw, a.carry, a.events, None, r)
    else FormResponds(t, raw, [], [], pending, r)
  }

  lemma RespondResponds(t: Turn, input: string, pending: Option<PendingClarify>)
    requires UniqueIds(t.bundle.nodes) && t.options.index.None?
    ensures Responds(t, input, pending, Respond(t, input, pending))
  {
    hide FormStage, FormResponds, UniqueIds, SurveySessions.Step, SurveyReply, SurveyResponds, FindSurvey;
    var raw := input[..Min(|input|, t.options.MaxInput())];
    assert |input| <= t.options.MaxInput() ==> raw == input;
    if t.lib.normalize(raw) != [] {
      var survey := if t.surveys.session.Some? then FindSurvey(t.bundle.surveys, t.surveys.session.value.surveyId) else None;
      if survey.Some? {
        var a := SurveySessions.Step(t.lib, t.surveys.session.value, raw, survey.value, t.now, t.surveys.preview);
        if a.Consumed? {
          ReplyResponds(t, t.surveys.session.value, a);
        } else {
          FormStageResponds(t, raw, a.carry, a.events, None);
        }
      } else {
        FormStageResponds(t, raw, [], [], pending);
      }
    }
  }

  /** Nodes are told apart by their ids, and the index, if there is one, is the one built for the bundle. */
  ghost predicate SoundIndex(t: Turn)
  {
    UniqueIds(t.bundle.nodes) && (t.options.index.Some? ==> t.options.index.value == IndexOf(t.lib, t.bundle))
  }

  /** With the prebuilt index the response is the same. */
  lemma IndexedResponds(t: Turn, input: string, pending: Option<PendingClarify>)
    requires SoundIndex(t)
    ensures Responds(Bare(t), input, pending, Respond(t, input, pending))
  {
    hide Responds, Respond, UniqueIds;
    RespondResponds(Bare(t), input, pending);
    if t.options.index.Some? {
      IndexFacts.SameResponse(Bare(t), t, input, pending);
    } else {
      assert Bare(t) == t;
    }
  }

  function Bare(t: Turn): Turn { t.(options := t.options.(index := None)) }

  // ---------------------------------------------------------------- a finished form reaches the node that waits for it

  /** The text fills the last slot: no cancel word, in time, not skipped, and accepted as `v`. */
  ghost predicate FillsLast(t: Turn, raw: string, form: Form, v: string)
  {
    t.session.Some? && t.session.value.status == IN_PROGRESS && !Outdated(t, t.session.value)
    && FindForm(t.bundle.contexts, t.session.value.contextVariableId) == Some(form)
    && t.session.value.currentSlotIndex + 1 == |form.slots|
    && !ContextForms.NamesCancel(t.lib, form.cancelKeywords, t.lib.normalize(raw))
    && t.now - t.session.value.lastInteractedAt <= form.sessionTimeoutMinutes * 60000
    && var slot := form.slots[t.session.value.currentSlotIndex];
       (slot.required || t.lib.normalize(raw) !in ContextForms.SKIP_TOKENS)
       && ContextForms.CheckSlotValue(t.lib, slot, raw, t.bundle.keywords) == ContextForms.Valid(v)
  }

  function LastFilled(t: Turn, form: Form, v: string): map<string, string>
    requires t.session.Some? && t.session.value.currentSlotIndex < |form.slots|
  {
    t.session.value.filledValues[form.slots[t.session.value.currentSlotIndex].name := v]
  }

  /** Where the text settles the last slot and no survey stands before it, the values of the form, that of the last slot
      included, go to the site from which the text is then answered, and the form is what nodes see as completed. */
  lemma FinishedFormIsAtHand(t: Turn, input: string, pending: Option<PendingClarify>, form: Form, v: string)
    requires UniqueIds(t.bundle.nodes) && t.options.index.None? && t.surveys.session.None?
    requires |input| <= t.options.MaxInput() && t.lib.normalize(input) != [] && FillsLast(t, input, form, v)
    ensures exists message: seq<Output> ::
      var completed := CompletedForm(form.id, LastFilled(t, form, v));
      var site := Site(message, None, t.session, t.surveys, [], false, Some(completed), t.options.Hops(), 0, None);
      Understood(t, t.lib.normalize(input), site, None, Respond(t, input, pending))
  {
    hide Understood, Respond, ContextForms.NamesCancel, ContextForms.CheckSlotValue, UniqueIds, Outdated, FindForm;
    RespondResponds(t, input, pending);
    assert input[..|input|] == input;
    LastSlotCompletes(t, input, form, v);
    var a := ContextForms.Step(t.lib, t.session.value, input, form, t.now, t.bundle.keywords);
    var completed := CompletedForm(form.id, LastFilled(t, form, v));
    var site := Site([] + a.outputs, None, t.session, t.surveys, [], false, Some(completed), t.options.Hops(), 0, None);
    assert Understood(t, t.lib.normalize(input), site, None, Respond(t, input, pending));
  }

  lemma LastSlotCompletes(t: Turn, raw: string, form: Form, v: string)
    requires FillsLast(t, raw, form, v)
    ensures var a := ContextForms.Step(t.lib, t.session.value, raw, form, t.now, t.bundle.keywords);
      a.state.status == COMPLETED && a.state.filledValues == LastFilled(t, form, v)
  {
    hide ContextForms.NamesCancel, ContextForms.CheckSlotValue, Outdated, FindForm;
  }
}
