/** What becomes of each part of the envelope a client sends back, and why a part is dropped
    (packages/dialogue-engine/src/conversation-state.ts). */
module EnvelopeFacts {
  import opened Prelude
  import opened Dialogue
  import opened Envelopes

  /** Begun no more than five minutes ahead of now and no longer ago than `maxAge`. */
  ghost predicate Timely(startedAt: Time, now: Time, maxAge: int)
  {
    startedAt - 300000 <= now && now - maxAge <= startedAt
  }

  ghost predicate WellFormedSurvey(lib: Lib, s: SurveySession)
  {
    && lib.isUuid(s.surveyId) && (s.nodeId == None || lib.isUuid(s.nodeId.value))
    && s.structureVersion > 0 && s.outputIndex in {0, 1, 2, 3, 4, 5, 6, 7, 8, 9} && s.questionIndex < 20 && s.retryCount < 3
  }

  /** Why a survey session that is well formed is dropped, if it is: its survey is gone, its question is, a form is running,
      or it is out of time; the first of these. */
  ghost predicate DropsSurvey(s: SurveySession, form: Option<FormSession>, b: Bundle, now: Time, reason: DiscardReason)
  {
    var gone := forall survey :: survey in b.surveys ==> survey.id != s.surveyId;
    var unasked := !gone && exists survey :: IsSurvey(b, s.surveyId, survey) && |survey.questions| <= s.questionIndex;
    var running := form.Some? && form.value.status == IN_PROGRESS;
    if gone then reason == UnknownSurvey
    else if unasked || running then reason == SurveyStateInvalid
    else !Timely(s.startedAt, now, 86400000) && reason == SurveySessionExpired
  }

  /** The first survey of the bundle with this id. */
  ghost predicate IsSurvey(b: Bundle, id: Id, survey: Survey)
  {
    exists i :: 0 <= i < |b.surveys| && b.surveys[i] == survey && survey.id == id && forall j :: 0 <= j < i ==> b.surveys[j].id != id
  }

  ghost predicate Bulky(lib: Lib, f: FormSession)
  {
    lib.serializedSize(f) > 16384 || |f.filledValues| > 20 || exists k :: k in f.filledValues && |f.filledValues[k]| > 1000
  }

  ghost predicate DropsForm(lib: Lib, f: FormSession, b: Bundle, now: Time, limits: Limits, reason: DiscardReason)
  {
    if Bulky(lib, f) then reason == Oversized
    else if forall form :: form in b.contexts ==> form.id != f.contextVariableId then reason == UnknownContext
    else !Timely(f.startedAt, now, limits.stateMaxAgeMs) && reason == SessionExpired
  }

  ghost predicate DropsPending(p: PendingClarify, b: Bundle, now: Time, limits: Limits, reason: DiscardReason)
  {
    if forall h :: h in b.homonyms ==> h.id != p.homonymId then reason == UnknownHomonym
    else p.askedAt + limits.clarifyTtlMs < now && reason == ClarifyExpired
  }

  /** A time of day that has not come yet is set back to now. */
  ghost function NotAhead(at: Time, now: Time): Time { if at > now then now else at }

  /** A part that is sent is kept with nothing said, or dropped for its reason. */
  ghost predicate SurveyKept(s: Option<SurveySession>, form: Option<FormSession>, b: Bundle, now: Time, k: Kept<SurveySession>)
  {
    if s.None? then k == Kept(None, [])
    else if exists reason :: DropsSurvey(s.value, form, b, now, reason)
    then exists reason :: DropsSurvey(s.value, form, b, now, reason) && k == Kept(None, [reason])
    else k == Kept(Some(s.value.(lastInteractedAt := NotAhead(s.value.lastInteractedAt, now))), [])
  }

  ghost predicate FormKept(lib: Lib, f: Option<FormSession>, b: Bundle, now: Time, limits: Limits, k: Kept<FormSession>)
  {
    if f.None? then k == Kept(None, [])
    else if exists reason :: DropsForm(lib, f.value, b, now, limits, reason)
    then exists reason :: DropsForm(lib, f.value, b, now, limits, reason) && k == Kept(None, [reason])
    else k == Kept(Some(f.value.(lastInteractedAt := NotAhead(f.value.lastInteractedAt, now))), [])
  }

  ghost predicate PendingKept(p: Option<PendingClarify>, b: Bundle, now: Time, limits: Limits, k: Kept<PendingClarify>)
  {
    if p.None? then k == Kept(None, [])
    else if exists reason :: DropsPending(p.value, b, now, limits, reason)
    then exists reason :: DropsPending(p.value, b, now, limits, reason) && k == Kept(None, [reason])
    else k == Kept(p, [])
  }

  ghost predicate MalformedBase(lib: Lib, raw: RawState)
    requires raw.Fields?
  {
    || (raw.form.Some? && !lib.isUuid(raw.form.value.contextVariableId))
    || (raw.pending.Some? && (!lib.isUuid(raw.pending.value.homonymId) || raw.pending.value.word == "" || |raw.pending.value.word| > 50))
  }

  ghost predicate MalformedIds(lib: Lib, ids: seq<Id>) { |ids| > 20 || exists id :: id in ids && !lib.isUuid(id) }

  ghost predicate PartsChecked(lib: Lib, raw: RawState, b: Bundle, now: Time, limits: Limits, r: Sanitized,
                               survey: Kept<SurveySession>, form: Kept<FormSession>, pending: Kept<PendingClarify>)
    requires raw.Fields?
  {
    var badSurvey := raw.survey.Some? && !WellFormedSurvey(lib, raw.survey.value);
    var badIds := raw.completedIds.Some? && MalformedIds(lib, raw.completedIds.value);
    && SurveyKept(if badSurvey then None else raw.survey, raw.form, b, now, survey)
    && FormKept(lib, raw.form, b, now, limits, form) && PendingKept(raw.pending, b, now, limits, pending)
    && r.state == Envelope(form.value, pending.value, survey.value, if badIds then [] else raw.completedIds.GetOr([]))
    && r.discarded == (if badSurvey then [SurveyStateInvalid] else []) + (if badIds then [SurveyStateInvalid] else [])
                      + survey.reasons + form.reasons + pending.reasons
  }

  /** What is left of the client's state: nothing if its form or its question is malformed; otherwise each part is checked
      on its own, and what is wrong with one never touches another. */
  ghost predicate Checked(lib: Lib, raw: RawState, b: Bundle, now: Time, limits: Limits, r: Sanitized)
  {
    if raw.Absent? then r == Sanitized(Envelope(None, None, None, []), [])
    else if raw.NotAnEnvelope? || MalformedBase(lib, raw) then r == Sanitized(Envelope(None, None, None, []), [InvalidSchema])
    else exists survey, form, pending :: PartsChecked(lib, raw, b, now, limits, r, survey, form, pending)
  }

  lemma {:induction false} FoundIsSurvey(surveys: seq<Survey>, id: Id)
    ensures FindSurvey(surveys, id).Some? ==>
      exists i :: 0 <= i < |surveys| && surveys[i] == FindSurvey(surveys, id).value && forall j :: 0 <= j < i ==> surveys[j].id != id
  {
    if surveys != [] && surveys[0].id != id && FindSurvey(surveys, id).Some? {
      FoundIsSurvey(surveys[1..], id);
      var i :| 0 <= i < |surveys[1..]| && surveys[1..][i] == FindSurvey(surveys, id).value
            && forall j :: 0 <= j < i ==> surveys[1..][j].id != id;
      forall j | 0 <= j < i + 1 ensures surveys[j].id != id {
        assert j > 0 ==> surveys[j] == surveys[1..][j - 1];
      }
      assert surveys[i + 1] == surveys[1..][i];
    }
  }

  lemma SurveyIs(b: Bundle, id: Id, survey: Survey)
    ensures IsSurvey(b, id, survey) <==> FindSurvey(b.surveys, id) == Some(survey)
  {
    hide FindSurvey;
    FoundIsSurvey(b.surveys, id);
  }

  lemma SurveyChecked(lib: Lib, s: Option<SurveySession>, form: Option<FormSession>, b: Bundle, now: Time)
    requires s.Some? ==> WellFormedSurvey(lib, s.value)
    ensures SurveyKept(s, form, b, now, KeepSurvey(lib, s, form, b, now))
  {
    hide FindSurvey, IsSurvey;
    if s.Some? {
      var known := FindSurvey(b.surveys, s.value.surveyId);
      forall survey ensures IsSurvey(b, s.value.surveyId, survey) <==> known == Some(survey) {
        SurveyIs(b, s.value.surveyId, survey);
      }
      var r := KeepSurvey(lib, s, form, b, now);
      if r.reasons != [] {
        assert DropsSurvey(s.value, form, b, now, r.reasons[0]);
      } else {
        assert forall reason :: !DropsSurvey(s.value, form, b, now, reason);
      }
    }
  }

  lemma FormChecked(lib: Lib, f: Option<FormSession>, b: Bundle, now: Time, limits: Limits)
    ensures FormKept(lib, f, b, now, limits, KeepForm(lib, f, b, now, limits))
  {
    hide FindForm;
    if f.Some? {
      var r := KeepForm(lib, f, b, now, limits);
      if r.reasons != [] {
        assert DropsForm(lib, f.value, b, now, limits, r.reasons[0]);
      } else {
        assert forall reason :: !DropsForm(lib, f.value, b, now, limits, reason);
      }
    }
  }

  lemma PendingChecked(p: Option<PendingClarify>, b: Bundle, now: Time, limits: Limits)
    ensures PendingKept(p, b, now, limits, KeepPending(p, b, now, limits))
  {
    hide FindHomonym;
    if p.Some? {
      var r := KeepPending(p, b, now, limits);
      if r.reasons != [] {
        assert DropsPending(p.value, b, now, limits, r.reasons[0]);
      } else {
        assert forall reason :: !DropsPending(p.value, b, now, limits, reason);
      }
    }
  }

  /** Every state a client may send is checked so. */
  lemma SanitizeChecks(lib: Lib, raw: RawState, b: Bundle, now: Time, limits: Limits)
    ensures Checked(lib, raw, b, now, limits, Sanitize(lib, raw, b, now, limits))
  {
    hide KeepSurvey, KeepForm, KeepPending, SurveyKept, FormKept, PendingKept;
    if raw.Fields? {
      var badSurvey := raw.survey.Some? && !SurveySchema(lib, raw.survey.value);
      var parsed := if badSurvey then None else raw.survey;
      SurveyChecked(lib, parsed, raw.form, b, now);
      FormChecked(lib, raw.form, b, now, limits);
      PendingChecked(raw.pending, b, now, limits);
      IdsMalformed(lib, raw.completedIds.GetOr([]));
      if !MalformedBase(lib, raw) {
        assert PartsChecked(lib, raw, b, now, limits, Sanitize(lib, raw, b, now, limits), KeepSurvey(lib, parsed, raw.form, b, now),
                            KeepForm(lib, raw.form, b, now, limits), KeepPending(raw.pending, b, now, limits));
      }
    }
  }

  lemma IdsMalformed(lib: Lib, ids: seq<Id>)
    ensures IdsSchema(lib, ids) <==> !MalformedIds(lib, ids)
  {
  }
}
