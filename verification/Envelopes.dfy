/** Re-checking the state envelope a client sends back (packages/dialogue-engine/src/conversation-state.ts). */
module Envelopes {
  import opened Prelude
  import opened Dialogue

  const CLARIFY_TTL_MS := 10 * 60 * 1000
  const STATE_MAX_AGE_MS := 24 * 60 * 60 * 1000
  const STATE_MAX_BYTES := 16 * 1024
  const STATE_MAX_FILLED_VALUE_KEYS := 20
  const STATE_MAX_FILLED_VALUE_LENGTH := 1000
  const STATE_FUTURE_TOLERANCE_MS := 5 * 60 * 1000
  const COMPLETED_SURVEYS_MAX := 20

  datatype DiscardReason =
    | InvalidSchema | UnknownContext | SessionExpired | Oversized | UnknownHomonym | ClarifyExpired
    | SurveyStateInvalid | UnknownSurvey | SurveySessionExpired

  datatype Envelope = Envelope(form: Option<FormSession>, pending: Option<PendingClarify>,
                               survey: Option<SurveySession>, completedIds: seq<Id>)

  /** What the client sent: nothing, something that is not an envelope, or fields still to be checked. */
  datatype RawState =
    | Absent
    | NotAnEnvelope
    | Fields(form: Option<FormSession>, pending: Option<PendingClarify>, survey: Option<SurveySession>,
             completedIds: Option<seq<Id>>)

  datatype Limits = Limits(stateMaxAgeMs: int, clarifyTtlMs: int)

  datatype Kept<T> = Kept(value: Option<T>, reasons: seq<DiscardReason>)

  datatype Sanitized = Sanitized(state: Envelope, discarded: seq<DiscardReason>)

  const EMPTY_ENVELOPE := Envelope(None, None, None, [])

  predicate BaseSchema(lib: Lib, raw: RawState)
    requires raw.Fields?
  {
    && (raw.form.Some? ==> lib.isUuid(raw.form.value.contextVariableId))
    && (raw.pending.Some? ==> lib.isUuid(raw.pending.value.homonymId) && 1 <= |raw.pending.value.word| <= 50)
  }

  predicate SurveySchema(lib: Lib, s: SurveySession)
  {
    && lib.isUuid(s.surveyId) && s.structureVersion >= 1 && (s.nodeId.Some? ==> lib.isUuid(s.nodeId.value))
    && 0 <= s.outputIndex <= 9 && s.questionIndex <= 19 && s.retryCount <= 2
  }

  predicate IdsSchema(lib: Lib, ids: seq<Id>)
  {
    |ids| <= COMPLETED_SURVEYS_MAX && forall i :: 0 <= i < |ids| ==> lib.isUuid(ids[i])
  }

  predicate InTime(startedAt: Time, now: Time, maxAge: int)
  {
    startedAt <= now + STATE_FUTURE_TOLERANCE_MS && now - startedAt <= maxAge
  }

  predicate FormIsRunning(f: Option<FormSession>) { f.Some? && f.value.status == IN_PROGRESS }

  function KeepSurvey(lib: Lib, s: Option<SurveySession>, form: Option<FormSession>, b: Bundle, now: Time): Kept<SurveySession>
  {
    if s.None? then Kept(None, [])
    else if !SurveySchema(lib, s.value) then Kept(None, [SurveyStateInvalid])
    else
      var known := FindSurvey(b.surveys, s.value.surveyId);
      if known.None? then Kept(None, [UnknownSurvey])
      else if s.value.questionIndex >= |known.value.questions| || s.value.outputIndex < 0 || s.value.outputIndex > 9 then
        Kept(None, [SurveyStateInvalid])
      else if FormIsRunning(form) then Kept(None, [SurveyStateInvalid])
      else if !InTime(s.value.startedAt, now, STATE_MAX_AGE_MS) then Kept(None, [SurveySessionExpired])
      else if s.value.lastInteractedAt > now then Kept(Some(s.value.(lastInteractedAt := now)), [])
      else Kept(s, [])
  }

  predicate TooBig(lib: Lib, f: FormSession)
  {
    || lib.serializedSize(f) > STATE_MAX_BYTES
    || |f.filledValues| > STATE_MAX_FILLED_VALUE_KEYS
    || exists k :: k in f.filledValues && |f.filledValues[k]| > STATE_MAX_FILLED_VALUE_LENGTH
  }

  function KeepForm(lib: Lib, f: Option<FormSession>, b: Bundle, now: Time, limits: Limits): Kept<FormSession>
  {
    if f.None? then Kept(None, [])
    else if TooBig(lib, f.value) then Kept(None, [Oversized])
    else if FindForm(b.contexts, f.value.contextVariableId).None? then Kept(None, [UnknownContext])
    else if !InTime(f.value.startedAt, now, limits.stateMaxAgeMs) then Kept(None, [SessionExpired])
    else if f.value.lastInteractedAt > now then Kept(Some(f.value.(lastInteractedAt := now)), [])
    else Kept(f, [])
  }

  function KeepPending(p: Option<PendingClarify>, b: Bundle, now: Time, limits: Limits): Kept<PendingClarify>
  {
    if p.None? then Kept(None, [])
    else if FindHomonym(b.homonyms, p.value.homonymId).None? then Kept(None, [UnknownHomonym])
    else if now - p.value.askedAt > limits.clarifyTtlMs then Kept(None, [ClarifyExpired])
    else Kept(p, [])
  }

  /** The reasons are listed in the order the checks run: schema of both survey fields, the survey session, the form,
      the pending question. */
  function Sanitize(lib: Lib, raw: RawState, b: Bundle, now: Time, limits: Limits): Sanitized
  {
    if raw.Absent? then Sanitized(EMPTY_ENVELOPE, [])
    else if raw.NotAnEnvelope? || !BaseSchema(lib, raw) then Sanitized(EMPTY_ENVELOPE, [InvalidSchema])
    else
      var badSurvey := raw.survey.Some? && !SurveySchema(lib, raw.survey.value);
      var badIds := raw.completedIds.Some? && !IdsSchema(lib, raw.completedIds.value);
      var survey := KeepSurvey(lib, if badSurvey then None else raw.survey, raw.form, b, now);
      var form, pending := KeepForm(lib, raw.form, b, now, limits), KeepPending(raw.pending, b, now, limits);
      var ids := if raw.completedIds.Some? && !badIds then raw.completedIds.value else [];
      Sanitized(Envelope(form.value, pending.value, survey.value, ids),
                (if badSurvey then [SurveyStateInvalid] else []) + (if badIds then [SurveyStateInvalid] else [])
                + survey.reasons + form.reasons + pending.reasons)
  }

  /** The checks on a survey session that parses, as successive reassignments. */
  method CheckSurvey(lib: Lib, parsed: Option<SurveySession>, form: Option<FormSession>, b: Bundle, now: Time,
                     before: seq<DiscardReason>)
    returns (survey: Option<SurveySession>, discarded: seq<DiscardReason>)
    requires parsed.Some? ==> SurveySchema(lib, parsed.value)
    ensures survey == KeepSurvey(lib, parsed, form, b, now).value
    ensures discarded == before + KeepSurvey(lib, parsed, form, b, now).reasons
  {
    survey, discarded := parsed, before;
    if survey.Some? {
      var known := FindSurvey(b.surveys, survey.value.surveyId);
      if known.None? {
        discarded := discarded + [UnknownSurvey];
        survey := None;
      } else if survey.value.questionIndex >= |known.value.questions| || survey.value.outputIndex < 0 || survey.value.outputIndex > 9 {
        discarded := discarded + [SurveyStateInvalid];
        survey := None;
      }
    }
    if survey.Some? && form.Some? && form.value.status == IN_PROGRESS {
      discarded := discarded + [SurveyStateInvalid];
      survey := None;
    }
    if survey.Some? {
      var isFuture := survey.value.startedAt > now + STATE_FUTURE_TOLERANCE_MS;
      var isTooOld := now - survey.value.startedAt > STATE_MAX_AGE_MS;
      if isFuture || isTooOld {
        discarded := discarded + [SurveySessionExpired];
        survey := None;
      }
    }
    if survey.Some? && survey.value.lastInteractedAt > now {
      survey := Some(survey.value.(lastInteractedAt := now));
    }
  }

  method CheckForm(lib: Lib, parsed: Option<FormSession>, b: Bundle, now: Time, limits: Limits, before: seq<DiscardReason>)
    returns (form: Option<FormSession>, discarded: seq<DiscardReason>)
    ensures form == KeepForm(lib, parsed, b, now, limits).value
    ensures discarded == before + KeepForm(lib, parsed, b, now, limits).reasons
  {
    form, discarded := parsed, before;
    if form.Some? && TooBig(lib, form.value) {
      discarded := discarded + [Oversized];
      form := None;
    }
    if form.Some? && FindForm(b.contexts, form.value.contextVariableId).None? {
      discarded := discarded + [UnknownContext];
      form := None;
    }
    if form.Some? {
      var isFuture := form.value.startedAt > now + STATE_FUTURE_TOLERANCE_MS;
      var isTooOld := now - form.value.startedAt > limits.stateMaxAgeMs;
      if isFuture || isTooOld {
        discarded := discarded + [SessionExpired];
        form := None;
      }
    }
    if form.Some? && form.value.lastInteractedAt > now {
      form := Some(form.value.(lastInteractedAt := now));
    }
  }

  method CheckPending(parsed: Option<PendingClarify>, b: Bundle, now: Time, limits: Limits, before: seq<DiscardReason>)
    returns (pending: Option<PendingClarify>, discarded: seq<DiscardReason>)
    ensures pending == KeepPending(parsed, b, now, limits).value
    ensures discarded == before + KeepPending(parsed, b, now, limits).reasons
  {
    pending, discarded := parsed, before;
    if pending.Some? && FindHomonym(b.homonyms, pending.value.homonymId).None? {
      discarded := discarded + [UnknownHomonym];
      pending := None;
    }
    if pending.Some? && now - pending.value.askedAt > limits.clarifyTtlMs {
      discarded := discarded + [ClarifyExpired];
      pending := None;
    }
  }

  /** `sanitizeConversationState`. */
  method SanitizeState(lib: Lib, raw: RawState, b: Bundle, now: Time, limits: Limits) returns (r: Sanitized)
    ensures r == Sanitize(lib, raw, b, now, limits)
  {
    hide SurveySchema, IdsSchema, BaseSchema, KeepSurvey, KeepForm, KeepPending;
    var discarded: seq<DiscardReason> := [];
    if raw.Absent? {
      return Sanitized(EMPTY_ENVELOPE, discarded);
    }
    if raw.NotAnEnvelope? || !BaseSchema(lib, raw) {
      discarded := discarded + [InvalidSchema];
      return Sanitized(EMPTY_ENVELOPE, discarded);
    }
    var survey: Option<SurveySession> := None;
    if raw.survey.Some? {
      if !SurveySchema(lib, raw.survey.value) {
        discarded := discarded + [SurveyStateInvalid];
      } else {
        survey := raw.survey;
      }
    }
    var completedIds: seq<Id> := [];
    if raw.completedIds.Some? {
      if IdsSchema(lib, raw.completedIds.value) {
        completedIds := raw.completedIds.value;
      } else {
        discarded := discarded + [SurveyStateInvalid];
      }
    }
    survey, discarded := CheckSurvey(lib, survey, raw.form, b, now, discarded);
    var form, pending;
    form, discarded := CheckForm(lib, raw.form, b, now, limits, discarded);
    pending, discarded := CheckPending(raw.pending, b, now, limits, discarded);
    return Sanitized(Envelope(form, pending, survey, completedIds), discarded);
  }

  /** The envelope as the client sends it back: empty parts are left out. */
  function Sent(e: Envelope): RawState
  {
    Fields(e.form, e.pending, e.survey, if e.completedIds == [] then None else Some(e.completedIds))
  }

  /** An envelope that passes every check as it stands. */
  ghost predicate Acceptable(lib: Lib, e: Envelope, b: Bundle, now: Time, limits: Limits)
  {
    && BaseSchema(lib, Sent(e)) && IdsSchema(lib, e.completedIds)
    && (e.survey.Some? ==> AcceptableSurvey(lib, e.survey.value, b, now) && !FormIsRunning(e.form))
    && (e.form.Some? ==> AcceptableForm(lib, e.form.value, b, now, limits))
    && (e.pending.Some? ==> AcceptablePending(e.pending.value, b, now, limits))
  }

  ghost predicate AcceptableSurvey(lib: Lib, s: SurveySession, b: Bundle, now: Time)
  {
    && SurveySchema(lib, s) && FindSurvey(b.surveys, s.surveyId).Some?
    && s.questionIndex < |FindSurvey(b.surveys, s.surveyId).value.questions|
    && InTime(s.startedAt, now, STATE_MAX_AGE_MS) && s.lastInteractedAt <= now
  }

  ghost predicate AcceptableForm(lib: Lib, f: FormSession, b: Bundle, now: Time, limits: Limits)
  {
    && !TooBig(lib, f) && FindForm(b.contexts, f.contextVariableId).Some?
    && InTime(f.startedAt, now, limits.stateMaxAgeMs) && f.lastInteractedAt <= now
  }

  ghost predicate AcceptablePending(p: PendingClarify, b: Bundle, now: Time, limits: Limits)
  {
    FindHomonym(b.homonyms, p.homonymId).Some? && now - p.askedAt <= limits.clarifyTtlMs
  }

  /** Re-checking discards nothing and changes nothing exactly when the envelope is acceptable as it stands. */
  lemma AcceptedIffUnchanged(lib: Lib, e: Envelope, b: Bundle, now: Time, limits: Limits)
    ensures Acceptable(lib, e, b, now, limits) <==> Sanitize(lib, Sent(e), b, now, limits) == Sanitized(e, [])
  {
    hide TooBig, FindSurvey, FindForm, FindHomonym;
  }

  /** Re-checking whatever the client sent keeps at most one of a survey and a running form, and at most twenty
      completed surveys. */
  lemma SanitizedIsSafe(lib: Lib, raw: RawState, b: Bundle, now: Time, limits: Limits)
    ensures var e := Sanitize(lib, raw, b, now, limits).state;
            && !(e.survey.Some? && FormIsRunning(e.form))
            && IdsSchema(lib, e.completedIds)
            && (e.survey.Some? ==> AcceptableSurvey(lib, e.survey.value, b, now))
            && (e.form.Some? ==> FindForm(b.contexts, e.form.value.contextVariableId).Some?
                                 && InTime(e.form.value.startedAt, now, limits.stateMaxAgeMs) && e.form.value.lastInteractedAt <= now
                                 && |e.form.value.filledValues| <= STATE_MAX_FILLED_VALUE_KEYS
                                 && lib.isUuid(e.form.value.contextVariableId)
                                 && forall k :: k in e.form.value.filledValues ==>
                                      |e.form.value.filledValues[k]| <= STATE_MAX_FILLED_VALUE_LENGTH)
            && (e.pending.Some? ==> AcceptablePending(e.pending.value, b, now, limits))
  {
    hide FindSurvey, FindForm, FindHomonym;
  }
}
