/** Transitions of one survey session (packages/dialogue-engine/src/survey-session.ts). */
module SurveySessions {
  import opened Prelude
  import opened Dialogue
  import opened SurveyAnswers
  import ContextForms

  const CANCEL_MESSAGE := "설문을 마칠게요. 참여해 주셔서 감사합니다."
  const RETRY_LIMIT_MESSAGE := "입력 횟수를 초과해 설문을 마칠게요. 궁금한 점을 입력해 주세요."
  const TIMEOUT_NOTICE := "설문 참여 시간이 지나 설문을 마쳤어요."
  const CHANGED_NOTICE := "설문이 변경(종료)되어 진행을 마쳤어요."
  const REQUIRED_PROMPT := "이 질문은 꼭 답해 주세요."
  const MAX_RETRY := 2

  datatype Started = Started(session: SurveySession, outputs: seq<Output>, event: SurveyEvent)

  datatype SurveyAdvance =
    | Consumed(outputs: seq<Output>, next: Option<SurveySession>, events: seq<SurveyEvent>, completed: bool)
    | Released(carry: seq<Output>, events: seq<SurveyEvent>)

  function AttemptOf(s: SurveySession): Attempt
  {
    Attempt(s.surveyId, s.structureVersion, s.startedAt)
  }

  function Start(survey: Survey, nodeId: Option<Id>, outputIndex: nat, now: Time): Started
    requires survey.questions != []
  {
    var session := SurveySession(survey.id, survey.structureVersion, nodeId, outputIndex, 0, 0, now, now);
    Started(session, QuestionOutputs(survey, 0, true), Exposed(AttemptOf(session), nodeId))
  }

  predicate IsCancel(lib: Lib, survey: Survey, norm: string)
  {
    norm != [] && (norm in Map(lib.normalize, survey.cancelKeywords) || norm == lib.normalize(STOP_BUTTON_VALUE))
  }

  predicate IsSkip(lib: Lib, norm: string)
  {
    norm in ContextForms.SKIP_TOKENS || norm == lib.normalize(SKIP_BUTTON_VALUE)
  }

  function Complete(s: SurveySession, survey: Survey, before: seq<SurveyEvent>): SurveyAdvance
  {
    Consumed([Text(survey.completionMessage)], None, before + [Completed(AttemptOf(s))], true)
  }

  function NextOrComplete(s: SurveySession, survey: Survey, now: Time, event: SurveyEvent): SurveyAdvance
  {
    var next := s.questionIndex + 1;
    if next >= |survey.questions| then Complete(s, survey, [event])
    else Consumed(QuestionOutputs(survey, next, false),
                  Some(s.(questionIndex := next, retryCount := 0, lastInteractedAt := now)), [event], false)
  }

  function Retry(s: SurveySession, survey: Survey, now: Time, guidance: string): SurveyAdvance
    requires s.questionIndex < |survey.questions|
  {
    if s.retryCount + 1 > MAX_RETRY then
      Consumed([Text(RETRY_LIMIT_MESSAGE)], None, [Abandoned(AttemptOf(s), RetryExceeded)], false)
    else
      Consumed([Text(guidance)] + QuestionOutputs(survey, s.questionIndex, false),
               Some(s.(retryCount := s.retryCount + 1, lastInteractedAt := now)), [], false)
  }

  function Guidance(code: RetryCode): string
  {
    match code
    case NotAChoice => "제시된 선택지 중에서 골라 답해 주세요."
    case TooFew => "더 선택해 주세요."
    case TooMany => "너무 많이 선택했어요. 개수를 줄여 다시 답해 주세요."
    case OutOfRange => "제시된 범위 안의 숫자로 답해 주세요."
    case NotANumber => "숫자로 답해 주세요."
    case Empty => "내용을 입력해 주세요."
    case TooLong => "입력하신 내용이 너무 길어요. 조금 줄여서 다시 입력해 주세요."
  }

  /** `advanceSurveySession`: cancel, still live, timeout, skip, judge, in this order. */
  function Step(lib: Lib, s: SurveySession, raw: string, survey: Survey, now: Time, preview: bool): SurveyAdvance
  {
    var norm := lib.normalize(raw);
    var attempt := AttemptOf(s);
    if IsCancel(lib, survey, norm) then
      Consumed([Text(CANCEL_MESSAGE)], None, [Abandoned(attempt, UserCancelled)], false)
    else if NotLive(survey, s.structureVersion, now, preview).Some? then
      Released([Text(CHANGED_NOTICE)], [Abandoned(attempt, NotLive(survey, s.structureVersion, now, preview).value)])
    else if now - s.lastInteractedAt > survey.sessionTimeoutMinutes * 60000 then
      Released([Text(TIMEOUT_NOTICE)], [Abandoned(attempt, TimedOut)])
    else if s.questionIndex >= |survey.questions| then Complete(s, survey, [])
    else
      var q := survey.questions[s.questionIndex];
      if IsSkip(lib, norm) then
        if !q.required then NextOrComplete(s, survey, now, Skipped(attempt, q.key, s.questionIndex))
        else Retry(s, survey, now, REQUIRED_PROMPT)
      else
        match Judge(lib, q, raw)
        case Accepted(v) => NextOrComplete(s, survey, now, Answered(attempt, q.key, s.questionIndex, v))
        case Rejected(code) => Retry(s, survey, now, Guidance(code))
  }

  /** What one text does to a session whose question exists: it releases or ends the attempt with one closing event,
      asks again without an event, or records the current question and moves on. */
  lemma StepShape(lib: Lib, s: SurveySession, raw: string, survey: Survey, now: Time, preview: bool)
    requires s.questionIndex < |survey.questions|
    ensures var a := Step(lib, s, raw, survey, now, preview);
            var outputs := if a.Consumed? then a.outputs else a.carry;
            outputs != [] && AllDisplayable(outputs)
    ensures var a := Step(lib, s, raw, survey, now, preview);
            a.Released? ==> |a.events| == 1 && a.events[0].Abandoned? && a.events[0].attempt == AttemptOf(s)
    ensures var a := Step(lib, s, raw, survey, now, preview);
            a.Consumed? && a.events == [] ==>
              !a.completed && a.next == Some(s.(retryCount := s.retryCount + 1, lastInteractedAt := now)) && s.retryCount < MAX_RETRY
    ensures var a := Step(lib, s, raw, survey, now, preview);
            a.Consumed? && a.events != [] && a.events[0].Abandoned? ==>
              a.next.None? && !a.completed && |a.events| == 1 && a.events[0].attempt == AttemptOf(s)
    ensures var a := Step(lib, s, raw, survey, now, preview);
            a.Consumed? && a.events != [] && !a.events[0].Abandoned? ==>
              && RecordsQuestion(a.events[0], AttemptOf(s), survey.questions[s.questionIndex], s.questionIndex)
              && s.structureVersion == survey.structureVersion
              && (a.completed <==> s.questionIndex + 1 == |survey.questions|)
              && (a.completed ==> a.next.None? && a.events == [a.events[0], Completed(AttemptOf(s))])
              && (!a.completed ==> |a.events| == 1)
              && (!a.completed ==>
                    a.next == Some(s.(questionIndex := s.questionIndex + 1, retryCount := 0, lastInteractedAt := now)))
  {
    hide Judge, IsCancel, IsSkip, QuestionOutputs, ValidAnswer, Guidance;
    JudgedIsValid(lib, survey.questions[s.questionIndex], raw);
    RecordedAnswer(AttemptOf(s), survey.questions[s.questionIndex], s.questionIndex);
  }

  /** An event that settles question `i`: an answer the server accepts, or a skip of an optional question. */
  ghost predicate RecordsQuestion(e: SurveyEvent, attempt: Attempt, q: Question, i: nat)
  {
    || (e.Answered? && e.attempt == attempt && e.questionKey == q.key && e.questionIndex == i && ValidAnswer(q, e.value))
    || (e.Skipped? && e.attempt == attempt && e.questionKey == q.key && e.questionIndex == i && !q.required)
  }

  lemma RecordedAnswer(attempt: Attempt, q: Question, i: nat)
    ensures forall v :: ValidAnswer(q, v) ==> RecordsQuestion(Answered(attempt, q.key, i, v), attempt, q, i)
  {
  }

  /** The text of a shown answer button records that very answer if and only if the session still lives and the text is
      neither a cancel word nor a skip word: those are looked at before the answer is judged. */
  lemma ShownButtonRecordedIff(lib: Lib, s: SurveySession, survey: Survey, now: Time, preview: bool, withIntro: bool, i: nat)
    requires s.questionIndex < |survey.questions| && QuestionLimits(survey.questions[s.questionIndex])
    requires Printable(lib, survey.questions[s.questionIndex]) && i < |AnswerButtons(survey.questions[s.questionIndex])|
    ensures i < |ShownButtons(QuestionOutputs(survey, s.questionIndex, withIntro))|
    ensures var q, raw := survey.questions[s.questionIndex], ShownButtons(QuestionOutputs(survey, s.questionIndex, withIntro))[i].value;
      var a, norm := Step(lib, s, raw, survey, now, preview), lib.normalize(raw);
      a.Consumed? && a.events != [] && a.events[0] == Answered(AttemptOf(s), q.key, s.questionIndex, MeantAnswer(q, i))
      <==> && !IsCancel(lib, survey, norm) && !IsSkip(lib, norm) && NotLive(survey, s.structureVersion, now, preview).None?
           && now - s.lastInteractedAt <= survey.sessionTimeoutMinutes * 60000
  {
    hide IsCancel, IsSkip, NotLive, QuestionOutputs, Judge, AnswerButtons, ShownButtons, MeantAnswer, Printable, Guidance;
    ShownButtonJudgedBack(lib, survey, s.questionIndex, withIntro, i);
  }

  /** A choice that is called "skip" is shown but cannot be chosen, by its button or otherwise by its name. */
  lemma SkipWordIsNotRecorded(lib: Lib, s: SurveySession, survey: Survey, now: Time, preview: bool, withIntro: bool, i: nat)
    requires s.questionIndex < |survey.questions| && QuestionLimits(survey.questions[s.questionIndex])
    requires var q := survey.questions[s.questionIndex]; q.SingleChoice? && i < |q.choices| && q.choices[i].caption == "skip"
    requires lib.normalize("skip") == "skip"
    ensures var shown := ShownButtons(QuestionOutputs(survey, s.questionIndex, withIntro));
      && i < |shown| && shown[i].value == "skip"
      && forall e :: e in Step(lib, s, "skip", survey, now, preview).events ==> !e.Answered?
  {
    hide IsCancel, NotLive, QuestionOutputs, ShownButtons, Judge, ChoiceButtons;
    NoButtonLost(survey, s.questionIndex, withIntro);
    assert QuestionButtons(survey.questions[s.questionIndex])[i] == AnswerButtons(survey.questions[s.questionIndex])[i];
    assert ContextForms.SKIP_TOKENS[2] == "skip";
  }
}
