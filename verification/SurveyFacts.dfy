/** What a survey question shows and what one text does to a running survey
    (packages/shared-types/src/survey-logic.ts, packages/dialogue-engine/src/survey-session.ts). */
module SurveyFacts {
  import opened Prelude
  import opened Texts
  import opened Dialogue
  import opened SurveyAnswers
  import opened JudgeMeaning
  import opened SurveySessions

  // ---------------------------------------------------------------- what a question shows

  /** `shown` is `text`, or its beginning and an ellipsis, `max` characters in all. */
  ghost predicate Fits(text: string, max: nat, shown: string)
  {
    if |text| <= max then shown == text else max > 0 && |shown| == max && shown == text[..max - 1] + "…"
  }

  /** A button that sends `value` as the user's own message. */
  ghost predicate Sends(b: Button, caption: string, value: string)
  {
    b.action == MESSAGE && b.value == value && Fits(caption, 40, b.caption)
  }

  ghost predicate ChoiceShown(q: Question, i: nat, b: Button)
    requires q.SingleChoice? || q.MultiChoice?
  {
    && i < |q.choices|
    && Sends(b, if q.MultiChoice? then Decimal(i + 1) + ". " + q.choices[i].caption else q.choices[i].caption, q.choices[i].caption)
  }

  ghost function LabelOf(word: Option<string>): string { if word.Some? && word.value != [] then " " + word.value else "" }

  /** Scores say `점`; the lowest and the highest also carry their label. */
  ghost predicate ScoreShown(q: Question, i: nat, b: Button)
    requires q.Scale?
  {
    var v := if q.scale.STAR_5? then i + 1 else i;
    var last := if q.scale.STAR_5? then 5 else 10;
    var suffix := if i == 0 && LabelOf(q.lowLabel) != "" then LabelOf(q.lowLabel) else if v == last then LabelOf(q.highLabel) else "";
    Sends(b, Decimal(v) + "점" + suffix, if q.scale.STAR_5? then Decimal(v) + "점" else Decimal(v))
  }

  ghost predicate AnswersShown(q: Question, answers: seq<Button>)
  {
    match q
    case FreeText(_, _, _, _) => answers == []
    case Scale(_, _, _, scale, _, _) =>
      |answers| == (if scale.STAR_5? then 5 else 11) && forall i :: 0 <= i < |answers| ==> ScoreShown(q, i, answers[i])
    case _ => |answers| == |q.choices| && forall i :: 0 <= i < |answers| ==> ChoiceShown(q, i, answers[i])
  }

  /** The answers, a way to skip unless the question must be answered, and a way to stop. */
  ghost predicate ButtonsShown(q: Question, buttons: seq<Button>)
  {
    exists answers :: AnswersShown(q, answers)
      && buttons == answers + (if q.required then [] else [Button("건너뛰기", MESSAGE, "건너뛰기")]) + [Button("그만하기", MESSAGE, "그만하기")]
  }

  /** How to answer: the way to list several choices, or the range of the scale and what its ends are called. */
  ghost predicate GuideShown(q: Question, guide: string)
  {
    match q
    case MultiChoice(_, _, _, _, _, _) => guide == "\n여러 개면 번호를 쉼표로 입력해 주세요 (예: 1,3)"
    case Scale(_, _, _, scale, lo, hi) =>
      guide == "\n(" + (if scale.STAR_5? then "1" else "0") + LabelOf(lo)
               + " ~ " + (if scale.STAR_5? then "5" else "10") + (if LabelOf(hi) == "" then "" else " ~" + LabelOf(hi)) + ")"
    case _ => guide == ""
  }

  ghost predicate IsBlock(o: Output) { o.Buttons? && o.prompt.None? && 1 <= |o.buttons| <= 5 && !o.quickReply }

  ghost predicate AsksWith(survey: Survey, i: nat, withIntro: bool, outputs: seq<Output>, intro: seq<Output>, guide: string,
                           blocks: seq<Output>, buttons: seq<Button>)
    requires i < |survey.questions|
  {
    var q := survey.questions[i];
    && outputs == intro + [Text(Decimal(i + 1) + "/" + Decimal(|survey.questions|) + " " + q.prompt + guide)] + blocks
    && intro == (if withIntro && survey.introMessage.Some? && survey.introMessage.value != [] then [Text(survey.introMessage.value)] else [])
    && GuideShown(q, guide) && ButtonsShown(q, buttons)
    && |blocks| <= 3 && (forall k :: 0 <= k < |blocks| ==> IsBlock(blocks[k]))
    && ShownButtons(blocks) == if |buttons| > 15 then buttons[..15] else buttons
  }

  /** Question `i` is asked: the introduction if it is wanted and there is one, then the place of the question, its wording and
      its guide, and then its buttons by fives, fifteen at most. */
  ghost predicate Asks(survey: Survey, i: nat, withIntro: bool, outputs: seq<Output>)
    requires i < |survey.questions|
  {
    exists intro, guide, blocks, buttons :: AsksWith(survey, i, withIntro, outputs, intro, guide, blocks, buttons)
  }

  lemma EllipsizeFits(text: string, max: nat)
    requires max > 0
    ensures Fits(text, max, Ellipsize(text, max))
  {
  }

  lemma ChoiceIsShown(q: Question, i: nat)
    requires (q.SingleChoice? || q.MultiChoice?) && i < |q.choices|
    ensures ChoiceShown(q, i, ChoiceButtons(q.MultiChoice?, q.choices, 0)[i])
  {
    hide Ellipsize, Decimal, ChoiceButtons, Fits;
    CaptionNumbered(q.choices, 0, i);
    ChoicesSend(q.MultiChoice?, q.choices, 0, i);
    EllipsizeFits(Decimal(i + 1) + ". " + q.choices[i].caption, 40);
    EllipsizeFits(q.choices[i].caption, 40);
  }

  lemma ChoicesAreShown(q: Question)
    requires q.SingleChoice? || q.MultiChoice?
    ensures AnswersShown(q, AnswerButtons(q))
  {
    hide ChoiceButtons, ChoiceShown, ScoreButtons, ScoreShown;
    var answers := ChoiceButtons(q.MultiChoice?, q.choices, 0);
    assert AnswerButtons(q) == answers;
    forall i | 0 <= i < |answers| ensures ChoiceShown(q, i, answers[i]) {
      ChoiceIsShown(q, i);
    }
  }

  lemma {:induction false} ChoicesSend(numbered: bool, choices: seq<Choice>, from: nat, i: nat)
    requires from <= i < |choices|
    ensures ChoiceButtons(numbered, choices, from)[i - from].action == MESSAGE
    decreases |choices| - from
  {
    hide Ellipsize, Decimal;
    if from < i {
      ChoicesSend(numbered, choices, from + 1, i);
      assert ChoiceButtons(numbered, choices, from)[i - from] == ChoiceButtons(numbered, choices, from + 1)[i - from - 1];
    }
  }

  lemma FirstScoreShown(q: Question, v: nat)
    requires q.Scale? && ScaleMin(q.scale) <= v <= ScaleMax(q.scale)
    ensures ScoreShown(q, v - ScaleMin(q.scale), ScoreButtons(q, v)[0])
  {
    hide Ellipsize, Decimal, Fits;
    var suffix := if v == ScaleMin(q.scale) && LabelOf(q.lowLabel) != "" then LabelOf(q.lowLabel)
                  else if v == ScaleMax(q.scale) then LabelOf(q.highLabel) else "";
    EllipsizeFits(Decimal(v) + "점" + suffix, 40);
  }

  lemma {:induction false} LaterScore(q: Question, v: nat, i: nat)
    requires q.Scale? && ScaleMin(q.scale) <= v <= i <= ScaleMax(q.scale)
    ensures ScoreButtons(q, v)[i - v] == ScoreButtons(q, i)[0]
    decreases i - v
  {
    hide Ellipsize, Decimal;
    if v < i {
      LaterScore(q, v + 1, i);
    }
  }

  lemma AnswersAreShown(q: Question)
    ensures AnswersShown(q, AnswerButtons(q))
  {
    hide ScoreButtons, ScoreShown, Decimal;
    match q {
      case FreeText(_, _, _, _) =>
      case Scale(_, _, _, scale, _, _) =>
        forall i | 0 <= i < |AnswerButtons(q)| ensures ScoreShown(q, i, AnswerButtons(q)[i]) {
          LaterScore(q, ScaleMin(scale), ScaleMin(scale) + i);
          FirstScoreShown(q, ScaleMin(scale) + i);
        }
      case _ => ChoicesAreShown(q);
    }
  }

  lemma {:induction false} BlocksShow(buttons: seq<Button>, blocks: nat)
    ensures var r := ButtonBlocks(buttons, blocks);
      && |r| <= blocks && (forall k :: 0 <= k < |r| ==> IsBlock(r[k]))
      && ShownButtons(r) == if |buttons| > 5 * blocks then buttons[..5 * blocks] else buttons
    decreases blocks
  {
    if blocks > 0 && |buttons| > BUTTONS_PER_BLOCK {
      var first := Buttons(None, buttons[..BUTTONS_PER_BLOCK], false);
      var rest := ButtonBlocks(buttons[BUTTONS_PER_BLOCK..], blocks - 1);
      BlocksShow(buttons[BUTTONS_PER_BLOCK..], blocks - 1);
      assert ([first] + rest)[1..] == rest;
      assert ShownButtons([first] + rest) == buttons[..5] + ShownButtons(rest);
      if |buttons| > 5 * blocks {
        assert buttons[5..][..5 * (blocks - 1)] == buttons[5..5 * blocks];
      }
    }
  }

  lemma GuideIsShown(q: Question)
    ensures GuideShown(q, Guide(q))
  {
    match q {
      case Scale(_, _, _, scale, lo, hi) =>
        assert Decimal(0) == "0" && Decimal(1) == "1" && Decimal(5) == "5" && Decimal(10) == "10" by { SmallDecimals(); }
        if LabelOf(hi) != "" {
          assert " ~ " + hi.value == " ~" + LabelOf(hi);
        }
        GuideParts(q, scale, lo, hi);
      case _ =>
    }
  }

  lemma SmallDecimals()
    ensures Decimal(0) == "0" && Decimal(1) == "1" && Decimal(5) == "5" && Decimal(10) == "10"
  {
    assert DigitChar(0) == '0' && DigitChar(1) == '1' && DigitChar(5) == '5';
    assert Decimal(10) == Decimal(1) + [DigitChar(0)];
  }

  lemma GuideParts(q: Question, scale: ScaleKind, lo: Option<string>, hi: Option<string>)
    requires q.Scale? && scale == q.scale && lo == q.lowLabel && hi == q.highLabel
    requires Decimal(0) == "0" && Decimal(1) == "1" && Decimal(5) == "5" && Decimal(10) == "10"
    requires LabelOf(hi) != "" ==> " ~ " + hi.value == " ~" + LabelOf(hi)
    ensures GuideShown(q, Guide(q))
  {
    hide Decimal;
  }

  /** Every question is asked so. */
  lemma QuestionAsks(survey: Survey, i: nat, withIntro: bool)
    requires i < |survey.questions|
    ensures Asks(survey, i, withIntro, QuestionOutputs(survey, i, withIntro))
  {
    hide Decimal, Guide, GuideShown, AnswersShown, AnswerButtons, ButtonBlocks, ShownButtons;
    var q := survey.questions[i];
    GuideIsShown(q);
    AnswersAreShown(q);
    BlocksShow(QuestionButtons(q), 3);
    var intro := if withIntro && survey.introMessage.Some? && survey.introMessage.value != [] then [Text(survey.introMessage.value)] else [];
    assert ButtonsShown(q, QuestionButtons(q));
    assert AsksWith(survey, i, withIntro, QuestionOutputs(survey, i, withIntro), intro, Guide(q),
                    ButtonBlocks(QuestionButtons(q), 3), QuestionButtons(q));
  }

  // ---------------------------------------------------------------- what one text does

  /** The text is a word that ends this survey, or the label of the button that does. */
  ghost predicate Stops(lib: Lib, survey: Survey, raw: string)
  {
    && lib.normalize(raw) != ""
    && (lib.normalize(raw) == lib.normalize("그만하기")
        || exists k :: 0 <= k < |survey.cancelKeywords| && lib.normalize(survey.cancelKeywords[k]) == lib.normalize(raw))
  }

  ghost predicate Skips(lib: Lib, raw: string)
  {
    lib.normalize(raw) in {"건너뛰기", "스킵", "skip", lib.normalize("건너뛰기")}
  }

  /** A preview goes on whatever the status and the period. */
  ghost predicate Open(survey: Survey, now: Time, preview: bool)
  {
    preview || (survey.status == OPEN && (survey.activeTo.Some? ==> now < survey.activeTo.value))
  }

  ghost predicate Finishes(survey: Survey, a: SurveyAdvance, before: seq<SurveyEvent>, attempt: Attempt)
  {
    a == Consumed([Text(survey.completionMessage)], None, before + [Completed(attempt)], true)
  }

  /** The current question is settled by `e`: the next one is asked, its retries counted from nought, or the survey is done. */
  ghost predicate MovesOn(s: SurveySession, survey: Survey, now: Time, e: SurveyEvent, a: SurveyAdvance, attempt: Attempt)
  {
    if s.questionIndex + 1 < |survey.questions| then
      && a.Consumed? && !a.completed && a.events == [e] && Asks(survey, s.questionIndex + 1, false, a.outputs)
      && a.next == Some(SurveySession(s.surveyId, s.structureVersion, s.nodeId, s.outputIndex, s.questionIndex + 1, 0, s.startedAt, now))
    else Finishes(survey, a, [e], attempt)
  }

  /** The same question is asked again after `words`, twice at most; the third time the survey is given up. */
  ghost predicate AsksAgain(s: SurveySession, survey: Survey, now: Time, words: string, a: SurveyAdvance, attempt: Attempt)
    requires s.questionIndex < |survey.questions|
  {
    if s.retryCount < 2 then
      && a.Consumed? && !a.completed && a.events == [] && a.outputs != [] && a.outputs[0] == Text(words)
      && Asks(survey, s.questionIndex, false, a.outputs[1..])
      && a.next == Some(SurveySession(s.surveyId, s.structureVersion, s.nodeId, s.outputIndex, s.questionIndex, s.retryCount + 1,
                                      s.startedAt, now))
    else a == Consumed([Text("입력 횟수를 초과해 설문을 마칠게요. 궁금한 점을 입력해 주세요.")], None, [Abandoned(attempt, RetryExceeded)], false)
  }

  ghost predicate Corrects(code: RetryCode, words: string)
  {
    && (code == NotAChoice ==> words == "제시된 선택지 중에서 골라 답해 주세요.")
    && (code == TooFew ==> words == "더 선택해 주세요.")
    && (code == TooMany ==> words == "너무 많이 선택했어요. 개수를 줄여 다시 답해 주세요.")
    && (code == OutOfRange ==> words == "제시된 범위 안의 숫자로 답해 주세요.")
    && (code == NotANumber ==> words == "숫자로 답해 주세요.")
    && (code == Empty ==> words == "내용을 입력해 주세요.")
    && (code == TooLong ==> words == "입력하신 내용이 너무 길어요. 조금 줄여서 다시 입력해 주세요.")
  }

  /** What the text means is recorded, or it is corrected and asked for again. */
  ghost predicate Answers(lib: Lib, s: SurveySession, raw: string, survey: Survey, now: Time, a: SurveyAdvance, attempt: Attempt)
    requires s.questionIndex < |survey.questions|
  {
    var q := survey.questions[s.questionIndex];
    || (exists v :: Means(lib, q, raw, Accepted(v)) && MovesOn(s, survey, now, Answered(attempt, q.key, s.questionIndex, v), a, attempt))
    || (exists code, words :: Means(lib, q, raw, Rejected(code)) && Corrects(code, words) && AsksAgain(s, survey, now, words, a, attempt))
  }

  ghost predicate GivenUp(a: SurveyAdvance, words: string, attempt: Attempt, reason: EndReason)
  {
    a == Released([Text(words)], [Abandoned(attempt, reason)])
  }

  /** What one text does to a running survey: to stop comes first, then whether the survey is still the same and open, then
      whether it is in time; only then is the text a skip or an answer. */
  ghost predicate Does(lib: Lib, s: SurveySession, raw: string, survey: Survey, now: Time, preview: bool, a: SurveyAdvance)
  {
    var attempt := Attempt(s.surveyId, s.structureVersion, s.startedAt);
    if Stops(lib, survey, raw) then
      a == Consumed([Text("설문을 마칠게요. 참여해 주셔서 감사합니다.")], None, [Abandoned(attempt, UserCancelled)], false)
    else if survey.structureVersion != s.structureVersion then GivenUp(a, "설문이 변경(종료)되어 진행을 마쳤어요.", attempt, DefinitionChanged)
    else if !Open(survey, now, preview) then GivenUp(a, "설문이 변경(종료)되어 진행을 마쳤어요.", attempt, SurveyClosed)
    else if now - s.lastInteractedAt > 60000 * survey.sessionTimeoutMinutes then
      GivenUp(a, "설문 참여 시간이 지나 설문을 마쳤어요.", attempt, TimedOut)
    else if s.questionIndex >= |survey.questions| then Finishes(survey, a, [], attempt)
    else
      var q := survey.questions[s.questionIndex];
      if !Skips(lib, raw) then Answers(lib, s, raw, survey, now, a, attempt)
      else if q.required then AsksAgain(s, survey, now, "이 질문은 꼭 답해 주세요.", a, attempt)
      else MovesOn(s, survey, now, Skipped(attempt, q.key, s.questionIndex), a, attempt)
  }

  lemma CancelStops(lib: Lib, survey: Survey, raw: string)
    ensures IsCancel(lib, survey, lib.normalize(raw)) <==> Stops(lib, survey, raw)
  {
    var words := Map(lib.normalize, survey.cancelKeywords);
    if lib.normalize(raw) in words {
      var k :| 0 <= k < |words| && words[k] == lib.normalize(raw);
      assert lib.normalize(survey.cancelKeywords[k]) == lib.normalize(raw);
    }
    if k :| 0 <= k < |survey.cancelKeywords| && lib.normalize(survey.cancelKeywords[k]) == lib.normalize(raw) {
      assert words[k] in words;
    }
  }

  lemma SkipSkips(lib: Lib, raw: string)
    ensures IsSkip(lib, lib.normalize(raw)) <==> Skips(lib, raw)
  {
  }

  lemma NextMovesOn(s: SurveySession, survey: Survey, now: Time, e: SurveyEvent)
    ensures MovesOn(s, survey, now, e, SurveySessions.NextOrComplete(s, survey, now, e), AttemptOf(s))
  {
    hide QuestionOutputs, Asks;
    if s.questionIndex + 1 < |survey.questions| {
      QuestionAsks(survey, s.questionIndex + 1, false);
    }
  }

  lemma RetryAsksAgain(s: SurveySession, survey: Survey, now: Time, words: string)
    requires s.questionIndex < |survey.questions|
    ensures AsksAgain(s, survey, now, words, SurveySessions.Retry(s, survey, now, words), AttemptOf(s))
  {
    hide QuestionOutputs, Asks;
    QuestionAsks(survey, s.questionIndex, false);
    var asked := QuestionOutputs(survey, s.questionIndex, false);
    assert ([Text(words)] + asked)[1..] == asked;
  }

  lemma GuidanceCorrects(code: RetryCode)
    ensures Corrects(code, Guidance(code))
  {
  }

  lemma JudgedAnswers(lib: Lib, s: SurveySession, raw: string, survey: Survey, now: Time)
    requires s.questionIndex < |survey.questions|
    ensures var q := survey.questions[s.questionIndex];
      match Judge(lib, q, raw)
      case Accepted(v) =>
        var e := Answered(AttemptOf(s), q.key, s.questionIndex, v);
        Answers(lib, s, raw, survey, now, SurveySessions.NextOrComplete(s, survey, now, e), AttemptOf(s))
      case Rejected(code) => Answers(lib, s, raw, survey, now, SurveySessions.Retry(s, survey, now, Guidance(code)), AttemptOf(s))
  {
    hide Judge, Means, MovesOn, AsksAgain, SurveySessions.NextOrComplete, SurveySessions.Retry, Guidance, Corrects;
    var q := survey.questions[s.questionIndex];
    JudgeMeans(lib, q, raw);
    match Judge(lib, q, raw) {
      case Accepted(v) => NextMovesOn(s, survey, now, Answered(AttemptOf(s), q.key, s.questionIndex, v));
      case Rejected(code) =>
        GuidanceCorrects(code);
        RetryAsksAgain(s, survey, now, Guidance(code));
    }
  }

  /** Every text, on every session of every survey, at any time. */
  lemma StepDoes(lib: Lib, s: SurveySession, raw: string, survey: Survey, now: Time, preview: bool)
    ensures Does(lib, s, raw, survey, now, preview, Step(lib, s, raw, survey, now, preview))
  {
    hide IsCancel, Stops, IsSkip, Skips, Judge, Answers, MovesOn, AsksAgain, SurveySessions.NextOrComplete, SurveySessions.Retry, Guidance;
    CancelStops(lib, survey, raw);
    SkipSkips(lib, raw);
    if s.questionIndex < |survey.questions| {
      JudgedAnswers(lib, s, raw, survey, now);
      RetryAsksAgain(s, survey, now, REQUIRED_PROMPT);
      NextMovesOn(s, survey, now, Skipped(AttemptOf(s), survey.questions[s.questionIndex].key, s.questionIndex));
    }
  }

  /** A survey begins with its first question, after its introduction if it has one, and with the event that says so. */
  lemma StartAsks(survey: Survey, nodeId: Option<Id>, outputIndex: nat, now: Time)
    requires survey.questions != []
    ensures var s := Start(survey, nodeId, outputIndex, now);
      && Asks(survey, 0, true, s.outputs)
      && s.session == SurveySession(survey.id, survey.structureVersion, nodeId, outputIndex, 0, 0, now, now)
      && s.event == Exposed(Attempt(survey.id, survey.structureVersion, now), nodeId)
  {
    hide QuestionOutputs, Asks;
    QuestionAsks(survey, 0, true);
  }

  /** Why a survey may not start: it is missing, empty, answered before, closed or out of its period, the first that applies. */
  ghost predicate Refused(survey: Option<Survey>, now: Time, completedIds: seq<Id>, preview: bool, reason: SkipReason)
  {
    match reason
    case NotFound => survey.None?
    case NoQuestions => survey.Some? && |survey.value.questions| == 0
    case AlreadyResponded => survey.Some? && |survey.value.questions| > 0 && survey.value.id in completedIds
    case NotOpen => survey.Some? && |survey.value.questions| > 0 && survey.value.id !in completedIds && !preview && survey.value.status != OPEN
    case OutOfPeriod =>
      && survey.Some? && |survey.value.questions| > 0 && survey.value.id !in completedIds && !preview && survey.value.status == OPEN
      && ((survey.value.activeFrom.Some? && survey.value.activeFrom.value > now)
          || (survey.value.activeTo.Some? && survey.value.activeTo.value <= now))
  }

  lemma RefusedIff(survey: Option<Survey>, now: Time, completedIds: seq<Id>, preview: bool, reason: SkipReason)
    ensures Unavailable(survey, now, completedIds, preview) == Some(reason) <==> Refused(survey, now, completedIds, preview, reason)
  {
  }
}
