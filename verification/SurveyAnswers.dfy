/** Printing a survey question and judging the text that comes back
    (packages/shared-types/src/survey-logic.ts). */
module SurveyAnswers {
  import opened Prelude
  import opened Texts
  import opened Dialogue

  datatype RetryCode = NotAChoice | TooFew | TooMany | OutOfRange | NotANumber | Empty | TooLong

  datatype Judgement = Accepted(value: AnswerValue) | Rejected(code: RetryCode)

  const SKIP_BUTTON_VALUE := "건너뛰기"
  const STOP_BUTTON_VALUE := "그만하기"
  const BUTTONS_PER_BLOCK := 5
  const BUTTON_BLOCKS_MAX := 3

  // ---------------------------------------------------------------- numbers in user text

  function DropSpaces(s: string): string
  {
    if s != [] && IsSpace(s[0]) then DropSpaces(s[1..]) else s
  }

  /** One or two leading digits and what follows them. */
  function LeadingNumber(s: string): Option<(nat, string)>
  {
    if s == [] || !IsDigit(s[0]) then None
    else if |s| > 1 && IsDigit(s[1]) then Some((10 * DigitValue(s[0]) + DigitValue(s[1]), s[2..]))
    else Some((DigitValue(s[0]), s[1..]))
  }

  /** `^(\d{1,2})\s*(번)?\.?$` */
  function OrdinalNumber(s: string): Option<nat>
  {
    var lead := LeadingNumber(s);
    if lead.None? then None else
      var afterSpaces := DropSpaces(lead.value.1);
      var afterUnit := if afterSpaces != [] && afterSpaces[0] == '번' then afterSpaces[1..] else afterSpaces;
      var rest := if afterUnit != [] && afterUnit[0] == '.' then afterUnit[1..] else afterUnit;
      if rest == [] then Some(lead.value.0) else None
  }

  /** A number with a minus sign or without. */
  function SignedNumber(body: string): Option<int>
  {
    if body != [] && body[0] == '-' then
      var lead := LeadingNumber(body[1..]);
      if lead.None? then None else (var n: int := lead.value.0; Some(-n))
    else
      var lead := LeadingNumber(body);
      if lead.None? then None else Some(lead.value.0)
  }

  /** `^★?\s*(-?\d{1,2})\s*(점)?` */
  function ScoreNumber(s: string): Option<int>
  {
    SignedNumber(DropSpaces(if s != [] && s[0] == '★' then s[1..] else s))
  }

  // ---------------------------------------------------------------- choices

  /** Index, from `i` on, of the first choice whose normalised label equals `norm`. */
  function ByLabelFrom(lib: Lib, choices: seq<Choice>, norm: string, i: nat): (r: Option<nat>)
    requires i <= |choices|
    ensures r.Some? ==> i <= r.value < |choices| && lib.normalize(choices[r.value].caption) == norm
    ensures r.Some? ==> forall j :: i <= j < r.value ==> lib.normalize(choices[j].caption) != norm
    ensures r.None? ==> forall j :: i <= j < |choices| ==> lib.normalize(choices[j].caption) != norm
    decreases |choices| - i
  {
    if i == |choices| then None
    else if lib.normalize(choices[i].caption) == norm then Some(i)
    else ByLabelFrom(lib, choices, norm, i + 1)
  }

  function ByLabel(lib: Lib, choices: seq<Choice>, norm: string): Option<nat>
  {
    ByLabelFrom(lib, choices, norm, 0)
  }

  ghost predicate HasKey(choices: seq<Choice>, key: Id) { exists i :: 0 <= i < |choices| && choices[i].key == key }

  function ResolveToken(lib: Lib, choices: seq<Choice>, token: string): (r: Option<Id>)
    ensures r.Some? ==> HasKey(choices, r.value)
  {
    var labelled := ByLabel(lib, choices, lib.normalize(token));
    if labelled.Some? then Some(choices[labelled.value].key)
    else
      var number := OrdinalNumber(Trim(token));
      if number.Some? && 1 <= number.value <= |choices| then Some(choices[number.value - 1].key) else None
  }

  function MatchSingle(lib: Lib, choices: seq<Choice>, raw: string): Judgement
  {
    var key := ResolveToken(lib, choices, raw);
    if key.Some? then Accepted(ChoiceAnswer([key.value])) else Rejected(NotAChoice)
  }

  predicate IsSeparator(c: char) { c in {',', '，', '、', '·'} }

  /** Cuts at every separator, trims the pieces and drops the empty ones. */
  function SplitTokens(s: string, piece: string): seq<string>
    decreases |s|
  {
    var flushed := if Trim(piece) == [] then [] else [Trim(piece)];
    if s == [] then flushed
    else if IsSeparator(s[0]) then flushed + SplitTokens(s[1..], [])
    else SplitTokens(s[1..], piece + [s[0]])
  }

  function SplitAtSpaces(s: string, piece: string): seq<string>
    decreases |s|
  {
    var flushed := if piece == [] then [] else [piece];
    if s == [] then flushed
    else if IsSpace(s[0]) then flushed + SplitAtSpaces(s[1..], [])
    else SplitAtSpaces(s[1..], piece + [s[0]])
  }

  /** `^\d+(\s+\d+)+$`, for a trimmed text. */
  predicate SpacedNumbers(s: string)
  {
    var pieces := SplitAtSpaces(s, []);
    |pieces| > 1 && forall p :: p in pieces ==> AllDigits(p)
  }

  function AnswerTokens(lib: Lib, choices: seq<Choice>, raw: string): seq<string>
  {
    var trimmed := Trim(raw);
    if ByLabel(lib, choices, lib.normalize(trimmed)).Some? then [trimmed]
    else
      var parts := SplitTokens(trimmed, []);
      if |parts| == 1 && SpacedNumbers(trimmed) then SplitAtSpaces(trimmed, []) else parts
  }

  function ResolveTokens(lib: Lib, choices: seq<Choice>, tokens: seq<string>): (r: Option<seq<Id>>)
    ensures r.Some? ==> |r.value| == |tokens|
    ensures r.Some? ==> forall i :: 0 <= i < |r.value| ==> HasKey(choices, r.value[i])
  {
    if tokens == [] then Some([])
    else
      var key := ResolveToken(lib, choices, tokens[0]);
      if key.None? then None
      else
        Prepend([key.value], ResolveTokens(lib, choices, tokens[1..]))
  }

  /** Position, from `i` on, of the first choice with this key; `|choices|` when there is none. */
  function RankFrom(choices: seq<Choice>, key: Id, i: nat): (r: nat)
    requires i <= |choices|
    ensures i <= r <= |choices|
    ensures r < |choices| ==> choices[r].key == key
    ensures forall j :: i <= j < r ==> choices[j].key != key
    decreases |choices| - i
  {
    if i == |choices| || choices[i].key == key then i else RankFrom(choices, key, i + 1)
  }

  function Rank(choices: seq<Choice>, key: Id): nat { RankFrom(choices, key, 0) }

  /** Inserts a rank into a strictly increasing list unless it is already there. */
  function InsertRank(rank: nat, ranks: seq<nat>): (r: seq<nat>)
    requires Increasing(ranks)
    ensures Increasing(r)
    ensures forall x :: x in r <==> x == rank || x in ranks
  {
    if ranks == [] then [rank]
    else if ranks[0] == rank then ranks
    else if rank < ranks[0] then [rank] + ranks
    else
      TailIsAbove(ranks);
      var rest := InsertRank(rank, ranks[1..]);
      assert forall i :: 0 <= i < |rest| ==> rest[i] in rest;
      [ranks[0]] + rest
  }

  lemma TailIsAbove(ranks: seq<nat>)
    requires Increasing(ranks) && ranks != []
    ensures Increasing(ranks[1..]) && forall x :: x in ranks[1..] ==> ranks[0] < x
  {
    forall x | x in ranks[1..] ensures ranks[0] < x {
      var j :| 0 <= j < |ranks[1..]| && ranks[1..][j] == x;
      assert ranks[j + 1] == x;
    }
  }

  predicate Increasing(ranks: seq<nat>) { forall i, j :: 0 <= i < j < |ranks| ==> ranks[i] < ranks[j] }

  function SortedRanks(choices: seq<Choice>, keys: seq<Id>): (r: seq<nat>)
    ensures Increasing(r)
    ensures forall x :: x in r ==> exists i :: 0 <= i < |keys| && x == Rank(choices, keys[i])
    ensures forall i :: 0 <= i < |keys| ==> Rank(choices, keys[i]) in r
  {
    if keys == [] then []
    else
      var front, last := keys[..|keys| - 1], keys[|keys| - 1];
      var ranks := SortedRanks(choices, front);
      assert forall i :: 0 <= i < |front| ==> front[i] == keys[i];
      InsertRank(Rank(choices, last), ranks)
  }

  /** `[...new Set(keys)].sort(byRank)` for keys of the choices: distinct keys have distinct ranks. */
  function UniqueByRank(choices: seq<Choice>, keys: seq<Id>): (r: seq<Id>)
    requires forall i :: 0 <= i < |keys| ==> HasKey(choices, keys[i])
    ensures |r| == |SortedRanks(choices, keys)|
  {
    var ranks := SortedRanks(choices, keys);
    seq(|ranks|, i requires 0 <= i < |ranks| => KeyAt(choices, keys, ranks[i]))
  }

  function KeyAt(choices: seq<Choice>, keys: seq<Id>, rank: nat): Id
    requires rank in SortedRanks(choices, keys)
    requires forall i :: 0 <= i < |keys| ==> HasKey(choices, keys[i])
  {
    assert exists i :: 0 <= i < |keys| && rank == Rank(choices, keys[i]) && HasKey(choices, keys[i]);
    choices[rank].key
  }

  /** The accepted keys of a multiple choice: those named, once each, in the order the choices are listed. */
  lemma UniqueByRankIsSorted(choices: seq<Choice>, keys: seq<Id>)
    requires forall i :: 0 <= i < |keys| ==> HasKey(choices, keys[i])
    ensures var r := UniqueByRank(choices, keys);
            && (forall i, j :: 0 <= i < j < |r| ==> Rank(choices, r[i]) < Rank(choices, r[j]))
            && (forall i :: 0 <= i < |r| ==> r[i] in keys)
            && (forall i :: 0 <= i < |keys| ==> keys[i] in r)
  {
    hide InsertRank;
    var r, ranks := UniqueByRank(choices, keys), SortedRanks(choices, keys);
    hide SortedRanks;
    forall i | 0 <= i < |r| ensures r[i] in keys && Rank(choices, r[i]) == ranks[i] {
      assert ranks[i] in ranks;
    }
    forall i | 0 <= i < |keys| ensures keys[i] in r {
      var j :| 0 <= j < |ranks| && ranks[j] == Rank(choices, keys[i]);
      assert r[j] == keys[i];
    }
  }

  function JudgeTokens(lib: Lib, choices: seq<Choice>, minSelect: nat, maxSelect: nat, tokens: seq<string>): Judgement
  {
    if tokens == [] then Rejected(NotAChoice)
    else
      var keys := ResolveTokens(lib, choices, tokens);
      if keys.None? then Rejected(NotAChoice)
      else
        var unique := UniqueByRank(choices, keys.value);
        if |unique| < minSelect then Rejected(TooFew)
        else if |unique| > maxSelect then Rejected(TooMany)
        else Accepted(ChoiceAnswer(unique))
  }

  function MatchMulti(lib: Lib, choices: seq<Choice>, minSelect: nat, maxSelect: nat, raw: string): Judgement
  {
    JudgeTokens(lib, choices, minSelect, maxSelect, AnswerTokens(lib, choices, raw))
  }

  function Prepend(keys: seq<Id>, rest: Option<seq<Id>>): Option<seq<Id>>
  {
    if rest.None? then None else Some(keys + rest.value)
  }

  // ---------------------------------------------------------------- scale and text

  function ScaleMin(k: ScaleKind): int { if k.STAR_5? then 1 else 0 }

  function ScaleMax(k: ScaleKind): int { if k.STAR_5? then 5 else 10 }

  function MatchScale(k: ScaleKind, raw: string): Judgement
  {
    var score := ScoreNumber(Trim(raw));
    if score.None? then Rejected(NotANumber)
    else if score.value < ScaleMin(k) || score.value > ScaleMax(k) then Rejected(OutOfRange)
    else Accepted(ScaleAnswer(score.value))
  }

  predicate IsControl(c: char)
  {
    c <= '\U{0008}' || c == '\U{000B}' || c == '\U{000C}' || '\U{000E}' <= c <= '\U{001F}' || c == '\U{007F}'
  }

  function StripControl(s: string): string
  {
    if s == [] then [] else (if IsControl(s[0]) then [] else [s[0]]) + StripControl(s[1..])
  }

  function MatchText(maxLength: nat, raw: string): Judgement
  {
    var cleaned := Trim(StripControl(raw));
    if cleaned == [] then Rejected(Empty)
    else if |cleaned| > maxLength then Rejected(TooLong)
    else Accepted(TextAnswer(cleaned))
  }

  function Judge(lib: Lib, q: Question, raw: string): Judgement
  {
    match q
    case SingleChoice(_, _, _, choices) => MatchSingle(lib, choices, raw)
    case MultiChoice(_, _, _, choices, lo, hi) => MatchMulti(lib, choices, lo, hi, raw)
    case Scale(_, _, _, scale, _, _) => MatchScale(scale, raw)
    case FreeText(_, _, _, maxLength) => MatchText(maxLength, raw)
  }

  /** `validateSurveyAnswerValue`: what the server accepts before it stores a value. */
  ghost predicate ValidAnswer(q: Question, v: AnswerValue)
  {
    match q
    case SingleChoice(_, _, _, choices) =>
      v.ChoiceAnswer? && |v.choiceKeys| == 1 && HasKey(choices, v.choiceKeys[0])
    case MultiChoice(_, _, _, choices, lo, hi) =>
      && v.ChoiceAnswer? && Distinct(v.choiceKeys) && lo <= |v.choiceKeys| <= hi
      && forall i :: 0 <= i < |v.choiceKeys| ==> HasKey(choices, v.choiceKeys[i])
    case Scale(_, _, _, scale, _, _) => v.ScaleAnswer? && ScaleMin(scale) <= v.score <= ScaleMax(scale)
    case FreeText(_, _, _, maxLength) => v.TextAnswer? && 1 <= |v.text| <= maxLength
  }

  lemma TokensJudgedValid(lib: Lib, q: Question, tokens: seq<string>)
    requires q.MultiChoice?
    ensures var j := JudgeTokens(lib, q.choices, q.minSelect, q.maxSelect, tokens);
            j.Accepted? ==> ValidAnswer(q, j.value)
  {
    var keys := ResolveTokens(lib, q.choices, tokens);
    if keys.Some? {
      UniqueByRankIsSorted(q.choices, keys.value);
      var unique := UniqueByRank(q.choices, keys.value);
      forall i, j | 0 <= i < j < |unique| ensures unique[i] != unique[j] {
        assert Rank(q.choices, unique[i]) < Rank(q.choices, unique[j]);
      }
    }
  }

  /** Whatever the user types, an answer the judge accepts passes the server's own check. */
  lemma JudgedIsValid(lib: Lib, q: Question, raw: string)
    ensures Judge(lib, q, raw).Accepted? ==> ValidAnswer(q, Judge(lib, q, raw).value)
  {
    if q.MultiChoice? {
      TokensJudgedValid(lib, q, AnswerTokens(lib, q.choices, raw));
    }
  }

  // ---------------------------------------------------------------- printing

  function Ellipsize(s: string, max: nat): string
    requires max > 0
  {
    if |s| > max then s[..max - 1] + "…" else s
  }

  function MessageButton(caption: string, value: string): Button { Button(caption, MESSAGE, value) }

  function ChoiceButtons(numbered: bool, choices: seq<Choice>, from: nat): (r: seq<Button>)
    requires from <= |choices|
    ensures |r| == |choices| - from
    ensures forall i :: 0 <= i < |r| ==> r[i].value == choices[from + i].caption
    decreases |choices| - from
  {
    if from == |choices| then []
    else
      var c := choices[from];
      var caption := if numbered then Decimal(from + 1) + ". " + c.caption else c.caption;
      [MessageButton(Ellipsize(caption, 40), c.caption)] + ChoiceButtons(numbered, choices, from + 1)
  }

  function ScoreText(k: ScaleKind, v: nat): string
  {
    if k.STAR_5? then Decimal(v) + "점" else Decimal(v)
  }

  function ScoreButtons(q: Question, v: nat): (r: seq<Button>)
    requires q.Scale? && ScaleMin(q.scale) <= v <= ScaleMax(q.scale) + 1
    ensures |r| == ScaleMax(q.scale) + 1 - v
    ensures forall i :: 0 <= i < |r| ==> r[i].value == ScoreText(q.scale, v + i)
    decreases ScaleMax(q.scale) + 1 - v
  {
    if v == ScaleMax(q.scale) + 1 then []
    else
      var lowest := v == ScaleMin(q.scale) && q.lowLabel.Some? && q.lowLabel.value != [];
      var highest := v == ScaleMax(q.scale) && q.highLabel.Some? && q.highLabel.value != [];
      var suffix := if lowest then " " + q.lowLabel.value else if highest then " " + q.highLabel.value else "";
      [MessageButton(Ellipsize(Decimal(v) + "점" + suffix, 40), ScoreText(q.scale, v))] + ScoreButtons(q, v + 1)
  }

  /** The answer buttons of a question, before the skip and stop buttons. */
  function AnswerButtons(q: Question): seq<Button>
  {
    match q
    case SingleChoice(_, _, _, choices) => ChoiceButtons(false, choices, 0)
    case MultiChoice(_, _, _, choices, _, _) => ChoiceButtons(true, choices, 0)
    case Scale(_, _, _, scale, _, _) => ScoreButtons(q, ScaleMin(scale))
    case FreeText(_, _, _, _) => []
  }

  function QuestionButtons(q: Question): seq<Button>
  {
    AnswerButtons(q)
    + (if q.required then [] else [MessageButton(SKIP_BUTTON_VALUE, SKIP_BUTTON_VALUE)])
    + [MessageButton(STOP_BUTTON_VALUE, STOP_BUTTON_VALUE)]
  }

  /** At most `blocks` button outputs of five buttons each; what does not fit is lost. */
  function ButtonBlocks(buttons: seq<Button>, blocks: nat): (r: seq<Output>)
    ensures |r| <= blocks
    ensures forall i :: 0 <= i < |r| ==> r[i].Buttons?
    decreases blocks
  {
    if buttons == [] || blocks == 0 then []
    else if |buttons| <= BUTTONS_PER_BLOCK then [Buttons(None, buttons, false)]
    else [Buttons(None, buttons[..BUTTONS_PER_BLOCK], false)] + ButtonBlocks(buttons[BUTTONS_PER_BLOCK..], blocks - 1)
  }

  function Guide(q: Question): string
  {
    match q
    case MultiChoice(_, _, _, _, _, _) => "\n여러 개면 번호를 쉼표로 입력해 주세요 (예: 1,3)"
    case Scale(_, _, _, scale, lo, hi) =>
      var low := if lo.Some? && lo.value != [] then " " + lo.value else "";
      var high := if hi.Some? && hi.value != [] then " ~ " + hi.value else "";
      "\n(" + Decimal(ScaleMin(scale)) + low + " ~ " + Decimal(ScaleMax(scale)) + high + ")"
    case _ => ""
  }

  function QuestionText(survey: Survey, index: nat): Output
    requires index < |survey.questions|
  {
    var q := survey.questions[index];
    Text(Decimal(index + 1) + "/" + Decimal(|survey.questions|) + " " + q.prompt + Guide(q))
  }

  function QuestionOutputs(survey: Survey, index: nat, withIntro: bool): (r: seq<Output>)
    requires index < |survey.questions|
    ensures r != [] && AllDisplayable(r)
  {
    var intro := if withIntro && survey.introMessage.Some? && survey.introMessage.value != []
                 then [Text(survey.introMessage.value)] else [];
    intro + [QuestionText(survey, index)] + ButtonBlocks(QuestionButtons(survey.questions[index]), BUTTON_BLOCKS_MAX)
  }

  /** The block loop of `buildSurveyQuestionOutputs`: chunk by five, keep three, append. */
  method AppendBlocks(outputs: seq<Output>, buttons: seq<Button>) returns (r: seq<Output>)
    ensures r == outputs + ButtonBlocks(buttons, BUTTON_BLOCKS_MAX)
  {
    r := outputs;
    var i, blocks := 0, 0;
    while i < |buttons| && blocks < BUTTON_BLOCKS_MAX
      invariant 0 <= i && 0 <= blocks <= BUTTON_BLOCKS_MAX
      invariant outputs + ButtonBlocks(buttons, BUTTON_BLOCKS_MAX) ==
                r + (if i <= |buttons| then ButtonBlocks(buttons[i..], BUTTON_BLOCKS_MAX - blocks) else [])
    {
      var end := if i + BUTTONS_PER_BLOCK < |buttons| then i + BUTTONS_PER_BLOCK else |buttons|;
      ghost var rest := buttons[i..];
      assert |rest| > BUTTONS_PER_BLOCK ==> rest[..BUTTONS_PER_BLOCK] == buttons[i..end];
      assert |rest| > BUTTONS_PER_BLOCK ==> rest[BUTTONS_PER_BLOCK..] == buttons[i + BUTTONS_PER_BLOCK..];
      assert |rest| <= BUTTONS_PER_BLOCK ==> rest == buttons[i..end];
      r := r + [Buttons(None, buttons[i..end], false)];
      i := i + BUTTONS_PER_BLOCK;
      blocks := blocks + 1;
    }
  }

  /** All buttons shown by a list of outputs, in order. */
  function ShownButtons(outputs: seq<Output>): seq<Button>
  {
    if outputs == [] then []
    else (if outputs[0].Buttons? then outputs[0].buttons else []) + ShownButtons(outputs[1..])
  }

  lemma {:induction false} ShownButtonsAppend(a: seq<Output>, b: seq<Output>)
    ensures ShownButtons(a + b) == ShownButtons(a) + ShownButtons(b)
  {
    if a == [] {
      assert a + b == b;
    } else {
      ShownButtonsAppend(a[1..], b);
      assert (a + b)[1..] == a[1..] + b;
    }
  }

  lemma {:induction false} BlocksLoseNothing(buttons: seq<Button>, blocks: nat)
    requires |buttons| <= BUTTONS_PER_BLOCK * blocks
    ensures ShownButtons(ButtonBlocks(buttons, blocks)) == buttons
  {
    if BUTTONS_PER_BLOCK < |buttons| {
      BlocksLoseNothing(buttons[BUTTONS_PER_BLOCK..], blocks - 1);
      var first := Buttons(None, buttons[..BUTTONS_PER_BLOCK], false);
      assert ButtonBlocks(buttons, blocks)[1..] == ButtonBlocks(buttons[BUTTONS_PER_BLOCK..], blocks - 1);
    }
  }

  /** The size limits of the question schema that keep every button within three blocks. */
  predicate QuestionLimits(q: Question)
  {
    (q.SingleChoice? || q.MultiChoice?) ==> |q.choices| <= 10
  }

  /** No button of a question is lost to the cap of three blocks. */
  lemma NoButtonLost(survey: Survey, index: nat, withIntro: bool)
    requires index < |survey.questions| && QuestionLimits(survey.questions[index])
    ensures ShownButtons(QuestionOutputs(survey, index, withIntro)) == QuestionButtons(survey.questions[index])
  {
    var q := survey.questions[index];
    var blocks := ButtonBlocks(QuestionButtons(q), BUTTON_BLOCKS_MAX);
    BlocksLoseNothing(QuestionButtons(q), BUTTON_BLOCKS_MAX);
    var intro := if withIntro && survey.introMessage.Some? && survey.introMessage.value != []
                 then [Text(survey.introMessage.value)] else [];
    ShownButtonsAppend(intro + [QuestionText(survey, index)], blocks);
    ShownButtonsAppend(intro, [QuestionText(survey, index)]);
  }

  // ---------------------------------------------------------------- printed buttons are judged back

  ghost predicate DistinctLabels(lib: Lib, choices: seq<Choice>)
  {
    forall i, j :: 0 <= i < j < |choices| ==> lib.normalize(choices[i].caption) != lib.normalize(choices[j].caption)
  }

  /** What the printed answer button `i` stands for. */
  function MeantAnswer(q: Question, i: nat): AnswerValue
    requires i < |AnswerButtons(q)|
  {
    match q
    case SingleChoice(_, _, _, choices) => ChoiceAnswer([choices[i].key])
    case MultiChoice(_, _, _, choices, _, _) => ChoiceAnswer([choices[i].key])
    case Scale(_, _, _, scale, _, _) => ScaleAnswer(ScaleMin(scale) + i)
  }

  ghost predicate Printable(lib: Lib, q: Question)
  {
    match q
    case SingleChoice(_, _, _, choices) => DistinctLabels(lib, choices)
    case MultiChoice(_, _, _, choices, lo, hi) =>
      DistinctLabels(lib, choices) && lo == 1 <= hi && forall c :: c in choices ==> Trimmed(c.caption)
    case _ => true
  }

  lemma DigitRead(d: nat, unit: string)
    requires d < 10 && (unit == "" || unit == "점")
    ensures Decimal(d) == [DigitChar(d)]
    ensures LeadingNumber(Decimal(d) + unit) == Some((d, unit))
  {
    var s := Decimal(d) + unit;
    assert s[0] == DigitChar(d) && s[1..] == unit;
  }

  lemma TenRead(unit: string)
    requires unit == "" || unit == "점"
    ensures Decimal(10) == [DigitChar(1), DigitChar(0)]
    ensures LeadingNumber(Decimal(10) + unit) == Some((10, unit))
  {
    assert Decimal(1) == [DigitChar(1)];
    var s := Decimal(10) + unit;
    assert s[0] == DigitChar(1) && s[1] == DigitChar(0) && s[2..] == unit;
  }

  lemma ScoreReadBack(k: ScaleKind, v: nat)
    requires v <= 10
    ensures ScoreNumber(Trim(ScoreText(k, v))) == Some(v)
  {
    hide Trim, LeadingNumber, Decimal;
    var s := ScoreText(k, v);
    var unit := if k.STAR_5? then "점" else "";
    assert s == Decimal(v) + unit;
    if v < 10 {
      DigitRead(v, unit);
    } else {
      TenRead(unit);
    }
    assert IsDigit(s[0]) && (IsDigit(s[|s| - 1]) || s[|s| - 1] == '점');
    TrimStable(s);
    assert DropSpaces(s) == s;
  }

  lemma OneTokenJudged(lib: Lib, q: Question, token: string, i: nat)
    requires q.MultiChoice? && q.minSelect == 1 <= q.maxSelect && i < |q.choices|
    requires ByLabel(lib, q.choices, lib.normalize(token)) == Some(i)
    ensures JudgeTokens(lib, q.choices, q.minSelect, q.maxSelect, [token]) == Accepted(ChoiceAnswer([q.choices[i].key]))
  {
    var key := q.choices[i].key;
    assert [token][1..] == [] && [token][0] == token;
    assert ResolveToken(lib, q.choices, token) == Some(key);
    assert ResolveTokens(lib, q.choices, []) == Some([]) && [key] + [] == [key];
    assert ResolveTokens(lib, q.choices, [token]) == Some([key]);
    assert [key][..0] == [];
    assert SortedRanks(q.choices, [key]) == [Rank(q.choices, key)];
    assert UniqueByRank(q.choices, [key]) == [key];
  }

  lemma LabelIsFound(lib: Lib, choices: seq<Choice>, i: nat)
    requires i < |choices| && DistinctLabels(lib, choices)
    ensures ByLabel(lib, choices, lib.normalize(choices[i].caption)) == Some(i)
  {
  }

  lemma LabelIsOneToken(lib: Lib, choices: seq<Choice>, i: nat)
    requires i < |choices| && DistinctLabels(lib, choices) && Trimmed(choices[i].caption)
    ensures ByLabel(lib, choices, lib.normalize(choices[i].caption)) == Some(i)
    ensures AnswerTokens(lib, choices, choices[i].caption) == [choices[i].caption]
  {
    hide ByLabel, Trim, SplitTokens, SplitAtSpaces, SpacedNumbers, Trimmed;
    LabelIsFound(lib, choices, i);
    TrimStable(choices[i].caption);
  }

  lemma SingleLabelJudged(lib: Lib, choices: seq<Choice>, i: nat)
    requires i < |choices| && DistinctLabels(lib, choices)
    ensures MatchSingle(lib, choices, choices[i].caption) == Accepted(ChoiceAnswer([choices[i].key]))
  {
    hide ByLabel;
    LabelIsFound(lib, choices, i);
  }

  lemma MultiLabelJudged(lib: Lib, q: Question, i: nat)
    requires q.MultiChoice? && Printable(lib, q) && i < |q.choices|
    ensures MatchMulti(lib, q.choices, q.minSelect, q.maxSelect, q.choices[i].caption)
            == Accepted(ChoiceAnswer([q.choices[i].key]))
  {
    assert q.choices[i] in q.choices;
    LabelIsOneToken(lib, q.choices, i);
    OneTokenJudged(lib, q, q.choices[i].caption, i);
  }

  lemma ScoreJudged(k: ScaleKind, v: nat)
    requires ScaleMin(k) <= v <= ScaleMax(k)
    ensures MatchScale(k, ScoreText(k, v)) == Accepted(ScaleAnswer(v))
  {
    ScoreReadBack(k, v);
  }

  lemma ScoreButtonJudged(lib: Lib, q: Question, i: nat)
    requires q.Scale? && i < |AnswerButtons(q)|
    ensures Judge(lib, q, AnswerButtons(q)[i].value) == Accepted(MeantAnswer(q, i))
  {
    hide MatchSingle, MatchMulti, MatchText, MatchScale, ScoreText, ChoiceButtons, Decimal, Ellipsize;
    ScoreJudged(q.scale, ScaleMin(q.scale) + i);
  }

  lemma ChoiceButtonJudged(lib: Lib, q: Question, i: nat)
    requires (q.SingleChoice? || q.MultiChoice?) && Printable(lib, q) && i < |q.choices|
    ensures |AnswerButtons(q)| == |q.choices|
    ensures Judge(lib, q, AnswerButtons(q)[i].value) == Accepted(MeantAnswer(q, i))
  {
    hide MatchSingle, MatchMulti, MatchText, MatchScale, ChoiceButtons, ScoreButtons, DistinctLabels;
    assert AnswerButtons(q)[i].value == q.choices[i].caption;
    if q.SingleChoice? {
      SingleLabelJudged(lib, q.choices, i);
    } else {
      MultiLabelJudged(lib, q, i);
    }
  }

  lemma AnswerButtonJudged(lib: Lib, q: Question, i: nat)
    requires Printable(lib, q) && i < |AnswerButtons(q)|
    ensures Judge(lib, q, AnswerButtons(q)[i].value) == Accepted(MeantAnswer(q, i))
  {
    hide Judge, ChoiceButtons, ScoreButtons, Printable;
    if q.Scale? {
      ScoreButtonJudged(lib, q, i);
    } else {
      ChoiceButtonJudged(lib, q, i);
    }
  }

  /** Every choice or score button that a question shows is judged back to exactly that choice or score. */
  lemma ShownButtonJudgedBack(lib: Lib, survey: Survey, index: nat, withIntro: bool, i: nat)
    requires index < |survey.questions| && QuestionLimits(survey.questions[index])
    requires Printable(lib, survey.questions[index])
    requires i < |AnswerButtons(survey.questions[index])|
    ensures i < |ShownButtons(QuestionOutputs(survey, index, withIntro))|
    ensures Judge(lib, survey.questions[index], ShownButtons(QuestionOutputs(survey, index, withIntro))[i].value)
            == Accepted(MeantAnswer(survey.questions[index], i))
  {
    NoButtonLost(survey, index, withIntro);
    AnswerButtonJudged(lib, survey.questions[index], i);
    assert QuestionButtons(survey.questions[index])[i] == AnswerButtons(survey.questions[index])[i];
  }

  // ---------------------------------------------------------------- availability

  datatype SkipReason = NotFound | NotOpen | OutOfPeriod | AlreadyResponded | NoQuestions

  /** The survey is open and its period has begun and not ended. */
  predicate IsOpenAt(survey: Survey, now: Time)
  {
    && survey.status == OPEN
    && (survey.activeFrom.Some? ==> survey.activeFrom.value <= now)
    && (survey.activeTo.Some? ==> now < survey.activeTo.value)
  }

  /** `evaluateSurveyAvailability`: `None` when the survey may start. A preview lifts the status and the period, but not
      the check that it was not completed before. */
  function Unavailable(survey: Option<Survey>, now: Time, completedIds: seq<Id>, preview: bool): (r: Option<SkipReason>)
    ensures r.None? <==>
      && survey.Some? && survey.value.questions != [] && survey.value.id !in completedIds
      && (preview || IsOpenAt(survey.value, now))
  {
    if survey.None? then Some(NotFound)
    else if survey.value.questions == [] then Some(NoQuestions)
    else if survey.value.id in completedIds then Some(AlreadyResponded)
    else if !preview && survey.value.status != OPEN then Some(NotOpen)
    else if !preview && survey.value.activeFrom.Some? && now < survey.value.activeFrom.value then Some(OutOfPeriod)
    else if !preview && survey.value.activeTo.Some? && now >= survey.value.activeTo.value then Some(OutOfPeriod)
    else None
  }

  /** `isSurveyLive`: `None` while a running attempt may go on. */
  function NotLive(survey: Survey, structureVersion: nat, now: Time, preview: bool): Option<EndReason>
  {
    if survey.structureVersion != structureVersion then Some(DefinitionChanged)
    else if !preview && survey.status != OPEN then Some(SurveyClosed)
    else if !preview && survey.activeTo.Some? && now >= survey.activeTo.value then Some(SurveyClosed)
    else None
  }
}
