/** Slot-filling forms: transitions of one form session (packages/dialogue-engine/src/context-session.ts). */
module ContextForms {
  import opened Prelude
  import opened Dialogue

  const CANCEL_MESSAGE := "요청을 취소했어요."
  const RETRY_LIMIT_MESSAGE := "입력 횟수를 초과해 진행을 중단할게요."
  const EXPIRED_MESSAGE := "오랜 시간 응답이 없어 이전 진행이 만료됐어요."
  const SKIP_TOKENS := ["건너뛰기", "스킵", "skip"]

  // ---------------------------------------------------------------- slot values

  datatype SlotCheck = Valid(value: string) | Invalid(error: string)

  /** The first of `options`, from `i` on, that normalises to `norm`. */
  function FirstNormalised(lib: Lib, options: seq<string>, norm: string, i: nat): (r: Option<string>)
    requires i <= |options|
    ensures r.Some? ==> r.value in options && lib.normalize(r.value) == norm
    decreases |options| - i
  {
    if i == |options| then None
    else if lib.normalize(options[i]) == norm then Some(options[i])
    else FirstNormalised(lib, options, norm, i + 1)
  }

  function CheckSlotValue(lib: Lib, slot: FormSlot, raw: string, keywords: seq<Keyword>): SlotCheck
  {
    var trimmed := Trim(raw);
    if trimmed == [] then Invalid("값을 입력해 주세요.")
    else
      match slot.kind
      case CHOICE =>
        var matched := FirstNormalised(lib, slot.choices, lib.normalize(trimmed), 0);
        if matched.None? then Invalid("제시된 선택지 중에서 선택해 주세요.") else Valid(matched.value)
      case KEYWORD =>
        var keyword := if slot.keywordId.Some? then FindKeyword(keywords, slot.keywordId.value) else None;
        if keyword.None? then Invalid("연결된 키워드를 찾을 수 없습니다.")
        else if lib.normalize(keyword.value.name) == lib.normalize(trimmed) then Valid(keyword.value.name)
        else if FirstNormalised(lib, keyword.value.synonyms, lib.normalize(trimmed), 0).Some? then Valid(keyword.value.name)
        else Invalid("등록된 값과 일치하지 않습니다.")
      case _ =>
        var error := lib.slotFormat(slot, trimmed);
        if error.Some? then Invalid(error.value) else Valid(trimmed)
  }

  /** What the slot and keyword schemas require of names and choices. */
  ghost predicate SlotAssets(slot: FormSlot, keywords: seq<Keyword>)
  {
    && (forall c :: c in slot.choices ==> c != [] && Trimmed(c))
    && (forall k :: k in keywords ==> k.name != [] && Trimmed(k.name))
  }

  lemma {:induction false} FirstNormalisedAgain(lib: Lib, options: seq<string>, norm: string, i: nat)
    requires i <= |options| && FirstNormalised(lib, options, norm, i).Some?
    ensures var found := FirstNormalised(lib, options, norm, i).value;
            FirstNormalised(lib, options, lib.normalize(found), i) == Some(found)
    decreases |options| - i
  {
    if lib.normalize(options[i]) != norm {
      FirstNormalisedAgain(lib, options, norm, i + 1);
    }
  }

  /** A value that a slot stored is a value the slot accepts again, unchanged. */
  lemma StoredValueRevalidates(lib: Lib, slot: FormSlot, raw: string, keywords: seq<Keyword>)
    requires SlotAssets(slot, keywords)
    ensures var c := CheckSlotValue(lib, slot, raw, keywords);
            c.Valid? ==> CheckSlotValue(lib, slot, c.value, keywords) == c
  {
    hide Trim, FirstNormalised, FindKeyword;
    var c := CheckSlotValue(lib, slot, raw, keywords);
    if c.Valid? {
      TrimStable(c.value);
      if slot.kind.CHOICE? {
        FirstNormalisedAgain(lib, slot.choices, lib.normalize(Trim(raw)), 0);
      }
    }
  }

  // ---------------------------------------------------------------- transitions

  datatype Advance = Advance(state: FormSession, outputs: seq<Output>)

  function ChoiceButtons(choices: seq<string>): seq<Button>
  {
    if choices == [] then [] else [Button(choices[0], MESSAGE, choices[0])] + ChoiceButtons(choices[1..])
  }

  function Prompt(slot: FormSlot): (r: seq<Output>)
    ensures r != [] && AllDisplayable(r)
  {
    [Text(slot.prompt)]
    + if slot.kind.CHOICE? && slot.choices != []
      then [Buttons(None, ChoiceButtons(slot.choices[..Min(5, |slot.choices|)]), false)] else []
  }

  function Start(form: Form, now: Time): FormSession
  {
    FormSession(form.id, 0, map[], 0, now, now, IN_PROGRESS)
  }

  function Complete(lib: Lib, s: FormSession, form: Form, now: Time): Advance
  {
    var message := if form.completionMessage.Some? && form.completionMessage.value != []
                   then lib.completionText(form.completionMessage.value, s.filledValues) else "";
    Advance(s.(status := COMPLETED, lastInteractedAt := now), if message != [] then [Text(message)] else [])
  }

  function NextOrComplete(lib: Lib, s: FormSession, form: Form, now: Time): Advance
  {
    if s.currentSlotIndex >= |form.slots| then Complete(lib, s, form, now)
    else Advance(s, Prompt(form.slots[s.currentSlotIndex]))
  }

  predicate NamesCancel(lib: Lib, words: seq<string>, norm: string)
  {
    words != [] && (lib.containsWord(norm, lib.normalize(words[0])) || NamesCancel(lib, words[1..], norm))
  }

  function RetryText(slot: FormSlot, error: string): string
  {
    var custom := if slot.errorPrompt.Some? then Trim(slot.errorPrompt.value) else "";
    var example := if slot.exampleValue.Some? && slot.exampleValue.value != [] then " (예: " + slot.exampleValue.value + ")" else "";
    if custom != [] then custom else error + example
  }

  function ExpiredButtons(): Output
  {
    Buttons(Some(EXPIRED_MESSAGE),
            [Button("이어서 하기", MESSAGE, "이어서 하기"), Button("처음부터", MESSAGE, "처음부터")], false)
  }

  /** `advanceContextSession`: cancel word, timeout, skip, value check, completion, in this order. */
  function Step(lib: Lib, s: FormSession, raw: string, form: Form, now: Time, keywords: seq<Keyword>): Advance
  {
    var norm := lib.normalize(raw);
    if NamesCancel(lib, form.cancelKeywords, norm) then
      Advance(s.(status := CANCELLED, lastInteractedAt := now), [Text(CANCEL_MESSAGE)])
    else if now - s.lastInteractedAt > form.sessionTimeoutMinutes * 60000 then
      Advance(s.(status := EXPIRED, lastInteractedAt := now), [ExpiredButtons()])
    else if s.currentSlotIndex >= |form.slots| then Complete(lib, s, form, now)
    else
      var slot := form.slots[s.currentSlotIndex];
      var moved := s.(currentSlotIndex := s.currentSlotIndex + 1, retryCount := 0, lastInteractedAt := now);
      if !slot.required && norm in SKIP_TOKENS then NextOrComplete(lib, moved, form, now)
      else
        match CheckSlotValue(lib, slot, raw, keywords)
        case Valid(v) => NextOrComplete(lib, moved.(filledValues := s.filledValues[slot.name := v]), form, now)
        case Invalid(error) =>
          if s.retryCount + 1 > slot.maxRetry then
            Advance(s.(status := CANCELLED, lastInteractedAt := now), [Text(RETRY_LIMIT_MESSAGE)])
          else
            Advance(s.(retryCount := s.retryCount + 1, lastInteractedAt := now), [Text(RetryText(slot, error))])
  }

  lemma StepOutputs(lib: Lib, s: FormSession, raw: string, form: Form, now: Time, keywords: seq<Keyword>)
    ensures var a := Step(lib, s, raw, form, now, keywords);
            && AllDisplayable(a.outputs)
            && (a.state.status != COMPLETED && s.status == IN_PROGRESS ==> a.outputs != [])
            && a.state.startedAt == s.startedAt && a.state.contextVariableId == s.contextVariableId
  {
    hide CheckSlotValue, NamesCancel, RetryText;
  }

  // ---------------------------------------------------------------- the invariant of a running form

  ghost predicate WellFormed(form: Form, keywords: seq<Keyword>)
  {
    && form.slots != []
    && (forall i, j :: 0 <= i < j < |form.slots| ==> form.slots[i].name != form.slots[j].name)
    && (forall i :: 0 <= i < |form.slots| ==> SlotAssets(form.slots[i], keywords))
  }

  ghost predicate FilledSoFar(lib: Lib, s: FormSession, form: Form, keywords: seq<Keyword>)
  {
    && s.currentSlotIndex <= |form.slots|
    && (forall name :: name in s.filledValues ==> exists i :: 0 <= i < s.currentSlotIndex && form.slots[i].name == name)
    && (forall i :: 0 <= i < s.currentSlotIndex && form.slots[i].required ==> form.slots[i].name in s.filledValues)
    && (forall i :: 0 <= i < s.currentSlotIndex && form.slots[i].name in s.filledValues ==>
          var v := s.filledValues[form.slots[i].name];
          CheckSlotValue(lib, form.slots[i], v, keywords) == Valid(v))
  }

  /** What holds of every session that a form reaches from its start: nothing at or past the current slot is filled,
      every earlier required slot is, and every stored value would be accepted again. */
  ghost predicate Sound(lib: Lib, s: FormSession, form: Form, keywords: seq<Keyword>)
  {
    && s.contextVariableId == form.id
    && FilledSoFar(lib, s, form, keywords)
    && (s.status == IN_PROGRESS ==>
          s.currentSlotIndex < |form.slots| && s.retryCount <= form.slots[s.currentSlotIndex].maxRetry)
    && (s.status == COMPLETED ==> s.currentSlotIndex == |form.slots|)
  }

  lemma FillingKeepsSound(lib: Lib, s: FormSession, form: Form, keywords: seq<Keyword>, v: string, raw: string)
    requires WellFormed(form, keywords) && FilledSoFar(lib, s, form, keywords) && s.currentSlotIndex < |form.slots|
    requires CheckSlotValue(lib, form.slots[s.currentSlotIndex], raw, keywords) == Valid(v)
    ensures FilledSoFar(lib, s.(currentSlotIndex := s.currentSlotIndex + 1,
                                filledValues := s.filledValues[form.slots[s.currentSlotIndex].name := v]), form, keywords)
  {
    hide CheckSlotValue;
    var slot := form.slots[s.currentSlotIndex];
    StoredValueRevalidates(lib, slot, raw, keywords);
    forall i | 0 <= i < s.currentSlotIndex ensures form.slots[i].name != slot.name {
    }
  }

  /** One answer keeps the form sound, and brings it closer to its end if it is still in progress. */
  lemma StepKeepsSound(lib: Lib, s: FormSession, raw: string, form: Form, now: Time, keywords: seq<Keyword>)
    requires WellFormed(form, keywords) && Sound(lib, s, form, keywords) && s.status == IN_PROGRESS
    ensures Sound(lib, Step(lib, s, raw, form, now, keywords).state, form, keywords)
    ensures var next := Step(lib, s, raw, form, now, keywords).state;
            next.status == IN_PROGRESS ==>
              || (next.currentSlotIndex == s.currentSlotIndex && next.retryCount == s.retryCount + 1)
              || (next.currentSlotIndex == s.currentSlotIndex + 1 && next.retryCount == 0)
  {
    hide CheckSlotValue, NamesCancel, RetryText, FilledSoFar;
    var slot := form.slots[s.currentSlotIndex];
    assert s.currentSlotIndex < |form.slots|;
    var check := CheckSlotValue(lib, slot, raw, keywords);
    var moved := s.(currentSlotIndex := s.currentSlotIndex + 1);
    if check.Valid? {
      FillingKeepsSound(lib, s, form, keywords, check.value, raw);
      FilledIgnores(lib, moved.(filledValues := s.filledValues[slot.name := check.value]), form, keywords);
    }
    FilledIgnores(lib, s, form, keywords);
    if !slot.required {
      SkippingKeepsFilled(lib, s, form, keywords);
      FilledIgnores(lib, moved, form, keywords);
    }
  }

  /** Only the slot index and the values matter to `FilledSoFar`. */
  lemma FilledIgnores(lib: Lib, s: FormSession, form: Form, keywords: seq<Keyword>)
    ensures forall t: FormSession :: t.currentSlotIndex == s.currentSlotIndex && t.filledValues == s.filledValues ==>
              FilledSoFar(lib, t, form, keywords) == FilledSoFar(lib, s, form, keywords)
  {
    hide CheckSlotValue;
  }

  lemma SkippingKeepsFilled(lib: Lib, s: FormSession, form: Form, keywords: seq<Keyword>)
    requires WellFormed(form, keywords) && FilledSoFar(lib, s, form, keywords)
    requires s.currentSlotIndex < |form.slots| && !form.slots[s.currentSlotIndex].required
    ensures FilledSoFar(lib, s.(currentSlotIndex := s.currentSlotIndex + 1), form, keywords)
  {
    hide CheckSlotValue;
  }

  // ---------------------------------------------------------------- whole runs

  datatype TextTurn = TextTurn(raw: string, now: Time)

  /** The session after a list of answers; a form that has ended takes no more of them. */
  function Run(lib: Lib, s: FormSession, turns: seq<TextTurn>, form: Form, keywords: seq<Keyword>): FormSession
    decreases |turns|
  {
    if turns == [] || s.status != IN_PROGRESS then s
    else Run(lib, Step(lib, s, turns[0].raw, form, turns[0].now, keywords).state, turns[1..], form, keywords)
  }

  /** Answers still allowed from slot `i` on: one plus the retries of each slot. */
  function Budget(form: Form, i: nat): nat
    requires i <= |form.slots|
    decreases |form.slots| - i
  {
    if i == |form.slots| then 0 else form.slots[i].maxRetry + 1 + Budget(form, i + 1)
  }

  function AnswersLeft(form: Form, s: FormSession): int
    requires s.currentSlotIndex <= |form.slots|
  {
    Budget(form, s.currentSlotIndex) - s.retryCount
  }

  lemma {:induction false} RunKeepsSound(lib: Lib, s: FormSession, turns: seq<TextTurn>, form: Form, keywords: seq<Keyword>)
    requires WellFormed(form, keywords) && Sound(lib, s, form, keywords)
    ensures Sound(lib, Run(lib, s, turns, form, keywords), form, keywords)
    ensures Run(lib, s, turns, form, keywords).status == IN_PROGRESS ==>
              AnswersLeft(form, Run(lib, s, turns, form, keywords)) + |turns| <= AnswersLeft(form, s)
    decreases |turns|
  {
    hide Step, FilledSoFar;
    if turns != [] && s.status == IN_PROGRESS {
      var next := Step(lib, s, turns[0].raw, form, turns[0].now, keywords).state;
      StepKeepsSound(lib, s, turns[0].raw, form, turns[0].now, keywords);
      RunKeepsSound(lib, next, turns[1..], form, keywords);
    }
  }

  /** Every state of every run from the start of a form is sound. */
  lemma FormStatesAreSound(lib: Lib, form: Form, began: Time, turns: seq<TextTurn>, keywords: seq<Keyword>)
    requires WellFormed(form, keywords)
    ensures Sound(lib, Run(lib, Start(form, began), turns, form, keywords), form, keywords)
  {
    RunKeepsSound(lib, Start(form, began), turns, form, keywords);
  }

  /** A form ends within as many answers as its slots allow tries in total. */
  lemma FormEnds(lib: Lib, form: Form, began: Time, turns: seq<TextTurn>, keywords: seq<Keyword>)
    requires WellFormed(form, keywords) && |turns| >= Budget(form, 0)
    ensures Run(lib, Start(form, began), turns, form, keywords).status != IN_PROGRESS
  {
    hide Step;
    RunKeepsSound(lib, Start(form, began), turns, form, keywords);
  }
}
