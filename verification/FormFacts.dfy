/** What one text does to a running form, and what it is asked next (packages/dialogue-engine/src/context-session.ts). */
module FormFacts {
  import opened Prelude
  import opened Dialogue
  import opened ContextForms

  // ---------------------------------------------------------------- which values a slot takes

  ghost predicate FirstAlike(lib: Lib, options: seq<string>, norm: string, i: int)
  {
    0 <= i < |options| && lib.normalize(options[i]) == norm && forall j :: 0 <= j < i ==> lib.normalize(options[j]) != norm
  }

  ghost predicate FirstKeyword(keywords: seq<Keyword>, id: Id, i: int)
  {
    0 <= i < |keywords| && keywords[i].id == id && forall j :: 0 <= j < i ==> keywords[j].id != id
  }

  /** Keyword number `k` is the one of this id, and the text is its name or a synonym. */
  ghost predicate Means(lib: Lib, keywords: seq<Keyword>, id: Id, k: int, norm: string)
  {
    && FirstKeyword(keywords, id, k)
    && (lib.normalize(keywords[k].name) == norm || exists i :: FirstAlike(lib, keywords[k].synonyms, norm, i))
  }

  /** A choice takes the choice of that name; a keyword its own name for itself or a synonym; any other slot takes the
      trimmed text if its format does. */
  ghost predicate Takes(lib: Lib, slot: FormSlot, raw: string, keywords: seq<Keyword>, v: string)
  {
    var trimmed := Trim(raw);
    && trimmed != []
    && match slot.kind
       case CHOICE => exists i :: FirstAlike(lib, slot.choices, lib.normalize(trimmed), i) && v == slot.choices[i]
       case KEYWORD =>
         slot.keywordId.Some?
         && exists k :: Means(lib, keywords, slot.keywordId.value, k, lib.normalize(trimmed)) && v == keywords[k].name
       case _ => lib.slotFormat(slot, trimmed).None? && v == trimmed
  }

  lemma {:induction false} FirstNormalisedIs(lib: Lib, options: seq<string>, norm: string, from: nat)
    requires from <= |options| && forall j :: 0 <= j < from ==> lib.normalize(options[j]) != norm
    ensures var r := FirstNormalised(lib, options, norm, from);
      && (r.Some? ==> exists i :: FirstAlike(lib, options, norm, i) && r.value == options[i])
      && (r.None? ==> forall i :: !FirstAlike(lib, options, norm, i))
    decreases |options| - from
  {
    if from < |options| {
      if lib.normalize(options[from]) == norm {
        assert FirstAlike(lib, options, norm, from);
      } else {
        FirstNormalisedIs(lib, options, norm, from + 1);
      }
    }
  }

  lemma AlikeOnce(lib: Lib, options: seq<string>, norm: string, i: int, j: int)
    requires FirstAlike(lib, options, norm, i) && FirstAlike(lib, options, norm, j)
    ensures i == j
  {
  }

  lemma {:induction false} FoundKeyword(keywords: seq<Keyword>, id: Id)
    ensures forall k :: FirstKeyword(keywords, id, k) ==> FindKeyword(keywords, id) == Some(keywords[k])
    ensures FindKeyword(keywords, id).Some? ==> exists k :: FirstKeyword(keywords, id, k)
  {
    if keywords != [] {
      if keywords[0].id == id {
        assert FirstKeyword(keywords, id, 0);
      } else {
        var rest := keywords[1..];
        FoundKeyword(rest, id);
        assert forall j :: 0 < j < |keywords| ==> keywords[j] == rest[j - 1];
        assert forall k :: FirstKeyword(keywords, id, k) ==> FirstKeyword(rest, id, k - 1);
        assert forall k :: FirstKeyword(rest, id, k) ==> FirstKeyword(keywords, id, k + 1);
      }
    }
  }

  /** The check accepts exactly these values. */
  lemma CheckedIff(lib: Lib, slot: FormSlot, raw: string, keywords: seq<Keyword>, v: string)
    ensures CheckSlotValue(lib, slot, raw, keywords) == Valid(v) <==> Takes(lib, slot, raw, keywords, v)
  {
    hide Trim, FirstNormalised, FindKeyword, FirstAlike, FirstKeyword;
    var norm := lib.normalize(Trim(raw));
    match slot.kind
    case CHOICE =>
      FirstNormalisedIs(lib, slot.choices, norm, 0);
      forall i, j | FirstAlike(lib, slot.choices, norm, i) && FirstAlike(lib, slot.choices, norm, j) ensures i == j {
        AlikeOnce(lib, slot.choices, norm, i, j);
      }
    case KEYWORD =>
      if slot.keywordId.Some? {
        FoundKeyword(keywords, slot.keywordId.value);
        forall k | 0 <= k < |keywords| {
          FirstNormalisedIs(lib, keywords[k].synonyms, norm, 0);
        }
      }
    case _ =>
  }

  /** What is said of a text that the slot does not take. */
  ghost predicate Faults(lib: Lib, slot: FormSlot, raw: string, keywords: seq<Keyword>, error: string)
  {
    if Trim(raw) == [] then error == "값을 입력해 주세요."
    else
      match slot.kind
      case CHOICE => error == "제시된 선택지 중에서 선택해 주세요."
      case KEYWORD =>
        error == if slot.keywordId.Some? && exists k :: FirstKeyword(keywords, slot.keywordId.value, k)
                 then "등록된 값과 일치하지 않습니다." else "연결된 키워드를 찾을 수 없습니다."
      case _ => lib.slotFormat(slot, Trim(raw)) == Some(error)
  }

  lemma CheckedFaults(lib: Lib, slot: FormSlot, raw: string, keywords: seq<Keyword>)
    ensures var check := CheckSlotValue(lib, slot, raw, keywords); check.Invalid? ==> Faults(lib, slot, raw, keywords, check.error)
  {
    hide Trim, FirstNormalised, FindKeyword, FirstKeyword;
    if slot.kind == KEYWORD && slot.keywordId.Some? {
      FoundKeyword(keywords, slot.keywordId.value);
    }
  }

  // ---------------------------------------------------------------- what is asked

  /** The question of a slot: its prompt, and for a choice up to five of its choices as buttons that send their names. */
  ghost predicate Asks(slot: FormSlot, outputs: seq<Output>)
  {
    if slot.kind == CHOICE && slot.choices != [] then
      && |outputs| == 2 && outputs[0] == Text(slot.prompt) && outputs[1].Buttons? && outputs[1].prompt.None?
      && |outputs[1].buttons| == Min(5, |slot.choices|)
      && forall i :: 0 <= i < |outputs[1].buttons| ==> outputs[1].buttons[i] == Button(slot.choices[i], MESSAGE, slot.choices[i])
    else outputs == [Text(slot.prompt)]
  }

  lemma {:induction false} ButtonsAre(choices: seq<string>)
    ensures |ChoiceButtons(choices)| == |choices|
    ensures forall i :: 0 <= i < |choices| ==> ChoiceButtons(choices)[i] == Button(choices[i], MESSAGE, choices[i])
  {
    if choices != [] {
      ButtonsAre(choices[1..]);
    }
  }

  lemma PromptAsks(slot: FormSlot)
    ensures Asks(slot, Prompt(slot))
  {
    hide ChoiceButtons;
    ButtonsAre(slot.choices[..Min(5, |slot.choices|)]);
  }

  /** Each choice shown as a button is accepted as itself, when names differ. */
  lemma ShownChoiceIsTaken(lib: Lib, slot: FormSlot, i: nat, keywords: seq<Keyword>)
    requires slot.kind == CHOICE && i < Min(5, |slot.choices|) && slot.choices[i] != [] && Trimmed(slot.choices[i])
    requires forall j :: 0 <= j < i ==> lib.normalize(slot.choices[j]) != lib.normalize(slot.choices[i])
    ensures Asks(slot, Prompt(slot)) && i < |Prompt(slot)[1].buttons|
    ensures CheckSlotValue(lib, slot, Prompt(slot)[1].buttons[i].value, keywords) == Valid(slot.choices[i])
  {
    hide CheckSlotValue, Trim;
    PromptAsks(slot);
    TrimStable(slot.choices[i]);
    assert FirstAlike(lib, slot.choices, lib.normalize(slot.choices[i]), i);
    CheckedIff(lib, slot, slot.choices[i], keywords, slot.choices[i]);
  }

  // ---------------------------------------------------------------- one step

  ghost predicate Cancels(lib: Lib, form: Form, norm: string)
  {
    exists i :: 0 <= i < |form.cancelKeywords| && lib.containsWord(norm, lib.normalize(form.cancelKeywords[i]))
  }

  lemma {:induction false} CancelNamed(lib: Lib, words: seq<string>, norm: string)
    ensures NamesCancel(lib, words, norm) <==> exists i :: 0 <= i < |words| && lib.containsWord(norm, lib.normalize(words[i]))
  {
    if words != [] {
      CancelNamed(lib, words[1..], norm);
      assert forall i :: 0 < i < |words| ==> words[i] == words[1..][i - 1];
    }
  }

  /** The form is complete, and says so if it has something to say. */
  ghost predicate Completes(lib: Lib, s: FormSession, filled: map<string, string>, form: Form, index: nat, retries: nat, now: Time, a: Advance)
  {
    var text := if form.completionMessage.GetOr("") == "" then "" else lib.completionText(form.completionMessage.value, filled);
    && a.state == FormSession(s.contextVariableId, index, filled, retries, s.startedAt, now, COMPLETED)
    && a.outputs == if text == "" then [] else [Text(text)]
  }

  /** The current slot is done: the next one is asked for, with all its tries, or the form is complete. */
  ghost predicate MovesOn(lib: Lib, s: FormSession, filled: map<string, string>, form: Form, now: Time, a: Advance)
  {
    var next := s.currentSlotIndex + 1;
    if next < |form.slots| then
      a.state == FormSession(s.contextVariableId, next, filled, 0, s.startedAt, now, s.status) && Asks(form.slots[next], a.outputs)
    else Completes(lib, s, filled, form, next, 0, now, a)
  }

  /** One more try is used up, or there is none left. The text says what was wrong: in the slot's own words if it has any. */
  ghost predicate TriesAgain(lib: Lib, s: FormSession, slot: FormSlot, error: string, now: Time, a: Advance)
  {
    if s.retryCount >= slot.maxRetry then
      a == Advance(s.(status := CANCELLED, lastInteractedAt := now), [Text(RETRY_LIMIT_MESSAGE)])
    else
      && a.state == s.(retryCount := s.retryCount + 1, lastInteractedAt := now)
      && |a.outputs| == 1 && a.outputs[0].Text?
      && (slot.errorPrompt.Some? && Trim(slot.errorPrompt.value) != [] ==> a.outputs[0].text == Trim(slot.errorPrompt.value))
      && (slot.errorPrompt.None? || Trim(slot.errorPrompt.value) == [] ==>
            a.outputs[0].text == error + if slot.exampleValue.GetOr("") == "" then "" else " (예: " + slot.exampleValue.value + ")")
  }

  /** A cancel word ends the form; so does silence that lasted too long; an optional slot may be skipped; and otherwise the
      text is the value of the slot, or one try less. */
  lemma StepIs(lib: Lib, s: FormSession, raw: string, form: Form, now: Time, keywords: seq<Keyword>)
    ensures var a, norm := Step(lib, s, raw, form, now, keywords), lib.normalize(raw);
      if Cancels(lib, form, norm) then a == Advance(s.(status := CANCELLED, lastInteractedAt := now), [Text(CANCEL_MESSAGE)])
      else if now - s.lastInteractedAt > form.sessionTimeoutMinutes * 60000 then
        a == Advance(s.(status := EXPIRED, lastInteractedAt := now),
                     [Buttons(Some(EXPIRED_MESSAGE), [Button("이어서 하기", MESSAGE, "이어서 하기"), Button("처음부터", MESSAGE, "처음부터")], false)])
      else if s.currentSlotIndex >= |form.slots| then
        Completes(lib, s, s.filledValues, form, s.currentSlotIndex, s.retryCount, now, a)
      else
        var slot := form.slots[s.currentSlotIndex];
        if !slot.required && (norm == "건너뛰기" || norm == "스킵" || norm == "skip") then MovesOn(lib, s, s.filledValues, form, now, a)
        else if exists v :: Takes(lib, slot, raw, keywords, v) then
          exists v :: Takes(lib, slot, raw, keywords, v) && MovesOn(lib, s, s.filledValues[slot.name := v], form, now, a)
        else exists error :: Faults(lib, slot, raw, keywords, error) && TriesAgain(lib, s, slot, error, now, a)
  {
    hide CheckSlotValue, NamesCancel, Trim, Takes, Asks, Prompt, TriesAgain, Faults, RetryText;
    CancelNamed(lib, form.cancelKeywords, lib.normalize(raw));
    if s.currentSlotIndex + 1 < |form.slots| {
      PromptAsks(form.slots[s.currentSlotIndex + 1]);
    }
    if s.currentSlotIndex < |form.slots| {
      var slot := form.slots[s.currentSlotIndex];
      forall v ensures CheckSlotValue(lib, slot, raw, keywords) == Valid(v) <==> Takes(lib, slot, raw, keywords, v) {
        CheckedIff(lib, slot, raw, keywords, v);
      }
      SkipTokens(lib.normalize(raw));
      CheckedFaults(lib, slot, raw, keywords);
      var check := CheckSlotValue(lib, slot, raw, keywords);
      if check.Valid? {
        assert Takes(lib, slot, raw, keywords, check.value);
      } else {
        AsksAgain(lib, s, slot, check.error, now);
      }
    }
  }

  lemma AsksAgain(lib: Lib, s: FormSession, slot: FormSlot, error: string, now: Time)
    ensures TriesAgain(lib, s, slot, error, now,
      if s.retryCount + 1 > slot.maxRetry then Advance(s.(status := CANCELLED, lastInteractedAt := now), [Text(RETRY_LIMIT_MESSAGE)])
      else Advance(s.(retryCount := s.retryCount + 1, lastInteractedAt := now), [Text(RetryText(slot, error))]))
  {
    hide Trim;
  }

  lemma SkipTokens(norm: string)
    ensures norm in SKIP_TOKENS <==> norm == "건너뛰기" || norm == "스킵" || norm == "skip"
  {
  }
}
