/** Fitting an output into a channel keeps it within the limits of the output schema. */
module DegradeValidity {
  import opened Prelude
  import opened Texts
  import opened Dialogue
  import opened Degrade
  import opened DegradeFacts

  /** No channel promises longer descriptions than the schema. */
  predicate WithinSchema(p: Profile) { p.description <= 500 }

  lemma TruncateNonBlank(s: string, max: nat)
    requires NonBlank(s) && max >= 1
    ensures NonBlank(Truncate(s, max)) && |Truncate(s, max)| <= |s|
  {
    var t := Truncate(s, max);
    if |s| > max {
      assert t[|t| - 1] == '…' && !IsSpace('…');
      assert max > 1 ==> t[0] == s[0];
    }
  }

  // ---------------------------------------------------------------- buttons

  predicate ButtonOk(b: Button, quickReply: bool) { ValidButton(b) && (quickReply ==> b.action != Action.LINK) }

  predicate ButtonsOk(buttons: seq<Button>, quickReply: bool)
  {
    forall i :: 0 <= i < |buttons| ==> ButtonOk(buttons[i], quickReply)
  }

  lemma {:induction false} AllowedOk(buttons: seq<Button>, actions: set<Action>, quickReply: bool)
    requires ButtonsOk(buttons, quickReply)
    ensures ButtonsOk(Allowed(buttons, actions), quickReply)
  {
    hide ButtonOk;
    if buttons != [] {
      AllowedOk(buttons[1..], actions, quickReply);
    }
  }

  lemma {:induction false} RelabeledOk(buttons: seq<Button>, limit: nat, quickReply: bool)
    requires ButtonsOk(buttons, quickReply) && limit >= 1
    ensures ButtonsOk(Relabeled(buttons, limit), quickReply)
  {
    hide NonBlank, Truncate;
    if buttons != [] {
      assert ButtonOk(buttons[0], quickReply);
      assert Relabeled(buttons, limit)[0] == buttons[0].(caption := Truncate(buttons[0].caption, limit));
      TruncateNonBlank(buttons[0].caption, limit);
      RelabeledOk(buttons[1..], limit, quickReply);
    }
  }

  lemma ProcessedOk(p: Profile, buttons: seq<Button>, maxButtons: Option<nat>, index: nat, quickReply: bool)
    requires ButtonsOk(buttons, quickReply) && p.caption >= 1
    ensures ButtonsOk(ProcessButtons(p, buttons, maxButtons, index).value, quickReply)
    ensures |ProcessButtons(p, buttons, maxButtons, index).value| <= |buttons|
    ensures p.actions == AllActions() && buttons != [] && maxButtons != Some(0) ==> ProcessButtons(p, buttons, maxButtons, index).value != []
  {
    hide ButtonOk, Allowed, Relabeled, LostActions, CutLabels;
    var working := Working(buttons, maxButtons);
    AllowedOk(working, p.actions, quickReply);
    AllowedAreAllowed(working, p.actions);
    RelabeledOk(Allowed(working, p.actions), p.caption, quickReply);
  }

  lemma Oks(buttons: seq<Button>, max: nat)
    ensures ValidButtons(buttons, max) <==> |buttons| <= max && ButtonsOk(buttons, false)
    ensures ButtonsOk(buttons, true) <==> ButtonsOk(buttons, false) && !AnyButton(buttons, {Action.LINK})
  {
    hide ValidButton;
    if ButtonsOk(buttons, true) {
      forall i | 0 <= i < |buttons| ensures ButtonOk(buttons[i], false) && buttons[i].action != Action.LINK {
        assert ButtonOk(buttons[i], true);
      }
    }
    if ButtonsOk(buttons, false) && !AnyButton(buttons, {Action.LINK}) {
      forall i | 0 <= i < |buttons| ensures ButtonOk(buttons[i], true) {
        assert ButtonOk(buttons[i], false);
      }
    }
    if ValidButtons(buttons, max) {
      assert forall i :: 0 <= i < |buttons| ==> ButtonOk(buttons[i], false);
    }
    if |buttons| <= max && ButtonsOk(buttons, false) {
      forall i | 0 <= i < |buttons| ensures ValidButton(buttons[i]) {
        assert ButtonOk(buttons[i], false);
      }
    }
  }

  // ---------------------------------------------------------------- cards

  lemma CardButtonsValid(p: Profile, card: Card, max: nat, maxButtons: nat, index: nat)
    requires p.caption >= 1 && (card.buttons.Some? ==> ValidButtons(card.buttons.value, max))
    ensures var b := CardButtons(p, card, maxButtons, index).value; b.Some? ==> ValidButtons(b.value, max)
  {
    hide ValidButtons, ButtonsOk, ProcessButtons;
    if card.buttons.Some? {
      var r := ProcessButtons(p, card.buttons.value, Some(maxButtons), index);
      Oks(card.buttons.value, max);
      ProcessedOk(p, card.buttons.value, Some(maxButtons), index, false);
      Oks(r.value, max);
    }
  }

  lemma CardValid(p: Profile, card: Card, max: nat, maxButtons: nat, index: nat)
    requires WellFormed(p) && WithinSchema(p) && ValidCard(card, max)
    ensures ValidCard(ProcessCard(p, card, maxButtons, index).value, max)
  {
    hide CardButtons, ValidButtons, NonBlank, ImageText;
    CardButtonsValid(p, card, max, maxButtons, index);
    TruncateNonBlank(card.title, p.title);
  }

  lemma {:induction false} CardsValid(p: Profile, cards: seq<Card>, max: nat, maxButtons: nat, index: nat)
    requires WellFormed(p) && WithinSchema(p) && ValidCards(cards, max)
    ensures ValidCards(ProcessCards(p, cards, maxButtons, index).value, max)
  {
    hide ProcessCard, WellFormed, ValidCard;
    if cards != [] {
      CardValid(p, cards[0], max, maxButtons, index);
      CardsValid(p, cards[1..], max, maxButtons, index);
    }
  }

  lemma {:induction false} AsOutputsValid(cards: seq<Card>)
    requires ValidCards(cards, 3)
    ensures AllValid(AsOutputs(cards))
  {
    forall i | 0 <= i < |cards| ensures Valid(AsOutputs(cards)[i]) {
      MoreButtonsAllowed(cards[i]);
    }
  }

  lemma MoreButtonsAllowed(card: Card)
    requires ValidCard(card, 3)
    ensures ValidCard(card, 5)
  {
    hide NonBlank, ValidButton;
  }

  // ---------------------------------------------------------------- texts

  lemma {:induction false} LinesNonEmpty(lines: seq<string>, separator: string)
    requires lines != [] && separator != [] && (|lines| == 1 ==> lines[0] != [])
    ensures Lines(lines, separator) != []
  {
  }

  lemma {:induction false} LabelsBound(buttons: seq<Button>)
    requires ButtonsOk(buttons, false)
    ensures |MessageLabels(buttons)| <= |buttons| && |Lines(MessageLabels(buttons), " / ")| <= 43 * |buttons|
  {
    if buttons != [] {
      assert ButtonOk(buttons[0], false);
      LabelsBound(buttons[1..]);
      var rest := MessageLabels(buttons[1..]);
      if buttons[0].action == MESSAGE {
        assert MessageLabels(buttons) == [buttons[0].caption] + rest;
        LinesCons(buttons[0].caption, rest, " / ");
      } else {
        assert MessageLabels(buttons) == rest;
      }
    }
  }

  lemma LinesCons(first: string, rest: seq<string>, separator: string)
    ensures |Lines([first] + rest, separator)| <= |first| + |separator| + |Lines(rest, separator)|
  {
    assert ([first] + rest)[1..] == rest;
  }

  lemma QuickReplyTextValid(o: Output, index: nat)
    requires o.Buttons? && Valid(o)
    ensures AllValid(QuickReplyAsText(o, index).value)
  {
    hide MessageLabels, Lines, ValidButtons, ButtonsOk, AnyButton;
    Oks(o.buttons, 5);
    LabelsBound(o.buttons);
    var labels := MessageLabels(o.buttons);
    var question := if labels == [] then [] else ["다음 중 입력해 주세요: " + Lines(labels, " / ")];
    var lines := TextLine(o.prompt) + question;
    if lines != [] {
      QuestionBound(labels, o.buttons);
      TwoLines(TextLine(o.prompt), question);
      assert lines[0] != [];
      LinesNonEmpty(lines, "\n");
    }
  }

  lemma QuestionBound(labels: seq<string>, buttons: seq<Button>)
    requires |buttons| <= 5 && |Lines(labels, " / ")| <= 43 * |buttons|
    ensures |"다음 중 입력해 주세요: " + Lines(labels, " / ")| <= 300
  {
  }

  lemma TwoLines(x: seq<string>, y: seq<string>)
    requires |x| <= 1 && |y| <= 1 && (x != [] ==> |x[0]| <= 500) && (y != [] ==> |y[0]| <= 300)
    ensures |Lines(x + y, "\n")| <= 801
  {
    if x != [] && y != [] {
      assert x + y == [x[0], y[0]] && [x[0], y[0]][1..] == [y[0]];
    } else if x != [] {
      assert x + y == [x[0]];
    } else if y != [] {
      assert x + y == [y[0]];
    }
  }

  lemma CarouselTextValid(o: Output, index: nat)
    requires o.Carousel? && Valid(o)
    ensures AllValid(CarouselAsText(o.heading, o.cards, index).value)
  {
    hide Decimal, Truncate, HasImage, AnyButton, ValidCards, ButtonLines, Lines;
    var cards := CardLines(o.cards, 0);
    assert cards != [] && cards[0] != [];
    LinesNonEmpty(TextLine(o.heading) + cards, "\n");
  }

  // ---------------------------------------------------------------- one output, all outputs

  lemma CarouselValid(p: Profile, o: Output, index: nat)
    requires WellFormed(p) && WithinSchema(p) && o.Carousel? && Valid(o)
    ensures AllValid(DegradeCarousel(p, o, index).value)
  {
    hide ProcessCards, ValidCard, CarouselAsText;
    if Shape.CAROUSEL in p.types {
      var fewer := if |o.cards| > p.carouselMaxCards then o.cards[..p.carouselMaxCards] else o.cards;
      CardsValid(p, fewer, 3, p.carouselCardMaxButtons, index);
    } else if Shape.CARD in p.types {
      CardsValid(p, o.cards, 3, p.cardMaxButtons, index);
      AsOutputsValid(ProcessCards(p, o.cards, p.cardMaxButtons, index).value);
    } else {
      CarouselTextValid(o, index);
    }
  }

  lemma ButtonsValid(p: Profile, o: Output, index: nat)
    requires WellFormed(p) && o.Buttons? && Valid(o)
    ensures o.quickReply ==> AllValid(DegradeQuickReply(p, o, index).value)
    ensures !o.quickReply ==> AllValid(DegradeButton(p, o, index).value)
  {
    hide ProcessButtons, ValidButtons, ButtonsOk, AnyButton, QuickReplyAsText;
    Oks(o.buttons, 5);
    QuickReplyTextValid(o, index);
    var quick := ProcessButtons(p, o.buttons, Some(p.quickReplyMax), index).value;
    var all := ProcessButtons(p, o.buttons, None, index).value;
    ProcessedOk(p, o.buttons, Some(p.quickReplyMax), index, o.quickReply);
    ProcessedOk(p, o.buttons, None, index, o.quickReply);
    Oks(quick, 5);
    Oks(all, 5);
    if Shape.BUTTON !in p.types {
      ButtonOnlyValid(p, o, index);
    }
  }

  lemma ButtonOnlyValid(p: Profile, o: Output, index: nat)
    requires o.Buttons? && Valid(o) && Shape.BUTTON !in p.types
    ensures AllValid(DegradeButton(p, o, index).value)
  {
    hide ValidButtons, AnyButton, ProcessButtons;
  }

  /** Every output made from a valid output is valid. */
  lemma OneValid(p: Profile, o: Output, index: nat)
    requires WellFormed(p) && WithinSchema(p) && Valid(o)
    ensures AllValid(DegradeOne(p, o, index).value)
  {
    hide DegradeCarousel, DegradeQuickReply, DegradeButton, ProcessCard, ValidCard, ValidCards, ValidButtons, AnyButton, NonBlank;
    match o {
      case Carousel(_, _) => CarouselValid(p, o, index);
      case Buttons(_, _, _) => ButtonsValid(p, o, index);
      case CardOut(card) =>
        CardValid(p, card, 5, p.cardMaxButtons, index);
        TitleBound(card);
      case Link(caption, _, _) =>
        TruncateNonBlank(caption, p.caption);
      case _ =>
    }
  }

  lemma TitleBound(card: Card)
    requires ValidCard(card, 5)
    ensures |card.title| <= 100
  {
  }

  lemma {:induction false} ResultIsValid(p: Profile, outputs: seq<Output>, index: nat)
    requires WellFormed(p) && WithinSchema(p) && AllValid(outputs)
    ensures AllValid(DegradeFrom(p, outputs, index).value)
    decreases |outputs|
  {
    hide DegradeOne, Valid, WellFormed;
    if outputs != [] {
      OneValid(p, outputs[0], index);
      ResultIsValid(p, outputs[1..], index + 1);
    }
  }
}
