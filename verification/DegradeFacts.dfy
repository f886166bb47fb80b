/** Fitted outputs conform to the channel, and conforming outputs are left alone. */
module DegradeFacts {
  import opened Prelude
  import opened Dialogue
  import opened Degrade

  /** What every profile of the repository satisfies (`WebProfile` and the others below). */
  predicate WellFormed(p: Profile)
  {
    && Shape.TEXT in p.types
    && p.title >= 1 && p.description >= 1 && p.caption >= 1
    && (Shape.CARD in p.types || Shape.BUTTON in p.types || Shape.CAROUSEL in p.types || p.quickReply ==>
        p.actions == {MESSAGE, Action.LINK, NODE})
    && (p.quickReply ==> Shape.BUTTON in p.types && p.quickReplyMax >= 1)
    && (Shape.CAROUSEL in p.types ==> p.carouselMaxCards >= 2)
  }

  // ---------------------------------------------------------------- what a channel can show

  predicate ButtonFits(p: Profile, b: Button) { b.action in p.actions && |b.caption| <= p.caption }

  predicate ButtonsFit(p: Profile, buttons: seq<Button>)
  {
    forall i :: 0 <= i < |buttons| ==> ButtonFits(p, buttons[i])
  }

  predicate CardFits(p: Profile, card: Card, maxButtons: nat)
  {
    && |card.title| <= p.title
    && (card.description.Some? ==> |card.description.value| <= p.description)
    && (HasImage(card) ==> p.image)
    && (card.buttons.Some? ==> |card.buttons.value| <= maxButtons && ButtonsFit(p, card.buttons.value))
  }

  predicate CardsFit(p: Profile, cards: seq<Card>, maxButtons: nat)
  {
    forall i :: 0 <= i < |cards| ==> CardFits(p, cards[i], maxButtons)
  }

  predicate Conforms(p: Profile, o: Output)
  {
    match o
    case Text(_) => Shape.TEXT in p.types
    case CardOut(card) => Shape.CARD in p.types && CardFits(p, card, p.cardMaxButtons)
    case Image(_, _) => Shape.IMAGE in p.types
    case Buttons(_, buttons, quickReply) =>
      Shape.BUTTON in p.types && ButtonsFit(p, buttons) && (quickReply ==> p.quickReply && |buttons| <= p.quickReplyMax)
    case Link(caption, _, _) => Shape.LINK in p.types && |caption| <= p.caption
    case Pause(_) => Shape.PAUSE in p.types
    case PhoneCall(_, _) => Shape.PHONE_CALL in p.types
    case Carousel(_, cards) =>
      Shape.CAROUSEL in p.types && |cards| <= p.carouselMaxCards && CardsFit(p, cards, p.carouselCardMaxButtons)
    case _ => false
  }

  predicate AllConform(p: Profile, outputs: seq<Output>)
  {
    forall i :: 0 <= i < |outputs| ==> Conforms(p, outputs[i])
  }

  // ---------------------------------------------------------------- buttons

  lemma {:induction false} RelabeledFit(p: Profile, buttons: seq<Button>)
    requires p.caption >= 1 && forall i :: 0 <= i < |buttons| ==> buttons[i].action in p.actions
    ensures ButtonsFit(p, Relabeled(buttons, p.caption))
  {
    if buttons != [] {
      RelabeledFit(p, buttons[1..]);
    }
  }

  lemma {:induction false} AllowedAreAllowed(buttons: seq<Button>, actions: set<Action>)
    ensures forall i :: 0 <= i < |Allowed(buttons, actions)| ==> Allowed(buttons, actions)[i].action in actions
    ensures actions == {MESSAGE, Action.LINK, NODE} ==> Allowed(buttons, actions) == buttons
  {
    if buttons != [] {
      AllowedAreAllowed(buttons[1..], actions);
      assert buttons == [buttons[0]] + buttons[1..];
      AnyAction(buttons[0].action);
    }
  }

  lemma AnyAction(a: Action)
    ensures a in {MESSAGE, Action.LINK, NODE}
  {
  }

  lemma ProcessedButtonsFit(p: Profile, buttons: seq<Button>, maxButtons: Option<nat>, index: nat)
    requires p.caption >= 1
    ensures ButtonsFit(p, ProcessButtons(p, buttons, maxButtons, index).value)
    ensures maxButtons.Some? ==> |ProcessButtons(p, buttons, maxButtons, index).value| <= maxButtons.value
  {
    hide Allowed, Relabeled, ButtonsFit, LostActions, CutLabels;
    var working := Working(buttons, maxButtons);
    AllowedAreAllowed(working, p.actions);
    RelabeledFit(p, Allowed(working, p.actions));
  }

  /** Fitting buttons are kept, and nothing is reported. */
  lemma {:induction false} FittingButtonsKept(p: Profile, buttons: seq<Button>, index: nat)
    requires ButtonsFit(p, buttons)
    ensures Allowed(buttons, p.actions) == buttons && Relabeled(buttons, p.caption) == buttons
    ensures LostActions(buttons, p.actions, index) == [] && CutLabels(buttons, p.caption, index) == []
  {
    if buttons != [] {
      assert ButtonFits(p, buttons[0]);
      FittingButtonsKept(p, buttons[1..], index);
      assert buttons == [buttons[0]] + buttons[1..];
    }
  }

  lemma KeptButtons(p: Profile, buttons: seq<Button>, maxButtons: Option<nat>, index: nat)
    requires ButtonsFit(p, buttons) && (maxButtons.Some? ==> |buttons| <= maxButtons.value)
    ensures ProcessButtons(p, buttons, maxButtons, index) == Step(buttons, [])
  {
    hide Allowed, Relabeled, ButtonsFit, LostActions, CutLabels;
    FittingButtonsKept(p, buttons, index);
  }

  /** Where nothing is reported, the buttons are as they were. */
  lemma {:induction false} SilentButtons(p: Profile, buttons: seq<Button>, index: nat)
    requires LostActions(buttons, p.actions, index) == [] && CutLabels(Allowed(buttons, p.actions), p.caption, index) == []
    ensures ButtonsFit(p, buttons)
  {
    if buttons != [] {
      SilentButtons(p, buttons[1..], index);
    }
  }

  lemma UnreportedButtons(p: Profile, buttons: seq<Button>, maxButtons: Option<nat>, index: nat)
    requires ProcessButtons(p, buttons, maxButtons, index).changes == []
    ensures ButtonsFit(p, buttons) && (maxButtons.Some? ==> |buttons| <= maxButtons.value)
    ensures ProcessButtons(p, buttons, maxButtons, index).value == buttons
  {
    hide Allowed, Relabeled, ButtonsFit, LostActions, CutLabels;
    var working := Working(buttons, maxButtons);
    EmptyThree(Shortened(buttons, maxButtons, index), LostActions(working, p.actions, index),
               CutLabels(Allowed(working, p.actions), p.caption, index));
    SilentButtons(p, buttons, index);
    KeptButtons(p, buttons, maxButtons, index);
  }

  lemma EmptyThree<T>(x: seq<T>, y: seq<T>, z: seq<T>)
    requires x + y + z == []
    ensures x == [] && y == [] && z == []
  {
    assert |x + y + z| == |x| + |y| + |z|;
  }

  // ---------------------------------------------------------------- cards

  lemma CardButtonsFit(p: Profile, card: Card, maxButtons: nat, index: nat)
    requires p.caption >= 1
    ensures var b := CardButtons(p, card, maxButtons, index).value;
            b.Some? ==> |b.value| <= maxButtons && ButtonsFit(p, b.value)
  {
    hide ProcessButtons;
    if card.buttons.Some? && card.buttons.value != [] {
      ProcessedButtonsFit(p, card.buttons.value, Some(maxButtons), index);
      if ProcessButtons(p, card.buttons.value, Some(maxButtons), index).changes == [] {
        UnreportedButtons(p, card.buttons.value, Some(maxButtons), index);
      }
    }
  }

  lemma ProcessedCardFits(p: Profile, card: Card, maxButtons: nat, index: nat)
    requires WellFormed(p)
    ensures CardFits(p, ProcessCard(p, card, maxButtons, index).value, maxButtons)
  {
    hide CardButtons, ButtonsFit, Truncate, CutChange;
    CardButtonsFit(p, card, maxButtons, index);
  }

  lemma {:induction false} ProcessedCardsFit(p: Profile, cards: seq<Card>, maxButtons: nat, index: nat)
    requires WellFormed(p)
    ensures CardsFit(p, ProcessCards(p, cards, maxButtons, index).value, maxButtons)
  {
    hide ProcessCard, WellFormed, CardFits;
    if cards != [] {
      ProcessedCardFits(p, cards[0], maxButtons, index);
      ProcessedCardsFit(p, cards[1..], maxButtons, index);
    }
  }

  lemma FittingCardKept(p: Profile, card: Card, maxButtons: nat, index: nat)
    requires CardFits(p, card, maxButtons)
    ensures ProcessCard(p, card, maxButtons, index) == Step(card, [])
  {
    hide ProcessButtons, ButtonsFit;
    if card.buttons.Some? {
      KeptButtons(p, card.buttons.value, Some(maxButtons), index);
    }
  }

  lemma {:induction false} FittingCardsKept(p: Profile, cards: seq<Card>, maxButtons: nat, index: nat)
    requires CardsFit(p, cards, maxButtons)
    ensures ProcessCards(p, cards, maxButtons, index) == Step(cards, [])
  {
    hide ProcessCard, CardFits;
    if cards != [] {
      FittingCardKept(p, cards[0], maxButtons, index);
      FittingCardsKept(p, cards[1..], maxButtons, index);
      assert cards == [cards[0]] + cards[1..];
    }
  }

  lemma SilentCard(p: Profile, card: Card, maxButtons: nat, index: nat)
    requires ProcessCard(p, card, maxButtons, index).changes == []
    ensures ProcessCard(p, card, maxButtons, index).value == card
  {
    hide ProcessButtons, ButtonsFit;
    EmptyThree(CardButtons(p, card, maxButtons, index).changes, WithoutImage(p, card, index).changes,
               CutChange(card.title, p.title, index, "title"));
  }

  lemma {:induction false} SilentCards(p: Profile, cards: seq<Card>, maxButtons: nat, index: nat)
    requires ProcessCards(p, cards, maxButtons, index).changes == []
    ensures ProcessCards(p, cards, maxButtons, index).value == cards
  {
    hide ProcessCard;
    if cards != [] {
      SilentCard(p, cards[0], maxButtons, index);
      SilentCards(p, cards[1..], maxButtons, index);
      assert cards == [cards[0]] + cards[1..];
    }
  }

  // ---------------------------------------------------------------- one output

  lemma CarouselConforms(p: Profile, o: Output, index: nat)
    requires WellFormed(p) && o.Carousel?
    ensures AllConform(p, DegradeCarousel(p, o, index).value)
  {
    hide ProcessCards, CardFits, CarouselAsText;
    if Shape.CAROUSEL in p.types {
      var fewer := if |o.cards| > p.carouselMaxCards then o.cards[..p.carouselMaxCards] else o.cards;
      ProcessedCardsFit(p, fewer, p.carouselCardMaxButtons, index);
    } else if Shape.CARD in p.types {
      ProcessedCardsFit(p, o.cards, p.cardMaxButtons, index);
      var cards := AsOutputs(ProcessCards(p, o.cards, p.cardMaxButtons, index).value);
      assert AllConform(p, cards);
      ConformJoin(p, if o.heading.GetOr("") == "" then [] else [Text(o.heading.value)], cards);
    } else {
      TextConforms(p, o, index);
    }
  }

  lemma TextConforms(p: Profile, o: Output, index: nat)
    requires WellFormed(p) && o.Carousel?
    ensures AllConform(p, CarouselAsText(o.heading, o.cards, index).value)
  {
    hide Lines, CardLines, Truncate, HasImage;
  }

  lemma ConformJoin(p: Profile, x: seq<Output>, y: seq<Output>)
    requires AllConform(p, x) && AllConform(p, y)
    ensures AllConform(p, x + y)
  {
    hide Conforms;
  }

  lemma ButtonConforms(p: Profile, o: Output, index: nat)
    requires WellFormed(p) && o.Buttons?
    ensures o.quickReply ==> AllConform(p, DegradeQuickReply(p, o, index).value)
    ensures !o.quickReply ==> AllConform(p, DegradeButton(p, o, index).value)
  {
    hide ProcessButtons, ButtonsFit, Lines, MessageLabels;
    ProcessedButtonsFit(p, o.buttons, Some(p.quickReplyMax), index);
    ProcessedButtonsFit(p, o.buttons, None, index);
    if ProcessButtons(p, o.buttons, None, index).changes == [] {
      UnreportedButtons(p, o.buttons, None, index);
    }
  }

  lemma OneConforms(p: Profile, o: Output, index: nat)
    requires WellFormed(p)
    ensures AllConform(p, DegradeOne(p, o, index).value)
  {
    hide DegradeCarousel, DegradeQuickReply, DegradeButton, ProcessCard, ButtonsFit, CardFits, CardsFit;
    if o.Carousel? {
      CarouselConforms(p, o, index);
    } else if o.Buttons? {
      ButtonConforms(p, o, index);
    } else if o.CardOut? {
      ProcessedCardFits(p, o.card, p.cardMaxButtons, index);
    }
  }

  lemma OneKept(p: Profile, o: Output, index: nat)
    requires Conforms(p, o)
    ensures DegradeOne(p, o, index) == Step([o], [])
  {
    hide ProcessCard, ProcessCards, ProcessButtons, ButtonsFit, CardFits, CardsFit;
    match o {
      case CardOut(card) => FittingCardKept(p, card, p.cardMaxButtons, index);
      case Carousel(_, cards) => FittingCardsKept(p, cards, p.carouselCardMaxButtons, index);
      case Buttons(_, buttons, quickReply) =>
        KeptButtons(p, buttons, if quickReply then Some(p.quickReplyMax) else None, index);
      case _ =>
    }
  }

  lemma OneSilent(p: Profile, o: Output, index: nat)
    requires DegradeOne(p, o, index).changes == []
    ensures DegradeOne(p, o, index).value == [o]
  {
    hide ProcessCard, ProcessCards, ProcessButtons, CarouselAsText, QuickReplyAsText;
    match o {
      case CardOut(card) =>
        if Shape.CARD in p.types {
          SilentCard(p, card, p.cardMaxButtons, index);
        }
      case Carousel(_, cards) =>
        if Shape.CAROUSEL in p.types && |cards| <= p.carouselMaxCards {
          SilentCards(p, cards, p.carouselCardMaxButtons, index);
        } else {
          assert CarouselAsText(o.heading, o.cards, index).changes != [] by { CarouselTextReports(o, index); }
        }
      case Buttons(_, buttons, quickReply) =>
        if quickReply && p.quickReply {
          UnreportedButtons(p, buttons, Some(p.quickReplyMax), index);
        }
        assert QuickReplyAsText(o, index).changes != [] by { QuickReplyTextReports(o, index); }
      case _ =>
    }
  }

  lemma CarouselTextReports(o: Output, index: nat)
    requires o.Carousel?
    ensures CarouselAsText(o.heading, o.cards, index).changes != []
  {
    assert CarouselAsText(o.heading, o.cards, index).changes[0] == Change(index, CAROUSEL_TO_TEXT, NoDetail);
  }

  lemma QuickReplyTextReports(o: Output, index: nat)
    requires o.Buttons?
    ensures QuickReplyAsText(o, index).changes != []
  {
    hide Lines, MessageLabels;
    assert QuickReplyAsText(o, index).changes[0] == Change(index, BUTTON_TO_TEXT, NoDetail);
  }

  // ---------------------------------------------------------------- all outputs

  /** Whatever the outputs, the channel can show the result. */
  lemma {:induction false} ResultConforms(p: Profile, outputs: seq<Output>, index: nat)
    requires WellFormed(p)
    ensures AllConform(p, DegradeFrom(p, outputs, index).value)
    decreases |outputs|
  {
    hide DegradeOne, Conforms, WellFormed;
    if outputs != [] {
      OneConforms(p, outputs[0], index);
      ResultConforms(p, outputs[1..], index + 1);
    }
  }

  /** Conforming outputs are not touched, and nothing is reported. */
  lemma {:induction false} ConformingIsKept(p: Profile, outputs: seq<Output>, index: nat)
    requires AllConform(p, outputs)
    ensures DegradeFrom(p, outputs, index) == Step(outputs, [])
    decreases |outputs|
  {
    hide DegradeOne, Conforms;
    if outputs != [] {
      OneKept(p, outputs[0], index);
      ConformingIsKept(p, outputs[1..], index + 1);
      assert outputs == [outputs[0]] + outputs[1..];
    }
  }

  /** Fitting twice is fitting once. */
  lemma DegradingTwice(p: Profile, outputs: seq<Output>)
    requires WellFormed(p)
    ensures DegradeFrom(p, DegradeFrom(p, outputs, 0).value, 0) == Step(DegradeFrom(p, outputs, 0).value, [])
  {
    hide DegradeFrom, AllConform, WellFormed;
    ResultConforms(p, outputs, 0);
    ConformingIsKept(p, DegradeFrom(p, outputs, 0).value, 0);
  }

  lemma {:induction false} SilentIsUnchanged(p: Profile, outputs: seq<Output>, index: nat)
    requires DegradeFrom(p, outputs, index).changes == []
    ensures DegradeFrom(p, outputs, index).value == outputs
    decreases |outputs|
  {
    hide DegradeOne;
    if outputs != [] {
      OneSilent(p, outputs[0], index);
      SilentIsUnchanged(p, outputs[1..], index + 1);
      assert outputs == [outputs[0]] + outputs[1..];
    }
  }

  /** Nothing is reported exactly when nothing has changed. */
  lemma ReportedIffChanged(p: Profile, outputs: seq<Output>)
    requires WellFormed(p)
    ensures Reported([], DegradeFrom(p, outputs, 0).changes) == [] <==> DegradeFrom(p, outputs, 0).value == outputs
  {
    hide DegradeFrom, AllConform, WellFormed, Reported;
    var r := DegradeFrom(p, outputs, 0);
    ReportedNothing([], r.changes);
    if r.changes == [] {
      SilentIsUnchanged(p, outputs, 0);
    }
    if r.value == outputs {
      ResultConforms(p, outputs, 0);
      ConformingIsKept(p, outputs, 0);
    }
  }

  // ---------------------------------------------------------------- the profiles of the repository

  function AllActions(): set<Action> { {MESSAGE, Action.LINK, NODE} }

  /** packages/shared-types/src/channel.ts, `WEB_OUTPUT_PROFILE`. */
  function WebProfile(): Profile
  {
    Profile({Shape.TEXT, Shape.CARD, Shape.IMAGE, Shape.BUTTON, Shape.LINK, Shape.PAUSE, Shape.PHONE_CALL, Shape.CAROUSEL},
            10, 3, 5, true, 5, AllActions(), true, 100, 500, 40)
  }

  function KakaoProfile(): Profile
  {
    Profile({Shape.TEXT, Shape.CARD, Shape.IMAGE, Shape.BUTTON, Shape.LINK, Shape.CAROUSEL},
            10, 3, 3, true, 10, AllActions(), true, 50, 230, 14)
  }

  function TextOnlyProfile(): Profile { Profile({Shape.TEXT}, 0, 0, 0, false, 0, {}, false, 100, 500, 40) }

  function LegacyWidgetProfile(): Profile
  {
    Profile({Shape.TEXT, Shape.CARD, Shape.IMAGE, Shape.BUTTON, Shape.LINK, Shape.PAUSE, Shape.PHONE_CALL},
            0, 0, 5, false, 0, AllActions(), true, 100, 500, 40)
  }

  lemma ProfilesAreWellFormed()
    ensures WellFormed(WebProfile()) && WellFormed(KakaoProfile())
    ensures WellFormed(TextOnlyProfile()) && WellFormed(LegacyWidgetProfile())
  {
  }

  // ---------------------------------------------------------------- schema limits

  predicate NonBlank(s: string) { s != [] && Trimmed(s) }

  predicate ValidButton(b: Button)
  {
    NonBlank(b.caption) && |b.caption| <= 40 && b.value != [] && (b.action == MESSAGE ==> |b.value| <= 200)
  }

  predicate ValidButtons(buttons: seq<Button>, max: nat)
  {
    |buttons| <= max && forall i :: 0 <= i < |buttons| ==> ValidButton(buttons[i])
  }

  predicate ValidCard(card: Card, maxButtons: nat)
  {
    && NonBlank(card.title) && |card.title| <= 100
    && (card.description.Some? ==> |card.description.value| <= 500)
    && (card.altText.Some? ==> |card.altText.value| <= 200)
    && (card.imageUrl.Some? ==> card.imageUrl.value != [] && card.altText.GetOr("") != "")
    && (card.buttons.Some? ==> ValidButtons(card.buttons.value, maxButtons))
  }

  predicate ValidCards(cards: seq<Card>, maxButtons: nat)
  {
    forall i :: 0 <= i < |cards| ==> ValidCard(cards[i], maxButtons)
  }

  /** The limits that the output schema sets on displayable outputs. */
  predicate Valid(o: Output)
  {
    match o
    case Text(text) => 1 <= |text| <= 1000
    case CardOut(card) => ValidCard(card, 5)
    case Image(_, altText) => 1 <= |altText| <= 200
    case Buttons(prompt, buttons, quickReply) =>
      && (prompt.Some? ==> |prompt.value| <= 500)
      && buttons != [] && ValidButtons(buttons, 5)
      && (quickReply ==> !AnyButton(buttons, {Action.LINK}))
    case Link(caption, _, _) => NonBlank(caption) && |caption| <= 40
    case Pause(durationMs) => 100 <= durationMs <= 5000
    case PhoneCall(caption, _) => NonBlank(caption) && |caption| <= 40
    case Carousel(heading, cards) =>
      (heading.Some? ==> |heading.value| <= 300) && 2 <= |cards| <= 10 && ValidCards(cards, 3)
    case _ => true
  }

  predicate AllValid(outputs: seq<Output>) { forall i :: 0 <= i < |outputs| ==> Valid(outputs[i]) }

  lemma ValidButtonsFitWeb(buttons: seq<Button>, max: nat)
    requires ValidButtons(buttons, max)
    ensures ButtonsFit(WebProfile(), buttons)
  {
    forall i | 0 <= i < |buttons| ensures ButtonFits(WebProfile(), buttons[i]) {
      assert ValidButton(buttons[i]);
      AnyAction(buttons[i].action);
    }
  }

  lemma ValidCardFitsWeb(card: Card, maxButtons: nat)
    requires ValidCard(card, maxButtons)
    ensures CardFits(WebProfile(), card, maxButtons)
  {
    hide ButtonsFit, NonBlank;
    if card.buttons.Some? {
      ValidButtonsFitWeb(card.buttons.value, maxButtons);
    }
  }

  lemma ValidFitsWeb(o: Output)
    requires Valid(o) && o.Displayable()
    ensures Conforms(WebProfile(), o)
  {
    hide ValidCard, CardFits, ValidButtons, ButtonsFit, NonBlank;
    match o {
      case CardOut(card) => ValidCardFitsWeb(card, 5);
      case Buttons(_, buttons, _) =>
        assert |buttons| <= 5 by { ButtonCount(buttons, 5); }
        ValidButtonsFitWeb(buttons, 5);
      case Carousel(_, cards) =>
        forall i | 0 <= i < |cards| ensures CardFits(WebProfile(), cards[i], 3) {
          ValidCardFitsWeb(cards[i], 3);
        }
      case _ =>
    }
  }

  lemma ButtonCount(buttons: seq<Button>, max: nat)
    requires ValidButtons(buttons, max)
    ensures |buttons| <= max
  {
  }

  /** The web channel shows every valid displayable output as it is. */
  lemma WebIsIdentity(outputs: seq<Output>)
    requires AllValid(outputs) && AllDisplayable(outputs)
    ensures DegradeFrom(WebProfile(), outputs, 0) == Step(outputs, [])
  {
    hide Valid, Conforms, DegradeFrom, WebProfile;
    forall i | 0 <= i < |outputs| ensures Conforms(WebProfile(), outputs[i]) {
      ValidFitsWeb(outputs[i]);
    }
    ConformingIsKept(WebProfile(), outputs, 0);
  }
}
