/** When the outputs that `{api.*}` rendering leaves are ones the output schema accepts
    (packages/dialogue-engine/src/outputs.ts, packages/shared-types/src/dialogue.ts). */
module RenderFacts {
  import opened Prelude
  import opened Dialogue
  import opened OutputExecutor
  import Degrade
  import DegradeFacts

  // ---------------------------------------------------------------- what the schema accepts

  /** A label or a title: the schema trims it, and wants something left. */
  predicate AcceptsLabel(s: string, max: nat) { Trim(s) != [] && |Trim(s)| <= max }

  predicate AcceptsButton(b: Button)
  {
    AcceptsLabel(b.caption, 40) && b.value != [] && (b.action == MESSAGE ==> |b.value| <= 200)
  }

  predicate AcceptsButtons(buttons: seq<Button>) { forall i :: 0 <= i < |buttons| ==> AcceptsButton(buttons[i]) }

  predicate NoLink(buttons: seq<Button>) { forall i :: 0 <= i < |buttons| ==> buttons[i].action != Action.LINK }

  predicate AcceptsCard(card: Card, maxButtons: nat)
  {
    && AcceptsLabel(card.title, 100)
    && (card.description.Some? ==> |card.description.value| <= 500)
    && (card.altText.Some? ==> |card.altText.value| <= 200)
    && (card.imageUrl.Some? ==> card.imageUrl.value != [] && card.altText.GetOr("") != "")
    && (card.buttons.Some? ==> |card.buttons.value| <= maxButtons && AcceptsButtons(card.buttons.value))
  }

  predicate AcceptsCards(cards: seq<Card>) { forall i :: 0 <= i < |cards| ==> AcceptsCard(cards[i], 3) }

  /** The limits of the schema on texts, cards, buttons and carousels. */
  predicate Accepts(o: Output)
  {
    match o
    case Text(text) => 1 <= |text| <= 1000
    case CardOut(card) => AcceptsCard(card, 5)
    case Buttons(prompt, buttons, quickReply) =>
      && (prompt.Some? ==> |prompt.value| <= 500)
      && 1 <= |buttons| <= 5 && AcceptsButtons(buttons) && (quickReply ==> NoLink(buttons))
    case Carousel(heading, cards) => (heading.Some? ==> |heading.value| <= 300) && 2 <= |cards| <= 10 && AcceptsCards(cards)
    case _ => true
  }

  predicate AllAccepted(outputs: seq<Output>) { forall i :: 0 <= i < |outputs| ==> Accepts(outputs[i]) }

  // ---------------------------------------------------------------- what can go wrong

  /** Rendering leaves a text of nothing but white space, which the filter for empty texts lets through. */
  predicate Blank(lib: Lib, s: string, vars: map<string, string>, max: nat)
  {
    RenderText(lib, s, vars, max) != [] && Trim(RenderText(lib, s, vars, max)) == []
  }

  predicate BlankLabel(lib: Lib, buttons: seq<Button>, vars: map<string, string>)
  {
    exists i :: 0 <= i < |buttons| && Blank(lib, buttons[i].caption, vars, 40)
  }

  /** A card that is kept, with a blank title or a blank label on it. */
  predicate BlankCard(lib: Lib, card: Card, vars: map<string, string>)
  {
    && RenderText(lib, card.title, vars, 100) != []
    && (Blank(lib, card.title, vars, 100) || (card.buttons.Some? && BlankLabel(lib, card.buttons.value, vars)))
  }

  predicate BlankShows(lib: Lib, o: Output, vars: map<string, string>)
  {
    match o
    case CardOut(card) => BlankCard(lib, card, vars)
    case Buttons(_, buttons, _) => BlankLabel(lib, buttons, vars)
    case Carousel(_, cards) => exists i :: 0 <= i < |cards| && BlankCard(lib, cards[i], vars)
    case _ => false
  }

  // ---------------------------------------------------------------- buttons

  lemma {:induction false} RenderedButtons(lib: Lib, buttons: seq<Button>, vars: map<string, string>)
    requires forall i :: 0 <= i < |buttons| ==> DegradeFacts.ValidButton(buttons[i])
    ensures AcceptsButtons(RenderButtons(lib, buttons, vars)) <==> !BlankLabel(lib, buttons, vars)
    ensures NoLink(buttons) ==> NoLink(RenderButtons(lib, buttons, vars))
  {
    hide RenderText, Trim;
    if buttons != [] {
      var rest := buttons[1..];
      RenderedButtons(lib, rest, vars);
      var b := buttons[0].(caption := RenderText(lib, buttons[0].caption, vars, 40));
      assert DegradeFacts.ValidButton(buttons[0]);
      var r := RenderButtons(lib, rest, vars);
      BlankLabelSplits(lib, buttons, vars);
      if b.caption == [] {
        assert RenderButtons(lib, buttons, vars) == r;
      } else {
        assert AcceptsButton(b) <==> !Blank(lib, buttons[0].caption, vars, 40);
        AcceptsOneMore(b, r);
        assert RenderButtons(lib, buttons, vars) == [b] + r;
      }
    }
  }

  lemma BlankLabelSplits(lib: Lib, buttons: seq<Button>, vars: map<string, string>)
    requires buttons != []
    ensures BlankLabel(lib, buttons, vars) <==> Blank(lib, buttons[0].caption, vars, 40) || BlankLabel(lib, buttons[1..], vars)
    ensures NoLink(buttons) <==> buttons[0].action != Action.LINK && NoLink(buttons[1..])
  {
    hide Blank;
    var rest := buttons[1..];
    if BlankLabel(lib, rest, vars) {
      var i :| 0 <= i < |rest| && Blank(lib, rest[i].caption, vars, 40);
      assert rest[i] == buttons[i + 1];
    }
    if NoLink(rest) {
      assert forall i :: 0 < i < |buttons| ==> buttons[i] == rest[i - 1];
    }
  }

  lemma AcceptsOneMore(b: Button, rest: seq<Button>)
    ensures AcceptsButtons([b] + rest) <==> AcceptsButton(b) && AcceptsButtons(rest)
    ensures NoLink([b] + rest) <==> b.action != Action.LINK && NoLink(rest)
  {
    hide AcceptsButton;
    var all := [b] + rest;
    assert all[0] == b && all[1..] == rest;
    if AcceptsButtons(all) {
      assert forall i :: 0 <= i < |rest| ==> rest[i] == all[i + 1];
    }
    if NoLink(all) {
      assert forall i :: 0 <= i < |rest| ==> rest[i] == all[i + 1];
    }
  }

  // ---------------------------------------------------------------- cards

  lemma RenderedCard(lib: Lib, card: Card, vars: map<string, string>, maxButtons: nat)
    requires DegradeFacts.ValidCard(card, maxButtons)
    ensures RenderCard(lib, card, vars).Some? ==>
      (AcceptsCard(RenderCard(lib, card, vars).value, maxButtons) <==> !BlankCard(lib, card, vars))
    ensures RenderCard(lib, card, vars).None? ==> !BlankCard(lib, card, vars)
  {
    hide RenderText, RenderButtons, Trim, AcceptsButtons, BlankLabel, DegradeFacts.ValidButton, DegradeFacts.NonBlank;
    if card.buttons.Some? {
      ButtonsOfCard(card, maxButtons);
      RenderedButtons(lib, card.buttons.value, vars);
    }
  }

  lemma ButtonsOfCard(card: Card, maxButtons: nat)
    requires DegradeFacts.ValidCard(card, maxButtons) && card.buttons.Some?
    ensures |card.buttons.value| <= maxButtons
    ensures forall i :: 0 <= i < |card.buttons.value| ==> DegradeFacts.ValidButton(card.buttons.value[i])
  {
    hide DegradeFacts.ValidButton, DegradeFacts.NonBlank;
  }

  predicate AnyBlankCard(lib: Lib, cards: seq<Card>, vars: map<string, string>)
  {
    exists i :: 0 <= i < |cards| && BlankCard(lib, cards[i], vars)
  }

  lemma {:induction false} RenderedCards(lib: Lib, cards: seq<Card>, vars: map<string, string>)
    requires DegradeFacts.ValidCards(cards, 3)
    ensures AcceptsCards(RenderCards(lib, cards, vars)) <==> !AnyBlankCard(lib, cards, vars)
  {
    hide RenderCard, AcceptsCard, BlankCard, DegradeFacts.ValidCard;
    if cards != [] {
      var rest := cards[1..];
      var r := RenderCards(lib, rest, vars);
      RenderedCards(lib, rest, vars);
      RenderedCard(lib, cards[0], vars, 3);
      AnyBlankSplits(lib, cards, vars);
      var first := RenderCard(lib, cards[0], vars);
      if first.Some? {
        AcceptsCardMore(first.value, r);
      } else {
        assert RenderCards(lib, cards, vars) == r;
      }
    }
  }

  lemma AnyBlankSplits(lib: Lib, cards: seq<Card>, vars: map<string, string>)
    requires cards != []
    ensures AnyBlankCard(lib, cards, vars) <==> BlankCard(lib, cards[0], vars) || AnyBlankCard(lib, cards[1..], vars)
  {
    hide BlankCard;
    var rest := cards[1..];
    if AnyBlankCard(lib, rest, vars) {
      var i :| 0 <= i < |rest| && BlankCard(lib, rest[i], vars);
      assert rest[i] == cards[i + 1];
    }
  }

  lemma AcceptsCardMore(card: Card, rest: seq<Card>)
    ensures AcceptsCards([card] + rest) <==> AcceptsCard(card, 3) && AcceptsCards(rest)
  {
    hide AcceptsCard;
    var all := [card] + rest;
    assert all[0] == card;
    if AcceptsCards(all) {
      assert forall i :: 0 <= i < |rest| ==> rest[i] == all[i + 1];
    }
  }

  // ---------------------------------------------------------------- outputs

  lemma ButtonsRendered(lib: Lib, o: Output, vars: map<string, string>)
    requires o.Buttons? && DegradeFacts.Valid(o)
    ensures AllAccepted(Rendered(lib, o, vars)) <==> !BlankShows(lib, o, vars)
  {
    hide RenderText, RenderButtons, AcceptsButton, Blank, DegradeFacts.ValidButton;
    RenderedButtons(lib, o.buttons, vars);
    var r := RenderButtons(lib, o.buttons, vars);
    if o.quickReply {
      LinksAbsent(o.buttons);
    }
    if r != [] {
      assert Rendered(lib, o, vars) == [Buttons(RenderOptional(lib, o.prompt, vars, 500), r, o.quickReply)];
      assert AllAccepted(Rendered(lib, o, vars)) <==> Accepts(Rendered(lib, o, vars)[0]);
    }
  }

  lemma LinksAbsent(buttons: seq<Button>)
    requires !Degrade.AnyButton(buttons, {Action.LINK})
    ensures NoLink(buttons)
  {
  }

  lemma CarouselRendered(lib: Lib, o: Output, vars: map<string, string>)
    requires o.Carousel? && DegradeFacts.Valid(o)
    ensures AllAccepted(Rendered(lib, o, vars)) <==> !BlankShows(lib, o, vars)
  {
    hide RenderText, RenderCards, AcceptsCard, BlankCard, DegradeFacts.ValidCard;
    RenderedCards(lib, o.cards, vars);
    var text, r := RenderOptional(lib, o.heading, vars, 300), RenderCards(lib, o.cards, vars);
    assert BlankShows(lib, o, vars) <==> AnyBlankCard(lib, o.cards, vars);
    if |r| == 1 {
      LoneCard(r[0]);
      var front := if text.Some? && text.value != [] then [Text(text.value)] else [];
      AcceptedAfter(front, CardOut(r[0]));
      assert Rendered(lib, o, vars) == front + [CardOut(r[0])];
      assert AcceptsCards(r) <==> AcceptsCard(r[0], 3);
      CardOfCarousel(lib, o, vars);
    } else if |r| >= 2 {
      assert Rendered(lib, o, vars) == [Carousel(text, r)];
      assert AllAccepted([Carousel(text, r)]) <==> Accepts([Carousel(text, r)][0]);
    }
  }

  /** A card left alone keeps its at most three buttons. */
  lemma CardOfCarousel(lib: Lib, o: Output, vars: map<string, string>)
    requires o.Carousel? && DegradeFacts.Valid(o) && |RenderCards(lib, o.cards, vars)| == 1
    ensures var card := RenderCards(lib, o.cards, vars)[0]; AcceptsCard(card, 5) <==> AcceptsCard(card, 3)
  {
    hide RenderText, RenderButtons, AcceptsButtons, AcceptsLabel, DegradeFacts.ValidButtons, DegradeFacts.NonBlank;
    KeptCardsAreSmall(lib, o.cards, vars);
  }

  lemma {:induction false} KeptCardsAreSmall(lib: Lib, cards: seq<Card>, vars: map<string, string>)
    requires DegradeFacts.ValidCards(cards, 3)
    ensures forall i :: 0 <= i < |RenderCards(lib, cards, vars)| ==>
      RenderCards(lib, cards, vars)[i].buttons.Some? ==> |RenderCards(lib, cards, vars)[i].buttons.value| <= 3
  {
    hide RenderText, RenderButtons, DegradeFacts.ValidButton, DegradeFacts.NonBlank;
    if cards != [] {
      KeptCardsAreSmall(lib, cards[1..], vars);
      assert DegradeFacts.ValidCard(cards[0], 3);
      assert cards[0].buttons.Some? ==> |cards[0].buttons.value| <= 3;
    }
  }

  lemma LoneCard(card: Card)
    ensures AcceptsCard(card, 3) ==> AcceptsCard(card, 5)
  {
    hide AcceptsLabel, AcceptsButtons;
  }

  lemma AcceptedAfter(front: seq<Output>, last: Output)
    requires AllAccepted(front)
    ensures AllAccepted(front + [last]) <==> Accepts(last)
  {
    hide Accepts;
    if AllAccepted(front + [last]) {
      assert (front + [last])[|front|] == last;
    }
  }

  /** Rendering a valid output leaves outputs that the schema accepts exactly when it leaves no title or label blank. */
  lemma RenderedAcceptedIff(lib: Lib, o: Output, vars: map<string, string>)
    requires DegradeFacts.Valid(o) && o.Displayable()
    ensures AllAccepted(Rendered(lib, o, vars)) <==> !BlankShows(lib, o, vars)
  {
    hide RenderText, RenderCard, RenderButtons, RenderCards, AcceptsCard, BlankCard, DegradeFacts.ValidCard, BlankLabel,
      DegradeFacts.ValidButtons;
    match o {
      case Buttons(_, _, _) => ButtonsRendered(lib, o, vars);
      case Carousel(_, _) => CarouselRendered(lib, o, vars);
      case CardOut(card) =>
        RenderedCard(lib, card, vars, 5);
        if RenderCard(lib, card, vars).Some? {
          assert AllAccepted(Rendered(lib, o, vars)) <==> Accepts(Rendered(lib, o, vars)[0]);
        }
      case _ =>
    }
  }

  /** It does happen: a label of two variables with a space between them, both empty. */
  lemma BlankLabelSlipsThrough(lib: Lib, vars: map<string, string>)
    requires lib.render("{api.a} {api.b}", vars) == " "
    ensures var o := Buttons(None, [Button("{api.a} {api.b}", MESSAGE, "x")], false);
            DegradeFacts.Valid(o) && !AllAccepted(Rendered(lib, o, vars))
  {
    var o := Buttons(None, [Button("{api.a} {api.b}", MESSAGE, "x")], false);
    hide Rendered, AllAccepted, Accepts;
    assert RenderText(lib, "{api.a} {api.b}", vars, 40) == " ";
    assert " "[1..] == [] && TrimStart(" ") == [] && Trim(" ") == [];
    assert Blank(lib, o.buttons[0].caption, vars, 40);
    RenderedAcceptedIff(lib, o, vars);
  }

  // ---------------------------------------------------------------- what rendering shows

  /** The values put into the labels of buttons, and into nothing else of them. */
  function PutInButtons(lib: Lib, buttons: seq<Button>, vars: map<string, string>): (r: seq<Button>)
    ensures |r| == |buttons|
    ensures forall i :: 0 <= i < |r| ==> r[i] == buttons[i].(caption := lib.render(buttons[i].caption, vars))
  {
    seq(|buttons|, i requires 0 <= i < |buttons| => buttons[i].(caption := lib.render(buttons[i].caption, vars)))
  }

  function PutInText(lib: Lib, s: Option<string>, vars: map<string, string>): Option<string>
  {
    if s.Some? then Some(lib.render(s.value, vars)) else None
  }

  function PutInCard(lib: Lib, card: Card, vars: map<string, string>): Card
  {
    card.(title := lib.render(card.title, vars), description := PutInText(lib, card.description, vars),
          buttons := if card.buttons.None? then None else Some(PutInButtons(lib, card.buttons.value, vars)))
  }

  function PutInCards(lib: Lib, cards: seq<Card>, vars: map<string, string>): (r: seq<Card>)
    ensures |r| == |cards| && forall i :: 0 <= i < |r| ==> r[i] == PutInCard(lib, cards[i], vars)
  {
    seq(|cards|, i requires 0 <= i < |cards| => PutInCard(lib, cards[i], vars))
  }

  /** The values put into every text that a reader sees; addresses and button values stay as they are. */
  function PutIn(lib: Lib, o: Output, vars: map<string, string>): Output
  {
    match o
    case Text(text) => Text(lib.render(text, vars))
    case CardOut(card) => CardOut(PutInCard(lib, card, vars))
    case Buttons(prompt, buttons, quickReply) => Buttons(PutInText(lib, prompt, vars), PutInButtons(lib, buttons, vars), quickReply)
    case Carousel(heading, cards) => Carousel(PutInText(lib, heading, vars), PutInCards(lib, cards, vars))
    case _ => o
  }

  /** The library with a rendering that puts nothing in. */
  function Plain(lib: Lib): Lib { lib.(render := (s, vars) => s) }

  lemma {:induction false} ButtonsPutIn(lib: Lib, buttons: seq<Button>, vars: map<string, string>)
    ensures RenderButtons(lib, buttons, vars) == RenderButtons(Plain(lib), PutInButtons(lib, buttons, vars), vars)
  {
    if buttons != [] {
      ButtonsPutIn(lib, buttons[1..], vars);
      assert PutInButtons(lib, buttons, vars)[1..] == PutInButtons(lib, buttons[1..], vars);
    }
  }

  lemma CardPutIn(lib: Lib, card: Card, vars: map<string, string>)
    ensures RenderCard(lib, card, vars) == RenderCard(Plain(lib), PutInCard(lib, card, vars), vars)
  {
    hide RenderButtons, PutInButtons;
    if card.buttons.Some? {
      ButtonsPutIn(lib, card.buttons.value, vars);
    }
  }

  lemma {:induction false} CardsPutIn(lib: Lib, cards: seq<Card>, vars: map<string, string>)
    ensures RenderCards(lib, cards, vars) == RenderCards(Plain(lib), PutInCards(lib, cards, vars), vars)
  {
    hide RenderCard, PutInCard, Plain;
    if cards != [] {
      CardPutIn(lib, cards[0], vars);
      CardsPutIn(lib, cards[1..], vars);
      assert PutInCards(lib, cards, vars)[1..] == PutInCards(lib, cards[1..], vars);
    }
  }

  /** Rendering is putting the values in, and then what the schema asks for. */
  lemma RenderingPutsIn(lib: Lib, o: Output, vars: map<string, string>)
    ensures Rendered(lib, o, vars) == Rendered(Plain(lib), PutIn(lib, o, vars), vars)
  {
    hide RenderCard, RenderCards, RenderButtons, PutInCard, PutInCards, PutInButtons;
    match o
    case CardOut(card) => CardPutIn(lib, card, vars);
    case Buttons(_, buttons, _) => ButtonsPutIn(lib, buttons, vars);
    case Carousel(_, cards) => CardsPutIn(lib, cards, vars);
    case _ =>
  }

  lemma {:induction false} PlainButtons(lib: Lib, buttons: seq<Button>, vars: map<string, string>)
    requires forall i :: 0 <= i < |buttons| ==> DegradeFacts.ValidButton(buttons[i])
    ensures RenderButtons(Plain(lib), buttons, vars) == buttons
  {
    if buttons != [] {
      PlainButtons(lib, buttons[1..], vars);
      assert DegradeFacts.ValidButton(buttons[0]);
    }
  }

  lemma PlainCard(lib: Lib, card: Card, vars: map<string, string>, max: nat)
    requires DegradeFacts.ValidCard(card, max)
    ensures RenderCard(Plain(lib), card, vars) == Some(card)
  {
    hide RenderButtons;
    if card.buttons.Some? {
      PlainButtons(lib, card.buttons.value, vars);
    }
  }

  lemma {:induction false} PlainCards(lib: Lib, cards: seq<Card>, vars: map<string, string>)
    requires DegradeFacts.ValidCards(cards, 3)
    ensures RenderCards(Plain(lib), cards, vars) == cards
  {
    hide RenderCard, Plain, DegradeFacts.ValidCard;
    if cards != [] {
      assert DegradeFacts.ValidCard(cards[0], 3);
      PlainCard(lib, cards[0], vars, 3);
      PlainCards(lib, cards[1..], vars);
    }
  }

  /** What still fits the schema once the values are in is shown as it is, all of it. */
  lemma FittingIsShown(lib: Lib, o: Output, vars: map<string, string>)
    requires o.Displayable() && DegradeFacts.Valid(PutIn(lib, o, vars))
    ensures Rendered(lib, o, vars) == [PutIn(lib, o, vars)]
  {
    hide RenderCard, RenderCards, RenderButtons, PutInCard, PutInCards, PutInButtons, DegradeFacts.ValidCard;
    RenderingPutsIn(lib, o, vars);
    match PutIn(lib, o, vars)
    case CardOut(card) => PlainCard(lib, card, vars, 5);
    case Buttons(_, buttons, _) => PlainButtons(lib, buttons, vars);
    case Carousel(_, cards) => PlainCards(lib, cards, vars);
    case _ =>
  }

  /** A text, a title or labels that come to nothing take their output with them. */
  lemma NothingLeft(lib: Lib, o: Output, vars: map<string, string>)
    requires match o
             case Text(text) => lib.render(text, vars) == []
             case CardOut(card) => lib.render(card.title, vars) == []
             case Buttons(_, buttons, _) => forall i :: 0 <= i < |buttons| ==> lib.render(buttons[i].caption, vars) == []
             case Carousel(_, cards) => forall i :: 0 <= i < |cards| ==> lib.render(cards[i].title, vars) == []
             case _ => false
    ensures Rendered(lib, o, vars) == []
  {
    match o
    case Buttons(_, buttons, _) => NoLabels(lib, buttons, vars);
    case Carousel(_, cards) => NoCards(lib, cards, vars);
    case _ =>
  }

  lemma {:induction false} NoLabels(lib: Lib, buttons: seq<Button>, vars: map<string, string>)
    requires forall i :: 0 <= i < |buttons| ==> lib.render(buttons[i].caption, vars) == []
    ensures RenderButtons(lib, buttons, vars) == []
  {
    if buttons != [] {
      NoLabels(lib, buttons[1..], vars);
    }
  }

  lemma {:induction false} NoCards(lib: Lib, cards: seq<Card>, vars: map<string, string>)
    requires forall i :: 0 <= i < |cards| ==> lib.render(cards[i].title, vars) == []
    ensures RenderCards(lib, cards, vars) == []
  {
    if cards != [] {
      NoCards(lib, cards[1..], vars);
    }
  }

  /** A carousel of which one card is left is shown as its heading, if that says something, and this card. */
  lemma OneCardLeft(lib: Lib, o: Output, vars: map<string, string>, k: nat)
    requires o.Carousel? && k < |o.cards| && lib.render(o.cards[k].title, vars) != []
    requires forall i :: 0 <= i < |o.cards| && i != k ==> lib.render(o.cards[i].title, vars) == []
    ensures RenderCard(lib, o.cards[k], vars).Some?
    ensures var heading := RenderOptional(lib, o.heading, vars, 300).GetOr("");
      Rendered(lib, o, vars) == (if heading == "" then [] else [Text(heading)]) + [CardOut(RenderCard(lib, o.cards[k], vars).value)]
  {
    hide RenderCard;
    OneKept(lib, o.cards, vars, k);
  }

  lemma {:induction false} OneKept(lib: Lib, cards: seq<Card>, vars: map<string, string>, k: nat)
    requires k < |cards| && lib.render(cards[k].title, vars) != []
    requires forall i :: 0 <= i < |cards| && i != k ==> lib.render(cards[i].title, vars) == []
    ensures RenderCard(lib, cards[k], vars).Some? && RenderCards(lib, cards, vars) == [RenderCard(lib, cards[k], vars).value]
  {
    if k == 0 {
      NoCards(lib, cards[1..], vars);
    } else {
      OneKept(lib, cards[1..], vars, k - 1);
    }
  }
}
