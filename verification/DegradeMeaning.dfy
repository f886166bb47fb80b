/** What each output becomes on a channel and what is reported of it, said without the code that fits it
    (packages/shared-types/src/rich-degrade.ts). */
module DegradeMeaning {
  import opened Prelude
  import opened Texts
  import opened Dialogue
  import opened Degrade

  // ---------------------------------------------------------------- texts and buttons

  /** A text within the limit stays; a longer one loses its end to an ellipsis. */
  ghost predicate Shortens(text: string, max: nat, shown: string)
  {
    if |text| <= max then shown == text else shown == text[..if max == 0 then 0 else max - 1] + "…"
  }

  ghost function FirstOf(buttons: seq<Button>, most: Option<nat>): seq<Button>
  {
    if most.Some? && most.value < |buttons| then buttons[..most.value] else buttons
  }

  ghost predicate ButtonBecomes(p: Profile, b: Button, shown: Button)
  {
    shown.action == b.action && shown.value == b.value && Shortens(b.caption, p.caption, shown.caption)
  }

  /** The buttons whose action the channel knows among the first `most`, in order. */
  ghost predicate KeepsButtons(p: Profile, buttons: seq<Button>, most: Option<nat>, shown: seq<Button>)
  {
    var kept := Filter((b: Button) => b.action in p.actions, FirstOf(buttons, most));
    |shown| == |kept| && forall k :: 0 <= k < |kept| ==> ButtonBecomes(p, kept[k], shown[k])
  }

  /** Why the buttons of an output are reported. */
  ghost predicate ButtonsTell(p: Profile, buttons: seq<Button>, most: Option<nat>, kind: ChangeKind, detail: Detail)
  {
    || (kind == BUTTONS_TRUNCATED && most.Some? && |buttons| > most.value && detail == Ratio(|buttons|, most.value))
    || (kind == ACTION_LOST && exists b :: b in FirstOf(buttons, most) && b.action !in p.actions && Names(b.action, detail))
    || (kind == TEXT_TRUNCATED && detail == Of("buttonLabel")
        && exists b :: b in FirstOf(buttons, most) && b.action in p.actions && |b.caption| > p.caption)
  }

  ghost predicate Names(a: Action, detail: Detail)
  {
    detail == Of(if a == MESSAGE then "MESSAGE" else if a == NODE then "NODE" else "LINK")
  }

  lemma {:induction false} AllowedFiltered(buttons: seq<Button>, actions: set<Action>)
    ensures Allowed(buttons, actions) == Filter((b: Button) => b.action in actions, buttons)
  {
    if buttons != [] {
      AllowedFiltered(buttons[1..], actions);
    }
  }

  lemma {:induction false} RelabeledBecome(p: Profile, buttons: seq<Button>)
    ensures forall k :: 0 <= k < |buttons| ==> ButtonBecomes(p, buttons[k], Relabeled(buttons, p.caption)[k])
  {
    if buttons != [] {
      RelabeledBecome(p, buttons[1..]);
      forall k | 0 <= k < |buttons| ensures ButtonBecomes(p, buttons[k], Relabeled(buttons, p.caption)[k]) {
        if k > 0 {
          assert buttons[k] == buttons[1..][k - 1];
        }
      }
    }
  }

  lemma {:induction false} LostTold(buttons: seq<Button>, actions: set<Action>, index: nat, c: Change)
    ensures c in LostActions(buttons, actions, index)
       <==> c.outputIndex == index && c.kind == ACTION_LOST && exists b :: b in buttons && b.action !in actions && Names(b.action, c.detail)
  {
    if buttons != [] {
      LostTold(buttons[1..], actions, index, c);
      assert forall b :: b in buttons <==> b == buttons[0] || b in buttons[1..];
    }
  }

  lemma {:induction false} CutsTold(buttons: seq<Button>, limit: nat, index: nat, c: Change)
    ensures c in CutLabels(buttons, limit, index)
       <==> c == Change(index, TEXT_TRUNCATED, Of("buttonLabel")) && exists b :: b in buttons && |b.caption| > limit
  {
    if buttons != [] {
      CutsTold(buttons[1..], limit, index, c);
      assert forall b :: b in buttons <==> b == buttons[0] || b in buttons[1..];
    }
  }

  lemma ProcessedKeeps(p: Profile, buttons: seq<Button>, most: Option<nat>, index: nat)
    ensures KeepsButtons(p, buttons, most, ProcessButtons(p, buttons, most, index).value)
  {
    hide Filter, Allowed, Relabeled, ButtonBecomes;
    AllowedFiltered(Working(buttons, most), p.actions);
    RelabeledBecome(p, Allowed(Working(buttons, most), p.actions));
  }

  lemma ProcessedTells(p: Profile, buttons: seq<Button>, most: Option<nat>, index: nat, c: Change)
    ensures c in ProcessButtons(p, buttons, most, index).changes
       <==> c.outputIndex == index && ButtonsTell(p, buttons, most, c.kind, c.detail)
  {
    hide Filter, Allowed, Relabeled, LostActions, CutLabels, Names;
    var working := Working(buttons, most);
    AllowedFiltered(working, p.actions);
    LostTold(working, p.actions, index, c);
    CutsTold(Allowed(working, p.actions), p.caption, index, c);
  }

  // ---------------------------------------------------------------- cards

  /** The description of a card whose image cannot be shown begins with what the image shows. */
  ghost function Described(p: Profile, card: Card): Option<string>
  {
    if card.imageUrl.GetOr("") != "" && !p.image then Some("[이미지: " + card.altText.GetOr("") + "] " + card.description.GetOr(""))
    else card.description
  }

  ghost predicate CardButtonsBecome(p: Profile, buttons: Option<seq<Button>>, most: nat, shown: Option<seq<Button>>)
  {
    if buttons.GetOr([]) == [] then shown == buttons
    else exists kept :: KeepsButtons(p, buttons.value, Some(most), kept) && shown == if kept == [] then None else Some(kept)
  }

  ghost predicate CardBecomes(p: Profile, card: Card, most: nat, shown: Card)
  {
    && Shortens(card.title, p.title, shown.title)
    && shown.description.Some? == Described(p, card).Some?
    && (shown.description.Some? ==> Shortens(Described(p, card).value, p.description, shown.description.value))
    && (if card.imageUrl.GetOr("") != "" && !p.image then shown.imageUrl.None? && shown.altText.None?
        else shown.imageUrl == card.imageUrl && shown.altText == card.altText)
    && CardButtonsBecome(p, card.buttons, most, shown.buttons)
  }

  ghost predicate CardTells(p: Profile, card: Card, most: nat, kind: ChangeKind, detail: Detail)
  {
    || (card.buttons.Some? && ButtonsTell(p, card.buttons.value, Some(most), kind, detail))
    || (kind == IMAGE_REMOVED && detail == NoDetail && card.imageUrl.GetOr("") != "" && !p.image)
    || (kind == TEXT_TRUNCATED && detail == Of("title") && |card.title| > p.title)
    || (kind == TEXT_TRUNCATED && detail == Of("description") && Described(p, card).Some? && |Described(p, card).value| > p.description)
  }

  lemma KeptSame(p: Profile, buttons: seq<Button>, most: Option<nat>, index: nat)
    requires ProcessButtons(p, buttons, most, index).changes == []
    ensures KeepsButtons(p, buttons, most, buttons)
  {
    hide KeepsButtons;
    UnchangedButtons(p, buttons, most, index);
    ProcessedKeeps(p, buttons, most, index);
  }

  lemma {:induction false} SilentAllowed(p: Profile, buttons: seq<Button>, index: nat)
    requires LostActions(buttons, p.actions, index) == [] && CutLabels(Allowed(buttons, p.actions), p.caption, index) == []
    ensures Allowed(buttons, p.actions) == buttons && Relabeled(buttons, p.caption) == buttons
  {
    if buttons != [] {
      assert Allowed(buttons, p.actions)[1..] == Allowed(buttons[1..], p.actions);
      SilentAllowed(p, buttons[1..], index);
    }
  }

  lemma UnchangedButtons(p: Profile, buttons: seq<Button>, most: Option<nat>, index: nat)
    requires ProcessButtons(p, buttons, most, index).changes == []
    ensures ProcessButtons(p, buttons, most, index).value == buttons
  {
    hide Allowed, Relabeled, LostActions, CutLabels;
    var working := Working(buttons, most);
    assert Shortened(buttons, most, index) == [] && working == buttons;
    assert LostActions(working, p.actions, index) == [] && CutLabels(Allowed(working, p.actions), p.caption, index) == [];
    SilentAllowed(p, buttons, index);
  }

  lemma CardButtonsMean(p: Profile, card: Card, most: nat, index: nat, c: Change)
    ensures CardButtonsBecome(p, card.buttons, most, CardButtons(p, card, most, index).value)
    ensures c in CardButtons(p, card, most, index).changes
       <==> c.outputIndex == index && card.buttons.Some? && ButtonsTell(p, card.buttons.value, Some(most), c.kind, c.detail)
  {
    hide ProcessButtons, KeepsButtons;
    if card.buttons.Some? {
      var buttons := card.buttons.value;
      ProcessedTells(p, buttons, Some(most), index, c);
      ProcessedKeeps(p, buttons, Some(most), index);
      if ProcessButtons(p, buttons, Some(most), index).changes == [] {
        KeptSame(p, buttons, Some(most), index);
      }
    }
  }

  lemma ProcessedCardMeans(p: Profile, card: Card, most: nat, index: nat, c: Change)
    ensures CardBecomes(p, card, most, ProcessCard(p, card, most, index).value)
    ensures c in ProcessCard(p, card, most, index).changes <==> c.outputIndex == index && CardTells(p, card, most, c.kind, c.detail)
  {
    hide CardButtons, CardButtonsBecome, ButtonsTell;
    CardButtonsMean(p, card, most, index, c);
  }

  ghost predicate CardsBecome(p: Profile, cards: seq<Card>, most: nat, shown: seq<Card>)
  {
    |shown| == |cards| && forall i :: 0 <= i < |cards| ==> CardBecomes(p, cards[i], most, shown[i])
  }

  lemma {:induction false} ProcessedCardsMean(p: Profile, cards: seq<Card>, most: nat, index: nat, c: Change)
    ensures CardsBecome(p, cards, most, ProcessCards(p, cards, most, index).value)
    ensures c in ProcessCards(p, cards, most, index).changes
       <==> c.outputIndex == index && exists card :: card in cards && CardTells(p, card, most, c.kind, c.detail)
  {
    hide ProcessCard, CardBecomes, CardTells;
    if cards != [] {
      ProcessedCardMeans(p, cards[0], most, index, c);
      ProcessedCardsMean(p, cards[1..], most, index, c);
      assert forall card :: card in cards <==> card == cards[0] || card in cards[1..];
    }
  }

  // ---------------------------------------------------------------- the text of a carousel

  ghost function ButtonLine(b: Button): string
  {
    if b.action == Action.LINK then "   " + b.caption + ": " + b.value else "   · " + b.caption
  }

  /** The number, title and preview of a card, and its buttons that need no other part of the conversation. */
  ghost predicate CardReads(card: Card, i: nat, lines: seq<string>)
  {
    && lines != []
    && lines[1..] == Map(ButtonLine, Filter((b: Button) => b.action != NODE, card.buttons.GetOr([])))
    && (card.description.None? ==> lines[0] == Decimal(i + 1) + ") " + card.title)
    && (card.description.Some? ==>
          exists preview :: Shortens(card.description.value, 50, preview) && lines[0] == Decimal(i + 1) + ") " + card.title + " — " + preview)
  }

  ghost predicate CardsRead(cards: seq<Card>, from: nat, lines: seq<string>, blocks: seq<seq<string>>)
  {
    |blocks| == |cards| && lines == Flatten(blocks) && forall i :: 0 <= i < |cards| ==> CardReads(cards[i], from + i, blocks[i])
  }

  lemma {:induction false} ButtonLinesMapped(buttons: seq<Button>)
    ensures ButtonLines(buttons) == Map(ButtonLine, Filter((b: Button) => b.action != NODE, buttons))
  {
    if buttons != [] {
      var keep := (b: Button) => b.action != NODE;
      ButtonLinesMapped(buttons[1..]);
      var rest := Filter(keep, buttons[1..]);
      if keep(buttons[0]) {
        assert ([buttons[0]] + rest)[1..] == rest;
      } else {
        assert [] + rest == rest;
      }
    }
  }

  lemma {:induction false} CardLinesRead(cards: seq<Card>, from: nat) returns (blocks: seq<seq<string>>)
    ensures CardsRead(cards, from, CardLines(cards, from), blocks)
    decreases |cards|
  {
    hide ButtonLines, Decimal, Truncate, CardReads;
    if cards == [] {
      blocks := [];
    } else {
      var rest := CardLinesRead(cards[1..], from + 1);
      var card := cards[0];
      var preview := if card.description.Some? then " — " + Truncate(card.description.value, PREVIEW_MAX) else "";
      var first := [Decimal(from + 1) + ") " + card.title + preview] + ButtonLines(card.buttons.GetOr([]));
      CardRead(card, from, first);
      assert CardLines(cards, from) == first + CardLines(cards[1..], from + 1);
      hide CardLines;
      FirstRead(cards, from, first, CardLines(cards[1..], from + 1), rest);
      blocks := [first] + rest;
    }
  }

  lemma FirstRead(cards: seq<Card>, from: nat, first: seq<string>, lines: seq<string>, rest: seq<seq<string>>)
    requires cards != [] && CardReads(cards[0], from, first) && CardsRead(cards[1..], from + 1, lines, rest)
    ensures CardsRead(cards, from, first + lines, [first] + rest)
  {
    hide CardReads;
    var blocks := [first] + rest;
    assert blocks[1..] == rest;
    forall i | 0 <= i < |cards| ensures CardReads(cards[i], from + i, blocks[i]) {
      if i > 0 {
        assert cards[i] == cards[1..][i - 1] && blocks[i] == rest[i - 1];
        assert from + i == from + 1 + (i - 1);
      }
    }
  }

  lemma CardRead(card: Card, i: nat, lines: seq<string>)
    requires var preview := if card.description.Some? then " — " + Truncate(card.description.value, PREVIEW_MAX) else "";
      lines == [Decimal(i + 1) + ") " + card.title + preview] + ButtonLines(card.buttons.GetOr([]))
    ensures CardReads(card, i, lines)
  {
    hide ButtonLines, Decimal, ButtonLine;
    ButtonLinesMapped(card.buttons.GetOr([]));
    if card.description.Some? {
      var preview := Truncate(card.description.value, PREVIEW_MAX);
      assert Shortens(card.description.value, 50, preview);
      var start := Decimal(i + 1) + ") " + card.title;
      assert start + (" — " + preview) == start + " — " + preview;
    } else {
      var start := Decimal(i + 1) + ") " + card.title;
      assert start + "" == start;
    }
  }

  /** Joining lines puts the separator between any two parts of them, and nothing else anywhere. */
  lemma {:induction false} LinesJoin(a: seq<string>, b: seq<string>, separator: string)
    requires a != [] && b != []
    ensures Lines(a + b, separator) == Lines(a, separator) + separator + Lines(b, separator)
    ensures |a| == 1 ==> Lines(a, separator) == a[0]
  {
    if |a| == 1 {
      assert (a + b)[1..] == b;
    } else {
      assert (a + b)[1..] == a[1..] + b;
      LinesJoin(a[1..], b, separator);
    }
  }

  ghost function Heading(text: Option<string>): seq<string> { if text.Some? && text.value != "" then [text.value] else [] }

  ghost predicate CarouselReads(o: Output, whole: string)
    requires o.Carousel?
  {
    exists lines, blocks :: CardsRead(o.cards, 0, lines, blocks) && whole == Lines(Heading(o.heading) + lines, "\n")
  }

  // ---------------------------------------------------------------- what becomes of an output

  ghost predicate CarouselBecomes(p: Profile, o: Output, shown: seq<Output>)
    requires o.Carousel?
  {
    if Shape.CAROUSEL in p.types then
      exists cards :: shown == [Carousel(o.heading, cards)]
        && CardsBecome(p, if |o.cards| > p.carouselMaxCards then o.cards[..p.carouselMaxCards] else o.cards, p.carouselCardMaxButtons, cards)
    else if Shape.CARD in p.types then
      exists cards :: CardsBecome(p, o.cards, p.cardMaxButtons, cards)
        && shown == Map(s => Text(s), Heading(o.heading)) + Map(c => CardOut(c), cards)
    else exists whole, text :: CarouselReads(o, whole) && Shortens(whole, 1000, text) && shown == [Text(text)]
  }

  ghost function Captions(buttons: seq<Button>): seq<string>
  {
    Map((b: Button) => b.caption, Filter((b: Button) => b.action == MESSAGE, buttons))
  }

  ghost predicate QuickReplyBecomes(p: Profile, o: Output, shown: seq<Output>)
    requires o.Buttons? && o.quickReply
  {
    if p.quickReply then exists buttons :: KeepsButtons(p, o.buttons, Some(p.quickReplyMax), buttons) && shown == [Buttons(o.prompt, buttons, true)]
    else if Shape.BUTTON in p.types then exists buttons :: KeepsButtons(p, o.buttons, None, buttons) && shown == [Buttons(o.prompt, buttons, false)]
    else
      var captions := Captions(o.buttons);
      var lines := Heading(o.prompt) + if captions == [] then [] else ["다음 중 입력해 주세요: " + Lines(captions, " / ")];
      shown == if lines == [] then [] else [Text(Lines(lines, "\n"))]
  }

  ghost predicate ButtonsBecome(p: Profile, o: Output, shown: seq<Output>)
    requires o.Buttons?
  {
    if Shape.BUTTON in p.types then
      exists buttons :: KeepsButtons(p, o.buttons, None, buttons)
        && shown == if buttons != [] || o.buttons == [] then [Buttons(o.prompt, buttons, o.quickReply)] else Map(s => Text(s), Heading(o.prompt))
    else shown == [Text(if Heading(o.prompt) == [] then "[버튼]" else "[버튼] " + o.prompt.value)]
  }

  /** What an output becomes on a channel: itself where it fits, the next best form where the channel has one, a text
      otherwise, and nothing at all where there is nothing to say. */
  ghost predicate Becomes(p: Profile, o: Output, shown: seq<Output>)
  {
    match o
    case Text(_) => shown == [o]
    case Carousel(_, _) => CarouselBecomes(p, o, shown)
    case Buttons(_, _, quickReply) => if quickReply then QuickReplyBecomes(p, o, shown) else ButtonsBecome(p, o, shown)
    case CardOut(card) =>
      if Shape.CARD in p.types then exists c :: CardBecomes(p, card, p.cardMaxButtons, c) && shown == [CardOut(c)]
      else shown == [Text("[카드] " + card.title)]
    case Image(_, altText) => shown == if Shape.IMAGE in p.types then [o] else [Text("[이미지] " + altText)]
    case Link(caption, url, newTab) =>
      if Shape.LINK in p.types then exists c :: Shortens(caption, p.caption, c) && shown == [Link(c, url, newTab)]
      else shown == [Text("[링크] " + caption)]
    case PhoneCall(caption, _) => shown == if Shape.PHONE_CALL in p.types then [o] else [Text("[전화] " + caption)]
    case Pause(_) => shown == if Shape.PAUSE in p.types then [o] else []
    case _ => shown == [Text("[지원하지 않는 응답]")]
  }

  lemma {:induction false} CardOutputs(cards: seq<Card>)
    ensures AsOutputs(cards) == Map(c => CardOut(c), cards)
  {
    if cards != [] {
      CardOutputs(cards[1..]);
    }
  }

  lemma HeadingText(heading: Option<string>)
    ensures (if heading.GetOr("") == "" then [] else [Text(heading.value)]) == Map(s => Text(s), Heading(heading))
    ensures TextLine(heading) == Heading(heading)
  {
  }

  lemma CarouselMeans(p: Profile, o: Output, index: nat)
    requires o.Carousel?
    ensures CarouselBecomes(p, o, DegradeCarousel(p, o, index).value)
  {
    hide ProcessCards, CardsBecome, CardLines, Lines, Truncate, AsOutputs, Map, CardsRead;
    var fewer := if |o.cards| > p.carouselMaxCards then o.cards[..p.carouselMaxCards] else o.cards;
    ProcessedCardsMean(p, fewer, p.carouselCardMaxButtons, index, Change(0, CARDS_TRUNCATED, NoDetail));
    ProcessedCardsMean(p, o.cards, p.cardMaxButtons, index, Change(0, CARDS_TRUNCATED, NoDetail));
    CardOutputs(ProcessCards(p, o.cards, p.cardMaxButtons, index).value);
    HeadingText(o.heading);
    var blocks := CardLinesRead(o.cards, 0);
    var whole := Lines(TextLine(o.heading) + CardLines(o.cards, 0), "\n");
    TruncateShortens(whole, 1000);
    assert CarouselReads(o, whole);
  }

  lemma TruncateShortens(text: string, max: nat)
    ensures Shortens(text, max, Truncate(text, max))
  {
  }

  lemma {:induction false} LabelsMapped(buttons: seq<Button>)
    ensures MessageLabels(buttons) == Captions(buttons)
  {
    if buttons != [] {
      LabelsMapped(buttons[1..]);
      var keep := (b: Button) => b.action == MESSAGE;
      var rest := Filter(keep, buttons[1..]);
      if keep(buttons[0]) {
        assert ([buttons[0]] + rest)[1..] == rest;
      } else {
        assert [] + rest == rest;
      }
    }
  }

  lemma QuickReplyMeans(p: Profile, o: Output, index: nat)
    requires o.Buttons? && o.quickReply
    ensures QuickReplyBecomes(p, o, DegradeQuickReply(p, o, index).value)
  {
    hide ProcessButtons, KeepsButtons, Lines, MessageLabels, Captions;
    ProcessedKeeps(p, o.buttons, Some(p.quickReplyMax), index);
    ProcessedKeeps(p, o.buttons, None, index);
    LabelsMapped(o.buttons);
    HeadingText(o.prompt);
  }

  lemma ButtonsMean(p: Profile, o: Output, index: nat)
    requires o.Buttons?
    ensures ButtonsBecome(p, o, DegradeButton(p, o, index).value)
  {
    hide ProcessButtons, KeepsButtons, Map;
    ProcessedKeeps(p, o.buttons, None, index);
    HeadingText(o.prompt);
    var r := ProcessButtons(p, o.buttons, None, index);
    if r.changes == [] {
      UnchangedButtons(p, o.buttons, None, index);
    } else if o.buttons == [] {
      NoButtonsSilent(p, index);
    }
  }

  lemma NoButtonsSilent(p: Profile, index: nat)
    ensures ProcessButtons(p, [], None, index).changes == []
  {
  }

  lemma OneMeans(p: Profile, o: Output, index: nat)
    ensures Becomes(p, o, DegradeOne(p, o, index).value)
  {
    hide DegradeCarousel, CarouselBecomes, DegradeQuickReply, QuickReplyBecomes, DegradeButton, ButtonsBecome, ProcessCard, CardBecomes, Truncate;
    match o {
      case Carousel(_, _) => CarouselMeans(p, o, index);
      case Buttons(_, _, quickReply) =>
        if quickReply {
          QuickReplyMeans(p, o, index);
        } else {
          ButtonsMean(p, o, index);
        }
      case CardOut(card) => ProcessedCardMeans(p, card, p.cardMaxButtons, index, Change(0, CARDS_TRUNCATED, NoDetail));
      case Link(caption, _, _) => TruncateShortens(caption, p.caption);
      case _ =>
    }
  }

  ghost predicate FittedBy(p: Profile, outputs: seq<Output>, result: seq<Output>, parts: seq<seq<Output>>)
  {
    |parts| == |outputs| && result == Flatten(parts) && forall i :: 0 <= i < |outputs| ==> Becomes(p, outputs[i], parts[i])
  }

  /** The result is what the outputs become, one after another. */
  ghost predicate Fitted(p: Profile, outputs: seq<Output>, result: seq<Output>)
  {
    exists parts :: FittedBy(p, outputs, result, parts)
  }

  lemma {:induction false} FromIsFitted(p: Profile, outputs: seq<Output>, index: nat) returns (parts: seq<seq<Output>>)
    ensures FittedBy(p, outputs, DegradeFrom(p, outputs, index).value, parts)
    decreases |outputs|
  {
    hide DegradeOne, Becomes;
    if outputs == [] {
      parts := [];
    } else {
      var rest := FromIsFitted(p, outputs[1..], index + 1);
      OneMeans(p, outputs[0], index);
      parts := [DegradeOne(p, outputs[0], index).value] + rest;
      assert parts[1..] == rest;
      forall i | 0 <= i < |outputs| ensures Becomes(p, outputs[i], parts[i]) {
        if i > 0 {
          assert outputs[i] == outputs[1..][i - 1];
        }
      }
    }
  }

  lemma ResultIsFitted(p: Profile, outputs: seq<Output>)
    ensures Fitted(p, outputs, DegradeFrom(p, outputs, 0).value)
  {
    hide DegradeFrom, FittedBy;
    var parts := FromIsFitted(p, outputs, 0);
  }

  // ---------------------------------------------------------------- what is reported

  ghost predicate Pictured(card: Card) { card.imageUrl.GetOr("") != "" }

  ghost predicate CarouselTells(p: Profile, o: Output, kind: ChangeKind, detail: Detail)
    requires o.Carousel?
  {
    if Shape.CAROUSEL in p.types then
      || (kind == CARDS_TRUNCATED && |o.cards| > p.carouselMaxCards && detail == Ratio(|o.cards|, p.carouselMaxCards))
      || (exists i :: 0 <= i < |o.cards| && i < p.carouselMaxCards && CardTells(p, o.cards[i], p.carouselCardMaxButtons, kind, detail))
    else if Shape.CARD in p.types then
      || (kind == CAROUSEL_TO_CARDS && detail == Ratio(|o.cards|, |o.cards|))
      || (exists card :: card in o.cards && CardTells(p, card, p.cardMaxButtons, kind, detail))
    else
      || (kind == CAROUSEL_TO_TEXT && detail == NoDetail)
      || (kind == IMAGE_REMOVED && detail == NoDetail && exists card :: card in o.cards && Pictured(card))
      || (kind == ACTION_LOST && detail == Of("NODE") && exists card :: card in o.cards && LeadsOn(card.buttons.GetOr([])))
      || (kind == TEXT_TRUNCATED && detail == NoDetail && exists whole :: CarouselReads(o, whole) && |whole| > 1000)
  }

  /** A button that leads to another node. */
  ghost predicate LeadsOn(buttons: seq<Button>) { exists b :: b in buttons && b.action == NODE }

  ghost predicate QuickReplyTells(p: Profile, o: Output, kind: ChangeKind, detail: Detail)
    requires o.Buttons?
  {
    if p.quickReply then ButtonsTell(p, o.buttons, Some(p.quickReplyMax), kind, detail)
    else if Shape.BUTTON in p.types then
      (kind == QUICK_REPLY_TO_BUTTON && detail == NoDetail) || ButtonsTell(p, o.buttons, None, kind, detail)
    else
      || (kind == BUTTON_TO_TEXT && detail == NoDetail)
      || (kind == ACTION_LOST && detail == Of("NODE") && LeadsOn(o.buttons))
      || (kind == OUTPUT_REMOVED && detail == NoDetail && o.prompt.GetOr("") == "" && forall b :: b in o.buttons ==> b.action != MESSAGE)
  }

  ghost predicate ButtonTells(p: Profile, o: Output, kind: ChangeKind, detail: Detail)
    requires o.Buttons?
  {
    if Shape.BUTTON in p.types then
      var none := o.buttons != [] && forall b :: b in o.buttons ==> b.action !in p.actions;
      || ButtonsTell(p, o.buttons, None, kind, detail)
      || (none && kind == BUTTON_TO_TEXT && detail == NoDetail)
      || (none && kind == OUTPUT_REMOVED && detail == NoDetail && o.prompt.GetOr("") == "")
    else (kind == BUTTON_TO_TEXT && detail == NoDetail) || (kind == ACTION_LOST && detail == Of("BUTTONS"))
  }

  /** Said in words, with what went missing. */
  ghost predicate Worded(kind: ChangeKind, detail: Detail, name: string, loss: ChangeKind, what: Detail)
  {
    (kind == OUTPUT_TO_TEXT && detail == Of(name)) || (kind == loss && detail == what)
  }

  /** What is reported of an output. */
  ghost predicate Tells(p: Profile, o: Output, kind: ChangeKind, detail: Detail)
  {
    match o
    case Text(_) => false
    case Carousel(_, _) => CarouselTells(p, o, kind, detail)
    case Buttons(_, _, quickReply) => if quickReply then QuickReplyTells(p, o, kind, detail) else ButtonTells(p, o, kind, detail)
    case CardOut(card) =>
      if Shape.CARD in p.types then CardTells(p, card, p.cardMaxButtons, kind, detail)
      else
        || (kind == OUTPUT_TO_TEXT && detail == Of("CARD"))
        || (kind == IMAGE_REMOVED && detail == NoDetail && Pictured(card))
        || (kind == ACTION_LOST && detail == NoDetail && exists b :: b in card.buttons.GetOr([]) && b.action != MESSAGE)
    case Image(_, _) => Shape.IMAGE !in p.types && Worded(kind, detail, "IMAGE", IMAGE_REMOVED, NoDetail)
    case Link(caption, _, _) =>
      if Shape.LINK in p.types then kind == TEXT_TRUNCATED && detail == Of("buttonLabel") && |caption| > p.caption
      else Worded(kind, detail, "LINK", ACTION_LOST, Of("LINK"))
    case PhoneCall(_, _) => Shape.PHONE_CALL !in p.types && Worded(kind, detail, "PHONE_CALL", ACTION_LOST, Of("PHONE"))
    case Pause(_) => Shape.PAUSE !in p.types && kind == OUTPUT_REMOVED && detail == NoDetail
    case _ => kind == OUTPUT_TO_TEXT && detail == NoDetail
  }

  lemma AnyButtonLeadsOn(buttons: seq<Button>)
    ensures AnyButton(buttons, {NODE}) <==> LeadsOn(buttons)
    ensures AnyButton(buttons, {Action.LINK, NODE}) <==> exists b :: b in buttons && b.action != MESSAGE
  {
    if b :| b in buttons && b.action == NODE {
      var i :| 0 <= i < |buttons| && buttons[i] == b;
    }
    if b :| b in buttons && b.action != MESSAGE {
      var i :| 0 <= i < |buttons| && buttons[i] == b;
    }
  }

  lemma ReadsOnce(o: Output, whole: string)
    requires o.Carousel? && CarouselReads(o, whole)
    ensures whole == Lines(TextLine(o.heading) + CardLines(o.cards, 0), "\n")
  {
    hide Lines, CardReads, CardLines;
    var lines, blocks :| CardsRead(o.cards, 0, lines, blocks) && whole == Lines(Heading(o.heading) + lines, "\n");
    var others := CardLinesRead(o.cards, 0);
    SameBlocks(o.cards, blocks, others);
    HeadingText(o.heading);
  }

  lemma SameBlocks(cards: seq<Card>, a: seq<seq<string>>, b: seq<seq<string>>)
    requires |a| == |b| == |cards| && forall i :: 0 <= i < |cards| ==> CardReads(cards[i], 0 + i, a[i]) && CardReads(cards[i], 0 + i, b[i])
    ensures a == b
  {
    forall i | 0 <= i < |cards| ensures a[i] == b[i] {
      ReadOneWay(cards[i], i, a[i], b[i]);
    }
  }

  lemma ReadOneWay(card: Card, i: nat, a: seq<string>, b: seq<string>)
    requires CardReads(card, i, a) && CardReads(card, i, b)
    ensures a == b
  {
    hide Filter, Map, ButtonLine, Decimal;
    assert a == [a[0]] + a[1..] && b == [b[0]] + b[1..];
  }

  lemma CarouselTextTold(p: Profile, o: Output, index: nat, c: Change)
    requires o.Carousel? && Shape.CAROUSEL !in p.types && Shape.CARD !in p.types
    ensures c in CarouselAsText(o.heading, o.cards, index).changes <==> c.outputIndex == index && CarouselTells(p, o, c.kind, c.detail)
  {
    hide Lines, CardLines, Truncate, CarouselReads, AnyButton, LeadsOn;
    var whole := Lines(TextLine(o.heading) + CardLines(o.cards, 0), "\n");
    assert CarouselReads(o, whole) by { ItReads(o); }
    forall other | CarouselReads(o, other) ensures other == whole {
      ReadsOnce(o, other);
    }
    forall i | 0 <= i < |o.cards| ensures AnyButton(o.cards[i].buttons.GetOr([]), {NODE}) <==> LeadsOn(o.cards[i].buttons.GetOr([])) {
      AnyButtonLeadsOn(o.cards[i].buttons.GetOr([]));
    }
    assert forall i :: 0 <= i < |o.cards| ==> o.cards[i] in o.cards;
  }

  lemma ItReads(o: Output)
    requires o.Carousel?
    ensures CarouselReads(o, Lines(TextLine(o.heading) + CardLines(o.cards, 0), "\n"))
  {
    hide Lines, CardLines, CardsRead;
    var blocks := CardLinesRead(o.cards, 0);
    HeadingText(o.heading);
  }

  lemma CarouselTold(p: Profile, o: Output, index: nat, c: Change)
    requires o.Carousel?
    ensures c in DegradeCarousel(p, o, index).changes <==> c.outputIndex == index && CarouselTells(p, o, c.kind, c.detail)
  {
    hide ProcessCards, CardTells, CarouselAsText, CarouselReads, AsOutputs;
    if Shape.CAROUSEL in p.types {
      var fewer := if |o.cards| > p.carouselMaxCards then o.cards[..p.carouselMaxCards] else o.cards;
      ProcessedCardsMean(p, fewer, p.carouselCardMaxButtons, index, c);
      FirstCards(p, o.cards, fewer, c);
    } else if Shape.CARD in p.types {
      ProcessedCardsMean(p, o.cards, p.cardMaxButtons, index, c);
    } else {
      CarouselTextTold(p, o, index, c);
    }
  }

  lemma FirstCards(p: Profile, cards: seq<Card>, fewer: seq<Card>, c: Change)
    requires fewer == if |cards| > p.carouselMaxCards then cards[..p.carouselMaxCards] else cards
    ensures (exists card :: card in fewer && CardTells(p, card, p.carouselCardMaxButtons, c.kind, c.detail))
       <==> exists i :: 0 <= i < |cards| && i < p.carouselMaxCards && CardTells(p, cards[i], p.carouselCardMaxButtons, c.kind, c.detail)
  {
    hide CardTells;
    if card :| card in fewer && CardTells(p, card, p.carouselCardMaxButtons, c.kind, c.detail) {
      var i :| 0 <= i < |fewer| && fewer[i] == card;
      assert cards[i] == card;
    }
    if i :| 0 <= i < |cards| && i < p.carouselMaxCards && CardTells(p, cards[i], p.carouselCardMaxButtons, c.kind, c.detail) {
      assert fewer[i] == cards[i];
    }
  }

  lemma {:induction false} NoCaptions(buttons: seq<Button>)
    ensures MessageLabels(buttons) == [] <==> forall b :: b in buttons ==> b.action != MESSAGE
  {
    if buttons != [] {
      NoCaptions(buttons[1..]);
      assert forall b :: b in buttons <==> b == buttons[0] || b in buttons[1..];
    }
  }

  lemma QuickReplyTold(p: Profile, o: Output, index: nat, c: Change)
    requires o.Buttons?
    ensures c in DegradeQuickReply(p, o, index).changes <==> c.outputIndex == index && QuickReplyTells(p, o, c.kind, c.detail)
  {
    hide ProcessButtons, ButtonsTell, Lines, MessageLabels, AnyButton, LeadsOn;
    ProcessedTells(p, o.buttons, Some(p.quickReplyMax), index, c);
    ProcessedTells(p, o.buttons, None, index, c);
    NoCaptions(o.buttons);
    AnyButtonLeadsOn(o.buttons);
  }

  lemma {:induction false} NoneAllowed(buttons: seq<Button>, actions: set<Action>)
    ensures Allowed(buttons, actions) == [] <==> forall b :: b in buttons ==> b.action !in actions
  {
    if buttons != [] {
      NoneAllowed(buttons[1..], actions);
      assert forall b :: b in buttons <==> b == buttons[0] || b in buttons[1..];
    }
  }

  lemma NoneLeft(p: Profile, buttons: seq<Button>, index: nat)
    ensures var r := ProcessButtons(p, buttons, None, index);
      r.changes != [] && r.value == [] <==> buttons != [] && forall b :: b in buttons ==> b.action !in p.actions
  {
    hide Allowed, Relabeled;
    NoneAllowed(buttons, p.actions);
    if buttons == [] {
      NoButtonsSilent(p, index);
    } else {
      assert buttons[0] in buttons;
      LostTold(buttons, p.actions, index, Change(index, ACTION_LOST, Of(ActionName(buttons[0].action))));
    }
  }

  lemma ButtonTold(p: Profile, o: Output, index: nat, c: Change)
    requires o.Buttons?
    ensures c in DegradeButton(p, o, index).changes <==> c.outputIndex == index && ButtonTells(p, o, c.kind, c.detail)
  {
    hide ProcessButtons, ButtonsTell;
    ProcessedTells(p, o.buttons, None, index, c);
    NoneLeft(p, o.buttons, index);
  }

  lemma CardTold(p: Profile, o: Output, index: nat, c: Change)
    requires o.CardOut?
    ensures c in DegradeCard(p, o, index).changes <==> c.outputIndex == index && Tells(p, o, c.kind, c.detail)
  {
    hide ProcessCard, CardTells, AnyButton;
    ProcessedCardMeans(p, o.card, p.cardMaxButtons, index, c);
    AnyButtonLeadsOn(o.card.buttons.GetOr([]));
  }

  lemma OneTells(p: Profile, o: Output, index: nat, c: Change)
    ensures c in DegradeOne(p, o, index).changes <==> c.outputIndex == index && Tells(p, o, c.kind, c.detail)
  {
    hide DegradeCarousel, CarouselTells, DegradeQuickReply, QuickReplyTells, DegradeButton, ButtonTells, DegradeCard;
    match o {
      case Carousel(_, _) => CarouselTold(p, o, index, c);
      case Buttons(_, _, quickReply) =>
        if quickReply {
          QuickReplyTold(p, o, index, c);
        } else {
          ButtonTold(p, o, index, c);
        }
      case CardOut(card) => CardTold(p, o, index, c);
      case _ =>
    }
  }

  /** `c` is reported of the output it names. */
  ghost predicate Happens(p: Profile, outputs: seq<Output>, c: Change)
  {
    c.outputIndex < |outputs| && Tells(p, outputs[c.outputIndex], c.kind, c.detail)
  }

  lemma {:induction false} FromHappens(p: Profile, outputs: seq<Output>, index: nat, c: Change)
    ensures c in DegradeFrom(p, outputs, index).changes
       <==> index <= c.outputIndex < index + |outputs| && Tells(p, outputs[c.outputIndex - index], c.kind, c.detail)
    decreases |outputs|
  {
    hide DegradeOne, Tells;
    if outputs != [] {
      OneTells(p, outputs[0], index, c);
      FromHappens(p, outputs[1..], index + 1, c);
      if c.outputIndex > index && c.outputIndex < index + |outputs| {
        assert outputs[1..][c.outputIndex - index - 1] == outputs[c.outputIndex - index];
      }
    }
  }

  lemma {:induction false} ReportedHas(changes: seq<Change>, more: seq<Change>, c: Change)
    ensures c in Reported(changes, more) <==> c in changes || c in more
    decreases |more|
  {
    if more != [] {
      ReportedHas(Added(changes, more[0]), more[1..], c);
    }
  }

  /** A change is reported exactly when it happens. */
  lemma ReportedHappens(p: Profile, outputs: seq<Output>)
    ensures forall c :: c in Reported([], DegradeFrom(p, outputs, 0).changes) <==> Happens(p, outputs, c)
  {
    hide DegradeFrom, Reported, Tells;
    forall c ensures c in Reported([], DegradeFrom(p, outputs, 0).changes) <==> Happens(p, outputs, c) {
      ReportedHas([], DegradeFrom(p, outputs, 0).changes, c);
      FromHappens(p, outputs, 0, c);
    }
  }

  /** `degradeForProfile`. */
  method DegradeForProfile(p: Profile, outputs: seq<Output>) returns (result: seq<Output>, report: Report)
    ensures fresh(report) && report.Valid()
    ensures result == DegradeFrom(p, outputs, 0).value
    ensures report.changes == Reported([], DegradeFrom(p, outputs, 0).changes)
    ensures Fitted(p, outputs, result)
    ensures Distinct(report.changes) && forall c :: c in report.changes <==> Happens(p, outputs, c)
  {
    hide DegradeOne, Reported, Added;
    report := new Report();
    result := [];
    assert outputs[0..] == outputs;
    for i := 0 to |outputs|
      invariant report.Valid() && fresh(report)
      invariant result + DegradeFrom(p, outputs[i..], i).value == DegradeFrom(p, outputs, 0).value
      invariant Reported(report.changes, DegradeFrom(p, outputs[i..], i).changes) == Reported([], DegradeFrom(p, outputs, 0).changes)
    {
      assert outputs[i..][0] == outputs[i] && outputs[i..][1..] == outputs[i + 1..];
      var r := DegradeOne(p, outputs[i], i);
      ReportedJoin(report.changes, r.changes, DegradeFrom(p, outputs[i + 1..], i + 1).changes);
      report.PushAll(r.changes);
      result := result + r.value;
    }
    assert outputs[|outputs|..] == [];
    ReportedEnd(report.changes);
    hide DegradeFrom, Fitted, Happens;
    ResultIsFitted(p, outputs);
    ReportedHappens(p, outputs);
  }
}
