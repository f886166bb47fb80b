/** Fitting outputs into what a channel can show (packages/shared-types/src/rich-degrade.ts). */
module Degrade {
  import opened Prelude
  import opened Texts
  import opened Dialogue

  datatype Shape = TEXT | CARD | IMAGE | BUTTON | LINK | PAUSE | PHONE_CALL | CAROUSEL

  /** `ChannelOutputProfile`; the last three numbers are its text limits. */
  datatype Profile = Profile(types: set<Shape>, carouselMaxCards: nat, carouselCardMaxButtons: nat, cardMaxButtons: nat,
                             quickReply: bool, quickReplyMax: nat, actions: set<Action>, image: bool,
                             title: nat, description: nat, caption: nat)

  datatype ChangeKind =
    | CAROUSEL_TO_CARDS | CAROUSEL_TO_TEXT | CARDS_TRUNCATED | BUTTONS_TRUNCATED | QUICK_REPLY_TO_BUTTON | BUTTON_TO_TEXT
    | OUTPUT_TO_TEXT | OUTPUT_REMOVED | IMAGE_REMOVED | TEXT_TRUNCATED | ACTION_LOST

  datatype Detail = NoDetail | Ratio(before: nat, after: nat) | Of(name: string)

  datatype Change = Change(outputIndex: nat, kind: ChangeKind, detail: Detail)

  /** A value together with the changes reported while it was made, in order. */
  datatype Step<T> = Step(value: T, changes: seq<Change>)

  const TEXT_MAX := 1000
  const PREVIEW_MAX := 50

  // ---------------------------------------------------------------- texts

  /** `truncateChars`; a text is cut only when it is longer than `max`. */
  function Truncate(s: string, max: nat): (r: string)
    ensures max >= 1 ==> |r| <= max
    ensures |r| <= |s| || |s| == 0
    ensures s != [] ==> r != []
  {
    if |s| <= max then s else s[..Max(0, max - 1)] + "…"
  }

  function CutChange(s: string, max: nat, index: nat, name: string): seq<Change>
  {
    if |s| <= max then [] else [Change(index, TEXT_TRUNCATED, Of(name))]
  }

  function Lines(lines: seq<string>, separator: string): string
  {
    if lines == [] then "" else if |lines| == 1 then lines[0] else lines[0] + separator + Lines(lines[1..], separator)
  }

  // ---------------------------------------------------------------- buttons

  function ActionName(a: Action): string
  {
    match a
    case MESSAGE => "MESSAGE"
    case LINK => "LINK"
    case NODE => "NODE"
  }

  function Allowed(buttons: seq<Button>, actions: set<Action>): (r: seq<Button>)
    ensures |r| <= |buttons|
  {
    if buttons == [] then []
    else (if buttons[0].action in actions then [buttons[0]] else []) + Allowed(buttons[1..], actions)
  }

  function LostActions(buttons: seq<Button>, actions: set<Action>, index: nat): seq<Change>
  {
    if buttons == [] then []
    else
      (if buttons[0].action in actions then [] else [Change(index, ACTION_LOST, Of(ActionName(buttons[0].action)))])
      + LostActions(buttons[1..], actions, index)
  }

  function Relabeled(buttons: seq<Button>, limit: nat): (r: seq<Button>)
    ensures |r| == |buttons|
  {
    if buttons == [] then []
    else [buttons[0].(caption := Truncate(buttons[0].caption, limit))] + Relabeled(buttons[1..], limit)
  }

  function CutLabels(buttons: seq<Button>, limit: nat, index: nat): seq<Change>
  {
    if buttons == [] then [] else CutChange(buttons[0].caption, limit, index, "buttonLabel") + CutLabels(buttons[1..], limit, index)
  }

  function Working(buttons: seq<Button>, maxButtons: Option<nat>): seq<Button>
  {
    if maxButtons.Some? && |buttons| > maxButtons.value then buttons[..maxButtons.value] else buttons
  }

  function Shortened(buttons: seq<Button>, maxButtons: Option<nat>, index: nat): seq<Change>
  {
    if maxButtons.Some? && |buttons| > maxButtons.value
    then [Change(index, BUTTONS_TRUNCATED, Ratio(|buttons|, maxButtons.value))] else []
  }

  /** `processButtons`. */
  function ProcessButtons(p: Profile, buttons: seq<Button>, maxButtons: Option<nat>, index: nat): Step<seq<Button>>
  {
    var working := Working(buttons, maxButtons);
    var filtered := Allowed(working, p.actions);
    Step(Relabeled(filtered, p.caption),
         Shortened(buttons, maxButtons, index) + LostActions(working, p.actions, index) + CutLabels(filtered, p.caption, index))
  }

  // ---------------------------------------------------------------- cards

  function CardButtons(p: Profile, card: Card, maxButtons: nat, index: nat): Step<Option<seq<Button>>>
  {
    if card.buttons.None? || card.buttons.value == [] then Step(card.buttons, [])
    else
      var r := ProcessButtons(p, card.buttons.value, Some(maxButtons), index);
      if r.changes == [] then Step(card.buttons, [])
      else Step(if r.value == [] then None else Some(r.value), r.changes)
  }

  predicate HasImage(card: Card) { card.imageUrl.Some? && card.imageUrl.value != [] }

  function ImageText(card: Card): string { "[이미지: " + card.altText.GetOr("") + "] " + card.description.GetOr("") }

  /** The card without its image when the channel shows none. */
  function WithoutImage(p: Profile, card: Card, index: nat): Step<Card>
  {
    if HasImage(card) && !p.image
    then Step(card.(description := Some(ImageText(card)), imageUrl := None, altText := None), [Change(index, IMAGE_REMOVED, NoDetail)])
    else Step(card, [])
  }

  function CutDescription(p: Profile, description: Option<string>, index: nat): Step<Option<string>>
  {
    if description.None? then Step(None, [])
    else Step(Some(Truncate(description.value, p.description)), CutChange(description.value, p.description, index, "description"))
  }

  /** `processCardLike`. */
  function ProcessCard(p: Profile, card: Card, maxButtons: nat, index: nat): Step<Card>
  {
    var buttons := CardButtons(p, card, maxButtons, index);
    var plain := WithoutImage(p, card, index);
    var description := CutDescription(p, plain.value.description, index);
    Step(plain.value.(title := Truncate(card.title, p.title), description := description.value, buttons := buttons.value),
         buttons.changes + plain.changes + CutChange(card.title, p.title, index, "title") + description.changes)
  }

  function ProcessCards(p: Profile, cards: seq<Card>, maxButtons: nat, index: nat): (r: Step<seq<Card>>)
    ensures |r.value| == |cards|
  {
    if cards == [] then Step([], [])
    else
      var first := ProcessCard(p, cards[0], maxButtons, index);
      var rest := ProcessCards(p, cards[1..], maxButtons, index);
      Step([first.value] + rest.value, first.changes + rest.changes)
  }

  function AsOutputs(cards: seq<Card>): (r: seq<Output>)
    ensures |r| == |cards| && forall i :: 0 <= i < |cards| ==> r[i] == CardOut(cards[i])
  {
    if cards == [] then [] else [CardOut(cards[0])] + AsOutputs(cards[1..])
  }

  // ---------------------------------------------------------------- the ladders

  function ButtonLines(buttons: seq<Button>): seq<string>
  {
    if buttons == [] then []
    else
      var b := buttons[0];
      (match b.action
       case LINK => ["   " + b.caption + ": " + b.value]
       case MESSAGE => ["   · " + b.caption]
       case NODE => []) + ButtonLines(buttons[1..])
  }

  function CardLines(cards: seq<Card>, i: nat): seq<string>
  {
    if cards == [] then []
    else
      var c := cards[0];
      var preview := if c.description.Some? then " — " + Truncate(c.description.value, PREVIEW_MAX) else "";
      [Decimal(i + 1) + ") " + c.title + preview] + ButtonLines(c.buttons.GetOr([])) + CardLines(cards[1..], i + 1)
  }

  predicate AnyButton(buttons: seq<Button>, actions: set<Action>)
  {
    exists i :: 0 <= i < |buttons| && buttons[i].action in actions
  }

  function TextLine(text: Option<string>): seq<string> { if text.GetOr("") == "" then [] else [text.value] }

  function CarouselAsText(heading: Option<string>, cards: seq<Card>, index: nat): Step<seq<Output>>
  {
    var text := Lines(TextLine(heading) + CardLines(cards, 0), "\n");
    Step([Text(Truncate(text, TEXT_MAX))],
         [Change(index, CAROUSEL_TO_TEXT, NoDetail)]
         + (if exists i :: 0 <= i < |cards| && HasImage(cards[i]) then [Change(index, IMAGE_REMOVED, NoDetail)] else [])
         + (if exists i :: 0 <= i < |cards| && AnyButton(cards[i].buttons.GetOr([]), {NODE})
            then [Change(index, ACTION_LOST, Of("NODE"))] else [])
         + (if |text| > TEXT_MAX then [Change(index, TEXT_TRUNCATED, NoDetail)] else []))
  }

  /** `degradeCarousel`. */
  function DegradeCarousel(p: Profile, o: Output, index: nat): Step<seq<Output>>
    requires o.Carousel?
  {
    if Shape.CAROUSEL in p.types then
      var fewer := if |o.cards| > p.carouselMaxCards then o.cards[..p.carouselMaxCards] else o.cards;
      var cut := if |o.cards| > p.carouselMaxCards
                 then [Change(index, CARDS_TRUNCATED, Ratio(|o.cards|, p.carouselMaxCards))] else [];
      var r := ProcessCards(p, fewer, p.carouselCardMaxButtons, index);
      Step([Carousel(o.heading, r.value)], cut + r.changes)
    else if Shape.CARD in p.types then
      var r := ProcessCards(p, o.cards, p.cardMaxButtons, index);
      Step((if o.heading.GetOr("") == "" then [] else [Text(o.heading.value)]) + AsOutputs(r.value),
           [Change(index, CAROUSEL_TO_CARDS, Ratio(|o.cards|, |o.cards|))] + r.changes)
    else
      CarouselAsText(o.heading, o.cards, index)
  }

  function MessageLabels(buttons: seq<Button>): seq<string>
  {
    if buttons == [] then []
    else (if buttons[0].action == MESSAGE then [buttons[0].caption] else []) + MessageLabels(buttons[1..])
  }

  function QuickReplyAsText(o: Output, index: nat): Step<seq<Output>>
    requires o.Buttons?
  {
    var labels := MessageLabels(o.buttons);
    var lines := TextLine(o.prompt) + if labels == [] then [] else ["다음 중 입력해 주세요: " + Lines(labels, " / ")];
    var lost := [Change(index, BUTTON_TO_TEXT, NoDetail)]
      + if AnyButton(o.buttons, {NODE}) then [Change(index, ACTION_LOST, Of("NODE"))] else [];
    if lines == [] then Step([], lost + [Change(index, OUTPUT_REMOVED, NoDetail)])
    else Step([Text(Lines(lines, "\n"))], lost)
  }

  /** `degradeQuickReplyButton`. */
  function DegradeQuickReply(p: Profile, o: Output, index: nat): Step<seq<Output>>
    requires o.Buttons?
  {
    if p.quickReply then
      var r := ProcessButtons(p, o.buttons, Some(p.quickReplyMax), index);
      Step([o.(buttons := r.value)], r.changes)
    else if Shape.BUTTON in p.types then
      var r := ProcessButtons(p, o.buttons, None, index);
      Step([o.(buttons := r.value, quickReply := false)], [Change(index, QUICK_REPLY_TO_BUTTON, NoDetail)] + r.changes)
    else
      QuickReplyAsText(o, index)
  }

  /** `degradeButton`. */
  function DegradeButton(p: Profile, o: Output, index: nat): Step<seq<Output>>
    requires o.Buttons?
  {
    if Shape.BUTTON in p.types then
      var r := ProcessButtons(p, o.buttons, None, index);
      if r.changes == [] then Step([o], [])
      else if r.value == [] then
        var changes := r.changes + [Change(index, BUTTON_TO_TEXT, NoDetail)];
        if o.prompt.GetOr("") != "" then Step([Text(o.prompt.value)], changes)
        else Step([], changes + [Change(index, OUTPUT_REMOVED, NoDetail)])
      else Step([o.(buttons := r.value)], r.changes)
    else
      Step([Text(if o.prompt.GetOr("") != "" then "[버튼] " + o.prompt.value else "[버튼]")],
           [Change(index, BUTTON_TO_TEXT, NoDetail), Change(index, ACTION_LOST, Of("BUTTONS"))])
  }

  /** `degradeCard`. */
  function DegradeCard(p: Profile, o: Output, index: nat): Step<seq<Output>>
    requires o.CardOut?
  {
    if Shape.CARD in p.types then
      var r := ProcessCard(p, o.card, p.cardMaxButtons, index);
      Step([CardOut(r.value)], r.changes)
    else
      Step([Text("[카드] " + o.card.title)],
           [Change(index, OUTPUT_TO_TEXT, Of("CARD"))]
           + (if HasImage(o.card) then [Change(index, IMAGE_REMOVED, NoDetail)] else [])
           + if AnyButton(o.card.buttons.GetOr([]), {Action.LINK, NODE}) then [Change(index, ACTION_LOST, NoDetail)] else [])
  }

  function ToText(text: string, index: nat, name: string, second: Change): Step<seq<Output>>
  {
    Step([Text(text)], [Change(index, OUTPUT_TO_TEXT, Of(name)), second])
  }

  /** `degradeOne`. */
  function DegradeOne(p: Profile, o: Output, index: nat): Step<seq<Output>>
  {
    match o
    case Text(_) => Step([o], [])
    case Carousel(_, _) => DegradeCarousel(p, o, index)
    case Buttons(_, _, quickReply) => if quickReply then DegradeQuickReply(p, o, index) else DegradeButton(p, o, index)
    case CardOut(_) => DegradeCard(p, o, index)
    case Image(_, altText) =>
      if Shape.IMAGE in p.types then Step([o], [])
      else ToText("[이미지] " + altText, index, "IMAGE", Change(index, IMAGE_REMOVED, NoDetail))
    case Link(caption, url, newTab) =>
      if Shape.LINK in p.types then
        Step([Link(Truncate(caption, p.caption), url, newTab)], CutChange(caption, p.caption, index, "buttonLabel"))
      else ToText("[링크] " + caption, index, "LINK", Change(index, ACTION_LOST, Of("LINK")))
    case PhoneCall(caption, _) =>
      if Shape.PHONE_CALL in p.types then Step([o], [])
      else ToText("[전화] " + caption, index, "PHONE_CALL", Change(index, ACTION_LOST, Of("PHONE")))
    case Pause(_) =>
      if Shape.PAUSE in p.types then Step([o], []) else Step([], [Change(index, OUTPUT_REMOVED, NoDetail)])
    case _ => Step([Text("[지원하지 않는 응답]")], [Change(index, OUTPUT_TO_TEXT, NoDetail)])
  }

  /** `degradeForProfile`, from output number `index` on. */
  function DegradeFrom(p: Profile, outputs: seq<Output>, index: nat): Step<seq<Output>>
  {
    if outputs == [] then Step([], [])
    else
      var first := DegradeOne(p, outputs[0], index);
      var rest := DegradeFrom(p, outputs[1..], index + 1);
      Step(first.value + rest.value, first.changes + rest.changes)
  }

  // ---------------------------------------------------------------- the report

  function Added(changes: seq<Change>, c: Change): seq<Change> { if c in changes then changes else changes + [c] }

  function Reported(changes: seq<Change>, more: seq<Change>): seq<Change>
    decreases |more|
  {
    if more == [] then changes else Reported(Added(changes, more[0]), more[1..])
  }

  lemma {:induction false} ReportedNothing(changes: seq<Change>, more: seq<Change>)
    ensures |Reported(changes, more)| >= |changes|
    ensures Reported([], more) == [] <==> more == []
    decreases |more|
  {
    if more != [] {
      ReportedNothing(Added(changes, more[0]), more[1..]);
      ReportedNothing(Added([], more[0]), more[1..]);
    }
  }

  /** `changes` and `seen`. */
  class Report {
    var changes: seq<Change>
    var seen: set<Change>

    ghost predicate Valid()
      reads this
    {
      Distinct(changes) && forall c :: c in seen <==> c in changes
    }

    constructor ()
      ensures Valid() && changes == []
    {
      changes, seen := [], {};
    }

    /** `pushChange`. */
    method Push(c: Change)
      requires Valid()
      modifies this
      ensures Valid() && changes == Added(old(changes), c)
    {
      if c in seen {
        return;
      }
      seen := seen + {c};
      changes := changes + [c];
    }

    method PushAll(more: seq<Change>)
      requires Valid()
      modifies this
      ensures Valid() && changes == Reported(old(changes), more)
    {
      assert more[0..] == more;
      for i := 0 to |more|
        invariant Valid() && Reported(changes, more[i..]) == Reported(old(changes), more)
      {
        assert more[i..][0] == more[i] && more[i..][1..] == more[i + 1..];
        Push(more[i]);
      }
      assert more[|more|..] == [];
    }
  }

  lemma ReportedEnd(changes: seq<Change>)
    ensures Reported(changes, []) == changes
  {
  }

  lemma {:induction false} ReportedJoin(changes: seq<Change>, x: seq<Change>, y: seq<Change>)
    ensures Reported(changes, x + y) == Reported(Reported(changes, x), y)
    decreases |x|
  {
    hide Added;
    if x == [] {
      assert x + y == y;
    } else {
      assert (x + y)[1..] == x[1..] + y;
      ReportedJoin(Added(changes, x[0]), x[1..], y);
    }
  }
}
