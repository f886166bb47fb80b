/** The default masking path (`maskPii`, packages/pii-mask/src/index.ts). */
module PiiMask {
  import opened Prelude
  import opened Texts
  import opened Regex
  import opened EmailScan
  import opened MaskRules
  import opened MarkFacts
  import opened MaskMeaning
  import opened ChunkFacts

  class Tally {
    var rrn: int
    var card: int
    var account: int
    var phone: int
    var email: int

    constructor ()
      ensures rrn == 0 && card == 0 && account == 0 && phone == 0 && email == 0
    {
      rrn, card, account, phone, email := 0, 0, 0, 0, 0;
    }
  }

  // ---------------------------------------------------------------- the passes as functions

  predicate HasMarkRange(s: string) { exists k :: 0 <= k < |s| && '\U{E200}' <= s[k] <= '\U{E2FF}' }

  function Constantly(text: string): Span -> string { (m: Span) => text }

  function PhoneText(s: string, full: bool): Span -> string
  {
    (m: Span) => if full then TEXT_PHONE else MaskPhone(Cut(s, m))
  }

  /** A standalone date that no birth-date wording precedes is left as it is. */
  predicate KeepsDate(s: string, m: Span, preserveDates: bool, birth: (string, nat) -> bool)
  {
    preserveDates && IsStandaloneDate(s, m) && !birth(s, m.from)
  }

  function AccountText(s: string, preserveDates: bool, birth: (string, nat) -> bool): Span -> string
  {
    (m: Span) => if KeepsDate(s, m, preserveDates, birth) then Cut(s, m) else TEXT_ACCOUNT
  }

  function EmailText(full: bool): string -> string { (m: string) => if full then TEXT_EMAIL else MaskEmail(m) }

  function RrnPass(s: string, marks: bool): string
  {
    Widths();
    ReplaceAll(Rrn(), s, Constantly(if marks then [MARK_RRN] else TEXT_RRN))
  }

  function CardPass(s: string, marks: bool): string
  {
    Widths();
    ReplaceAll(Card(), s, Constantly(if marks then [MARK_CARD] else TEXT_CARD))
  }

  function PhonePass(s: string, full: bool): string
  {
    MoreWidths();
    ReplaceAll(Phone(), s, PhoneText(s, full))
  }

  function AccountPass(s: string, preserveDates: bool, birth: (string, nat) -> bool): string
  {
    Widths();
    ReplaceAll(Account(), s, AccountText(s, preserveDates, birth))
  }

  function EmailPass(s: string, full: bool): string
  {
    EmailIsWide();
    ReplaceAll(Email(), s, Replacing(s, EmailText(full)))
  }

  function FivePasses(s: string, marks: bool, full: bool, preserveDates: bool, birth: (string, nat) -> bool): string
  {
    EmailPass(AccountPass(PhonePass(CardPass(RrnPass(s, marks), marks), full), preserveDates, birth), full)
  }

  predicate HasDigit(s: string) { exists k :: 0 <= k < |s| && IsDigit(s[k]) }

  function ChunkText(s: string): Span -> string
  {
    (m: Span) => if HasDigit(Cut(s, m)) then [MARK_CARD] else Cut(s, m)
  }

  function ChunkPass(s: string): string
  {
    MoreWidths();
    ReplaceAll(Chunk(), s, ChunkText(s))
  }

  function LongPass(s: string): string
  {
    Widths();
    ReplaceAll(Long(), s, CardMark())
  }

  function AmexPass(s: string): string
  {
    Widths();
    ReplaceAll(Amex(), s, CardMark())
  }

  function Reinforced(s: string): string { AmexPass(LongPass(ChunkPass(s))) }

  function MarkText(s: string): Span -> string
  {
    (m: Span) => if Cut(s, m) == [MARK_RRN] then TEXT_RRN else TEXT_CARD
  }

  /** `resolveMarks`. */
  function Spelled(s: string): string { ReplaceAll(One(IsMark), s, MarkText(s)) }

  // ---------------------------------------------------------------- the first five passes and the counts

  /** Characters outside the private range that marks and placeholders come from. */
  predicate IsPlain(c: char) { c < '\U{E000}' || '\U{E2FF}' < c }

  lemma NumbersArePlain()
    ensures Only(Rrn(), IsPlain) && Only(Card(), IsPlain) && Only(Account(), IsPlain)
    ensures !IsPlain(MARK_RRN) && !IsPlain(MARK_CARD)
  {
  }

  lemma PhonesArePlain()
    ensures Only(Phone(), IsPlain)
  {
    assert Only(Mobile(), IsPlain) && Only(Landline(), IsPlain);
  }

  lemma EmailsArePlain()
    ensures Only(Email(), IsPlain)
  {
  }

  lemma CountText(c: char, mark: char)
    requires !IsPlain(c)
    ensures CountOf([mark], c) == if c == mark then 1 else 0
    ensures c !in TEXT_PHONE && c !in TEXT_ACCOUNT && c !in TEXT_EMAIL
  {
    assert [mark][1..] == [];
  }

  lemma PhoneKeepsMarks(value: string, c: char)
    requires !IsPlain(c) && c !in value
    ensures c !in MaskPhone(value)
  {
  }

  lemma EmailKeepsMarks(value: string, c: char)
    requires !IsPlain(c) && c !in value
    ensures c !in MaskEmail(value)
  {
  }

  lemma RrnMarks(s: string, c: char)
    requires !IsPlain(c)
    ensures Width(Rrn()) > 0
    ensures CountOf(RrnPass(s, true), c) == CountOf(s, c) + if c == MARK_RRN then |Matches(Rrn(), s, 0)| else 0
  {
    hide Rrn, ReplaceAll, Matches, Only, CountOf;
    Widths();
    NumbersArePlain();
    CountText(c, MARK_RRN);
    CountPass(Rrn(), IsPlain, s, Constantly([MARK_RRN]), c, if c == MARK_RRN then 1 else 0);
  }

  lemma CardMarks(s: string, c: char)
    requires !IsPlain(c)
    ensures Width(Card()) > 0
    ensures CountOf(CardPass(s, true), c) == CountOf(s, c) + if c == MARK_CARD then |Matches(Card(), s, 0)| else 0
  {
    hide Card, ReplaceAll, Matches, Only, CountOf;
    Widths();
    NumbersArePlain();
    CountText(c, MARK_CARD);
    CountPass(Card(), IsPlain, s, Constantly([MARK_CARD]), c, if c == MARK_CARD then 1 else 0);
  }

  lemma PhoneMarks(s: string, full: bool, c: char)
    requires !IsPlain(c)
    ensures CountOf(PhonePass(s, full), c) == CountOf(s, c)
  {
    hide Phone, ReplaceAll, Matches, Only, CountOf, Cut, MaskPhone;
    MoreWidths();
    NumbersArePlain();
    PhonesArePlain();
    var f := PhoneText(s, full);
    forall m: Span | c !in Cut(s, m) ensures CountOf(f(m), c) == 0 {
      CountText(c, c);
      PhoneKeepsMarks(Cut(s, m), c);
      CountNone(f(m), c);
    }
    CountPass(Phone(), IsPlain, s, f, c, 0);
  }

  lemma AccountMarks(s: string, preserveDates: bool, birth: (string, nat) -> bool, c: char)
    requires !IsPlain(c)
    ensures CountOf(AccountPass(s, preserveDates, birth), c) == CountOf(s, c)
  {
    hide Account, ReplaceAll, Matches, Only, CountOf, Cut, KeepsDate;
    Widths();
    NumbersArePlain();
    var f := AccountText(s, preserveDates, birth);
    forall m: Span | c !in Cut(s, m) ensures CountOf(f(m), c) == 0 {
      CountText(c, c);
      CountNone(f(m), c);
    }
    CountPass(Account(), IsPlain, s, f, c, 0);
  }

  lemma EmailMarks(s: string, full: bool, c: char)
    requires !IsPlain(c)
    ensures CountOf(EmailPass(s, full), c) == CountOf(s, c)
  {
    hide Email, ReplaceAll, Matches, Only, CountOf, Cut, MaskEmail;
    EmailIsWide();
    NumbersArePlain();
    EmailsArePlain();
    var f := Replacing(s, EmailText(full));
    forall m: Span | c !in Cut(s, m) ensures CountOf(f(m), c) == 0 {
      CountText(c, c);
      EmailKeepsMarks(Cut(s, m), c);
      CountNone(f(m), c);
    }
    CountPass(Email(), IsPlain, s, f, c, 0);
  }

  // ---------------------------------------------------------------- what the chunk pass leaves

  lemma ChunkPiece(s: string, pos: nat, m: Span)
    requires pos <= |s| && (pos > 0 ==> Settled(s, pos)) && Search(Chunk(), s, pos) == Some(m) && Width(Chunk()) > 0
    ensures pos <= m.from < m.to <= |s| && Settled(s, m.to)
    ensures NoTouch(s[pos..m.from]) && EndsWell(s[pos..m.from]) && NoMarks(s[pos..m.from])
    ensures pos > 0 && pos < |s| ==> !IsDigit(s[pos])
  {
    hide Ends, Chunk, Link, IsDigit, IsMark;
    ChunkSettles(s, m.from);
    forall p | pos <= p < m.from ensures !IsMark(s[p]) {
      if IsMark(s[p]) {
        var q := MarkIsCovered(s, pos, p);
      }
    }
  }

  ghost predicate NoMarks(s: string) { forall k :: 0 <= k < |s| ==> !IsMark(s[k]) }

  lemma ChunkEnd(s: string, pos: nat)
    requires pos <= |s| && (pos > 0 ==> Settled(s, pos)) && Search(Chunk(), s, pos) == None
    ensures NoMarks(s[pos..]) && NoTouch(s[pos..])
  {
    hide Ends, Chunk, Link, IsDigit, IsMark;
    forall p | pos <= p < |s| ensures !IsMark(s[p]) {
      if IsMark(s[p]) {
        var q := MarkIsCovered(s, pos, p);
      }
    }
  }

  lemma ChunkTextIsClean(s: string, m: Span)
    requires m.from < m.to <= |s|
    ensures ChunkText(s)(m) != [] && NoDigits(ChunkText(s)(m)) && NoTouch(ChunkText(s)(m))
  {
    MarkIsMark();
  }

  /** Between pieces that end and begin without digits nothing touches. */
  lemma CleanPieces(gap: string, text: string, rest: string)
    requires NoTouch(gap) && EndsWell(gap) && NoMarks(gap)
    requires NoDigits(text) && NoTouch(text) && NoTouch(rest) && StartsWell(rest)
    ensures NoTouch(gap + text + rest)
    ensures gap == [] || !IsDigit(gap[0]) ==> StartsWell(gap + text + rest)
  {
    hide NoTouch, IsDigit, IsMark;
    NoTouchThree(gap, text, rest);
  }

  lemma {:induction false} ChunksKeepApart(s: string, pos: nat)
    requires pos <= |s| && (pos > 0 ==> Settled(s, pos)) && Width(Chunk()) > 0
    ensures Inside(Matches(Chunk(), s, pos), pos, |s|)
    ensures NoTouch(Splice(s, Matches(Chunk(), s, pos), pos, ChunkText(s)))
    ensures pos > 0 ==> StartsWell(Splice(s, Matches(Chunk(), s, pos), pos, ChunkText(s)))
    decreases |s| - pos
  {
    hide Matches, Splice, Search, Chunk, NoTouch, NoMarks, IsDigit, Link, Ends;
    MatchesStep(Chunk(), s, pos);
    MatchesInside(Chunk(), s, pos);
    var f := ChunkText(s);
    match Search(Chunk(), s, pos) {
      case None =>
        ChunkEnd(s, pos);
        SpliceNothing(s, pos, f);
      case Some(m) =>
        ChunkPiece(s, pos, m);
        ChunksKeepApart(s, m.to);
        ChunkTextIsClean(s, m);
        SpliceStep(s, m, Matches(Chunk(), s, m.to), pos, f);
        CleanPieces(s[pos..m.from], f(m), Splice(s, Matches(Chunk(), s, m.to), m.to, f));
    }
  }

  lemma ChunkPassKeepsApart(s: string)
    ensures NoTouch(ChunkPass(s))
  {
    hide Chunk, NoTouch, Splice, Matches;
    MoreWidths();
    Unfolded(Chunk(), s, ChunkText(s));
    ChunksKeepApart(s, 0);
  }

  // ---------------------------------------------------------------- long runs and AMEX groups

  lemma {:induction false} RunEndBeyond(s: string, q: nat, j: nat)
    requires q <= j <= |s| && forall k :: q <= k < j ==> IsDigit(s[k])
    ensures RunEnd(IsDigit, s, q) >= j
    decreases j - q
  {
    if q < j {
      RunEndBeyond(s, q + 1, j);
    }
  }

  /** A long run is found by the time the search has reached it. */
  lemma RunIsFound(s: string, pos: nat, i: nat) returns (q: nat)
    requires pos <= i && RunAt(s, i) && (pos > 0 ==> !IsDigit(s[pos]))
    ensures pos <= q <= i && Ends(Long(), s, q) != []
  {
    hide Ends, Long, IsDigit;
    assert IsDigit(s[i]);
    q := RunStart(s, pos, i);
    RunEndBeyond(s, q, i + 14);
    assert pos > 0 ==> q > pos;
    LongIsWholeRun(s, q);
  }

  lemma LongGap(s: string, pos: nat, to: nat)
    requires pos <= to <= |s| && (pos > 0 && pos < |s| ==> !IsDigit(s[pos]))
    requires forall q :: pos <= q < to ==> Ends(Long(), s, q) == []
    ensures !HasLongRun(s[pos..to])
  {
    hide Ends, Long, IsDigit, RunAt;
    forall i ensures !RunAt(s[pos..to], i) {
      if RunAt(s[pos..to], i) {
        RunFits(s, pos, to, i);
        var q := RunIsFound(s, pos, pos + i);
      }
    }
  }

  lemma RunFits(s: string, pos: nat, to: nat, i: int)
    requires pos <= to <= |s| && RunAt(s[pos..to], i)
    ensures 0 <= i && pos + i + 14 <= to && RunAt(s, pos + i)
  {
    RunInPiece(s, pos, to, i);
  }

  lemma {:induction false} LongSpans(s: string, pos: nat)
    requires pos <= |s| && (pos > 0 && pos < |s| ==> !IsDigit(s[pos])) && Width(Long()) > 0
    ensures Inside(Matches(Long(), s, pos), pos, |s|) && GapsFree(s, Matches(Long(), s, pos), pos)
    ensures forall k :: 0 <= k < |Matches(Long(), s, pos)| ==> Isolated(s, Matches(Long(), s, pos)[k])
    decreases |s| - pos
  {
    hide Matches, Search, Long, IsDigit, Ends, HasLongRun;
    MatchesStep(Long(), s, pos);
    MatchesInside(Long(), s, pos);
    match Search(Long(), s, pos) {
      case None =>
        LongGap(s, pos, |s|);
        assert s[pos..|s|] == s[pos..];
      case Some(m) =>
        LongGap(s, pos, m.from);
        LongIsWholeRun(s, m.from);
        LongSpans(s, m.to);
    }
  }

  lemma {:induction false} AmexSpans(s: string, pos: nat)
    requires pos <= |s| && Width(Amex()) > 0
    ensures forall k :: 0 <= k < |Matches(Amex(), s, pos)| ==> Isolated(s, Matches(Amex(), s, pos)[k])
    decreases |s| - pos
  {
    hide Matches, Search, Amex, IsDigit, Ends;
    MatchesStep(Amex(), s, pos);
    match Search(Amex(), s, pos) {
      case None =>
      case Some(m) =>
        AmexStandsAlone(s, m.from);
        AmexSpans(s, m.to);
    }
  }

  lemma CardMarkHasNoDigits()
    ensures forall m: Span :: NoDigits(CardMark()(m))
  {
  }

  lemma LongPassCleans(s: string)
    requires NoTouch(s)
    ensures NoTouch(LongPass(s)) && !HasLongRun(LongPass(s))
  {
    hide Long, NoTouch, Splice, Matches, HasLongRun, NoDigits, IsDigit;
    Widths();
    Unfolded(Long(), s, CardMark());
    LongSpans(s, 0);
    MarkingKeepsApart(s, Matches(Long(), s, 0), 0);
    CardMarkHasNoDigits();
    RunsOfSplice(s, Matches(Long(), s, 0), 0, CardMark());
  }

  lemma AmexPassCleans(s: string)
    requires NoTouch(s) && !HasLongRun(s)
    ensures NoTouch(AmexPass(s)) && !HasLongRun(AmexPass(s))
  {
    hide Amex, NoTouch, Splice, Matches, HasLongRun, NoDigits, IsDigit;
    Widths();
    Unfolded(Amex(), s, CardMark());
    AmexSpans(s, 0);
    MarkingKeepsApart(s, Matches(Amex(), s, 0), 0);
    CardMarkHasNoDigits();
    RunsOfReplaced(Amex(), s, CardMark());
  }

  /** After the reinforcement no digit touches a mark and no 14 digits stand in a row. */
  lemma ReinforcedIsClean(s: string)
    ensures NoTouch(Reinforced(s)) && !HasLongRun(Reinforced(s))
  {
    hide NoTouch, HasLongRun, ChunkPass, LongPass, AmexPass;
    ChunkPassKeepsApart(s);
    LongPassCleans(ChunkPass(s));
    AmexPassCleans(LongPass(ChunkPass(s)));
  }

  lemma MarkTextHasNoDigits(s: string)
    ensures forall m: Span :: NoDigits(MarkText(s)(m))
  {
    assert NoDigits(TEXT_RRN) && NoDigits(TEXT_CARD);
  }

  /** Spelling the marks out brings no digits together. */
  lemma SpelledIsClean(s: string)
    requires !HasLongRun(s)
    ensures !HasLongRun(Spelled(s))
  {
    hide HasLongRun, NoDigits;
    MarkTextHasNoDigits(s);
    RunsOfReplaced(One(IsMark), s, MarkText(s));
  }

  lemma LongArePlain()
    ensures Only(Long(), IsPlain)
  {
  }

  lemma AmexArePlain()
    ensures Only(Amex(), IsPlain)
  {
  }

  lemma LongMarks(s: string, c: char)
    requires !IsPlain(c)
    ensures Width(Long()) > 0
    ensures CountOf(LongPass(s), c) == CountOf(s, c) + if c == MARK_CARD then |Matches(Long(), s, 0)| else 0
  {
    hide Long, ReplaceAll, Matches, Only, CountOf;
    Widths();
    NumbersArePlain();
    LongArePlain();
    CountText(c, MARK_CARD);
    CountPass(Long(), IsPlain, s, CardMark(), c, if c == MARK_CARD then 1 else 0);
  }

  lemma AmexMarks(s: string, c: char)
    requires !IsPlain(c)
    ensures Width(Amex()) > 0
    ensures CountOf(AmexPass(s), c) == CountOf(s, c) + if c == MARK_CARD then |Matches(Amex(), s, 0)| else 0
  {
    hide Amex, ReplaceAll, Matches, Only, CountOf;
    Widths();
    NumbersArePlain();
    AmexArePlain();
    CountText(c, MARK_CARD);
    CountPass(Amex(), IsPlain, s, CardMark(), c, if c == MARK_CARD then 1 else 0);
  }

  // ---------------------------------------------------------------- the passes as they run

  /** The callback of the chunk expression: it takes back the counts of the marks it swallows. */
  method ReplaceChunk(chunk: string, counts: Tally) returns (text: string)
    modifies counts
    ensures text == if HasDigit(chunk) then [MARK_CARD] else chunk
    ensures counts.rrn == old(counts.rrn) + CountOf(text, MARK_RRN) - CountOf(chunk, MARK_RRN)
    ensures counts.card == old(counts.card) + CountOf(text, MARK_CARD) - CountOf(chunk, MARK_CARD)
    ensures counts.phone == old(counts.phone) && counts.account == old(counts.account) && counts.email == old(counts.email)
  {
    if !HasDigit(chunk) {
      return chunk;
    }
    var rrnMarks, cardMarks := 0, 0;
    for i := 0 to |chunk|
      invariant rrnMarks + CountOf(chunk[i..], MARK_RRN) == CountOf(chunk, MARK_RRN)
      invariant cardMarks + CountOf(chunk[i..], MARK_CARD) == CountOf(chunk, MARK_CARD)
    {
      assert chunk[i..][0] == chunk[i] && chunk[i..][1..] == chunk[i + 1..];
      if chunk[i] == MARK_RRN {
        rrnMarks := rrnMarks + 1;
      } else if chunk[i] == MARK_CARD {
        cardMarks := cardMarks + 1;
      }
    }
    CountText(MARK_RRN, MARK_CARD);
    CountText(MARK_CARD, MARK_CARD);
    counts.rrn := counts.rrn - rrnMarks;
    counts.card := counts.card + 1 - cardMarks;
    return [MARK_CARD];
  }

  /** What replacing one chunk does to the number of `c`. */
  function Delta(s: string, m: Span, c: char): int { CountOf(ChunkText(s)(m), c) - CountOf(Cut(s, m), c) }

  lemma NextChunk(s: string, spans: seq<Span>, i: nat, pos: nat)
    requires i < |spans| && Inside(spans[i..], pos, |s|)
    ensures pos <= spans[i].from <= spans[i].to <= |s| && Inside(spans[i + 1..], spans[i].to, |s|)
    ensures Splice(s, spans[i..], pos, ChunkText(s))
         == s[pos..spans[i].from] + ChunkText(s)(spans[i]) + Splice(s, spans[i + 1..], spans[i].to, ChunkText(s))
    ensures forall c :: Gain(s, spans[i..], ChunkText(s), c) - Gain(s, spans[i + 1..], ChunkText(s), c) == Delta(s, spans[i], c)
  {
    hide Splice, CountOf, ChunkText, Cut;
    SpliceHead(s, spans[i..], pos, ChunkText(s));
    assert spans[i..][1..] == spans[i + 1..];
  }

  /** The chunk step of `reinforceCard`. */
  method ReinforceChunks(masked: string, counts: Tally) returns (out: string)
    modifies counts
    ensures out == ChunkPass(masked)
    ensures counts.rrn == old(counts.rrn) + CountOf(out, MARK_RRN) - CountOf(masked, MARK_RRN)
    ensures counts.card == old(counts.card) + CountOf(out, MARK_CARD) - CountOf(masked, MARK_CARD)
    ensures counts.phone == old(counts.phone) && counts.account == old(counts.account) && counts.email == old(counts.email)
  {
    hide *;
    ghost var f := ChunkText(masked);
    ChunkStart(masked);
    var spans := Matches(Chunk(), masked, 0);
    var pos := 0;
    out := "";
    for i := 0 to |spans|
      invariant 0 <= pos <= |masked| && Inside(spans[i..], pos, |masked|)
      invariant out + Splice(masked, spans[i..], pos, f) == ChunkPass(masked)
      invariant counts.rrn - old(counts.rrn) + Gain(masked, spans[i..], f, MARK_RRN) == Gain(masked, spans, f, MARK_RRN)
      invariant counts.card - old(counts.card) + Gain(masked, spans[i..], f, MARK_CARD) == Gain(masked, spans, f, MARK_CARD)
      invariant counts.phone == old(counts.phone) && counts.account == old(counts.account) && counts.email == old(counts.email)
    {
      var m := spans[i];
      NextChunk(masked, spans, i, pos);
      ChunkTextOf(masked, m);
      var text := ReplaceChunk(Cut(masked, m), counts);
      out := out + masked[pos..m.from] + text;
      pos := m.to;
    }
    assert spans[|spans|..] == [];
    ChunkFinish(masked, pos);
    out := out + masked[pos..];
  }

  lemma ChunkStart(s: string)
    ensures Width(Chunk()) > 0 && Inside(Matches(Chunk(), s, 0), 0, |s|)
    ensures ChunkPass(s) == Splice(s, Matches(Chunk(), s, 0), 0, ChunkText(s))
    ensures Matches(Chunk(), s, 0)[0..] == Matches(Chunk(), s, 0)
    ensures forall c :: CountOf(ChunkPass(s), c) == CountOf(s, c) + Gain(s, Matches(Chunk(), s, 0), ChunkText(s), c)
  {
    hide Chunk, Matches, Splice, CountOf, Gain, ChunkText;
    MoreWidths();
    Unfolded(Chunk(), s, ChunkText(s));
    forall c ensures CountOf(ChunkPass(s), c) == CountOf(s, c) + Gain(s, Matches(Chunk(), s, 0), ChunkText(s), c) {
      CountReplaced(Chunk(), s, ChunkText(s), c);
    }
  }

  lemma ChunkTextOf(s: string, m: Span)
    ensures ChunkText(s)(m) == if HasDigit(Cut(s, m)) then [MARK_CARD] else Cut(s, m)
    ensures forall c :: Delta(s, m, c) == CountOf(ChunkText(s)(m), c) - CountOf(Cut(s, m), c)
  {
  }

  lemma ChunkFinish(s: string, pos: nat)
    requires pos <= |s|
    ensures Splice(s, [], pos, ChunkText(s)) == s[pos..]
    ensures forall c :: Gain(s, [], ChunkText(s), c) == 0
  {
  }

  /** `reinforceCard`: the counts of marks move exactly as the marks in the text do. */
  method ReinforceCard(masked: string, counts: Tally) returns (out: string)
    modifies counts
    ensures out == Reinforced(masked)
    ensures counts.rrn == old(counts.rrn) + CountOf(out, MARK_RRN) - CountOf(masked, MARK_RRN)
    ensures counts.card == old(counts.card) + CountOf(out, MARK_CARD) - CountOf(masked, MARK_CARD)
    ensures counts.phone == old(counts.phone) && counts.account == old(counts.account) && counts.email == old(counts.email)
  {
    hide CountOf, ChunkPass, LongPass, AmexPass, Matches, Long, Amex;
    out := ReinforceChunks(masked, counts);
    LongMarks(out, MARK_RRN);
    LongMarks(out, MARK_CARD);
    counts.card := counts.card + |Matches(Long(), out, 0)|;
    out := LongPass(out);
    AmexMarks(out, MARK_RRN);
    AmexMarks(out, MARK_CARD);
    counts.card := counts.card + |Matches(Amex(), out, 0)|;
    out := AmexPass(out);
  }

  /** The account matches that are masked, dates being kept. */
  function Redacted(s: string, spans: seq<Span>, preserveDates: bool, birth: (string, nat) -> bool): nat
  {
    if spans == [] then 0
    else (if KeepsDate(s, spans[0], preserveDates, birth) then 0 else 1) + Redacted(s, spans[1..], preserveDates, birth)
  }

  function RrnHits(s: string): nat { Widths(); |Matches(Rrn(), s, 0)| }

  function CardHits(s: string): nat { Widths(); |Matches(Card(), s, 0)| }

  function PhoneHits(s: string): nat { MoreWidths(); |Matches(Phone(), s, 0)| }

  function AccountHits(s: string, preserveDates: bool, birth: (string, nat) -> bool): nat
  {
    Widths();
    Redacted(s, Matches(Account(), s, 0), preserveDates, birth)
  }

  function EmailHits(s: string): nat { EmailIsWide(); |Matches(Email(), s, 0)| }

  method MaskEmails(s: string, full: bool, counts: Tally) returns (masked: string)
    modifies counts`email
    ensures masked == EmailPass(s, full) && counts.email == old(counts.email) + EmailHits(s)
  {
    hide Email, Matches, ReplaceAll;
    EmailIsWide();
    var found;
    masked, found := ReplaceEmails(s, EmailText(full));
    counts.email := counts.email + |found|;
  }

  /** The five passes; with marks on, the first two counts are the numbers of marks in the text. */
  method MaskFive(text: string, marks: bool, full: bool, preserveDates: bool, birth: (string, nat) -> bool, counts: Tally)
    returns (masked: string)
    requires counts.rrn == counts.card == counts.account == counts.phone == counts.email == 0
    modifies counts
    ensures masked == FivePasses(text, marks, full, preserveDates, birth)
    ensures counts.rrn == RrnHits(text) && counts.card == CardHits(RrnPass(text, marks))
    ensures counts.phone == PhoneHits(CardPass(RrnPass(text, marks), marks))
    ensures counts.account == AccountHits(PhonePass(CardPass(RrnPass(text, marks), marks), full), preserveDates, birth)
    ensures counts.email == EmailHits(AccountPass(PhonePass(CardPass(RrnPass(text, marks), marks), full), preserveDates, birth))
  {
    hide *;
    masked := text;
    counts.rrn := counts.rrn + RrnHits(masked);
    masked := RrnPass(masked, marks);
    counts.card := counts.card + CardHits(masked);
    masked := CardPass(masked, marks);
    counts.phone := counts.phone + PhoneHits(masked);
    masked := PhonePass(masked, full);
    counts.account := counts.account + AccountHits(masked, preserveDates, birth);
    masked := AccountPass(masked, preserveDates, birth);
    masked := MaskEmails(masked, full, counts);
    Composed(text, marks, full, preserveDates, birth);
  }

  /** The numbers of phone numbers, accounts and e-mail addresses replaced, each in the text its pass meets. */
  ghost predicate PassesCounted(text: string, marks: bool, full: bool, preserveDates: bool, birth: (string, nat) -> bool,
                                phone: int, account: int, email: int)
  {
    var carded := CardPass(RrnPass(text, marks), marks);
    var phoned := PhonePass(carded, full);
    && phone == PhoneHits(carded)
    && account == AccountHits(phoned, preserveDates, birth)
    && email == EmailHits(AccountPass(phoned, preserveDates, birth))
  }

  lemma Composed(s: string, marks: bool, full: bool, preserveDates: bool, birth: (string, nat) -> bool)
    ensures FivePasses(s, marks, full, preserveDates, birth)
         == EmailPass(AccountPass(PhonePass(CardPass(RrnPass(s, marks), marks), full), preserveDates, birth), full)
  {
  }

  lemma FivePassesCount(s: string, full: bool, preserveDates: bool, birth: (string, nat) -> bool)
    requires !HasMarkRange(s)
    ensures CountOf(FivePasses(s, true, full, preserveDates, birth), MARK_RRN) == RrnHits(s)
    ensures CountOf(FivePasses(s, true, full, preserveDates, birth), MARK_CARD) == CardHits(RrnPass(s, true))
  {
    hide CountOf, RrnPass, CardPass, PhonePass, AccountPass, EmailPass;
    NoMarksYet(s);
    var s1 := RrnPass(s, true);
    var s2 := CardPass(s1, true);
    var s3 := PhonePass(s2, full);
    var s4 := AccountPass(s3, preserveDates, birth);
    CountThrough(s, s1, s2, s3, s4, full, preserveDates, birth, MARK_RRN);
    CountThrough(s, s1, s2, s3, s4, full, preserveDates, birth, MARK_CARD);
  }

  lemma NoMarksYet(s: string)
    requires !HasMarkRange(s)
    ensures CountOf(s, MARK_RRN) == 0 && CountOf(s, MARK_CARD) == 0
  {
    CountNone(s, MARK_RRN);
    CountNone(s, MARK_CARD);
  }

  lemma CountThrough(s: string, s1: string, s2: string, s3: string, s4: string, full: bool, preserveDates: bool,
                     birth: (string, nat) -> bool, c: char)
    requires !IsPlain(c) && s1 == RrnPass(s, true) && s2 == CardPass(s1, true) && s3 == PhonePass(s2, full)
    requires s4 == AccountPass(s3, preserveDates, birth)
    ensures CountOf(EmailPass(s4, full), c)
         == CountOf(s, c) + (if c == MARK_RRN then RrnHits(s) else 0) + if c == MARK_CARD then CardHits(s1) else 0
  {
    hide CountOf, RrnPass, CardPass, PhonePass, AccountPass, EmailPass, Rrn, Card, Matches;
    RrnMarks(s, c);
    CardMarks(s1, c);
    PhoneMarks(s2, full, c);
    AccountMarks(s3, preserveDates, birth, c);
    EmailMarks(s4, full, c);
  }

  // ---------------------------------------------------------------- what the passes do to the matches they find

  lemma RrnHides(s: string, marks: bool)
    ensures Rewrites(Rrn(), s, RrnPass(s, marks), Label(if marks then [MARK_RRN] else TEXT_RRN), RrnHits(s))
  {
    hide Rrn, ReplaceAll, Matches, Rewrites, Preferred, Cut;
    Widths();
    var shown := if marks then [MARK_RRN] else TEXT_RRN;
    forall m: Span | Preferred(Rrn(), s, m) ensures shown != Cut(s, m) {
      NumberFits(Rrn(), s, m, shown);
    }
    Changing(Rrn(), s, Constantly(shown), Label(shown));
  }

  lemma CardHides(s: string, marks: bool)
    ensures Rewrites(Card(), s, CardPass(s, marks), Label(if marks then [MARK_CARD] else TEXT_CARD), CardHits(s))
  {
    hide Card, ReplaceAll, Matches, Rewrites, Preferred, Cut;
    Widths();
    var shown := if marks then [MARK_CARD] else TEXT_CARD;
    forall m: Span | Preferred(Card(), s, m) ensures shown != Cut(s, m) {
      NumberFits(Card(), s, m, shown);
    }
    Changing(Card(), s, Constantly(shown), Label(shown));
  }

  lemma PhoneHides(s: string, full: bool)
    ensures Rewrites(Phone(), s, PhonePass(s, full), Phones(s, full), PhoneHits(s))
  {
    hide Phone, ReplaceAll, Matches, Rewrites, Preferred, Cut, PhoneGoes, MaskPhone;
    MoreWidths();
    forall m: Span | Preferred(Phone(), s, m)
      ensures PhoneGoes(full, Cut(s, m), PhoneText(s, full)(m)) && PhoneText(s, full)(m) != Cut(s, m) {
      PhoneFits(s, m, full);
    }
    Changing(Phone(), s, PhoneText(s, full), Phones(s, full));
  }

  lemma KeepsWhatStays(s: string, m: Span, preserveDates: bool, birth: (string, nat) -> bool)
    ensures KeepsDate(s, m, preserveDates, birth) <==> DateStays(s, m, preserveDates, birth)
  {
    hide IsDate, IsCalendarDate, Cut;
    DateIff(Cut(s, m));
  }

  lemma {:induction false} RedactedChange(s: string, spans: seq<Span>, preserveDates: bool, birth: (string, nat) -> bool)
    requires forall k :: 0 <= k < |spans| ==> TEXT_ACCOUNT != Cut(s, spans[k])
    ensures Changed(s, spans, AccountText(s, preserveDates, birth)) == Redacted(s, spans, preserveDates, birth)
  {
    hide KeepsDate;
    if spans != [] {
      RedactedChange(s, spans[1..], preserveDates, birth);
    }
  }

  lemma AccountHides(s: string, preserveDates: bool, birth: (string, nat) -> bool)
    ensures Rewrites(Account(), s, AccountPass(s, preserveDates, birth), Accounts(s, preserveDates, birth),
                     AccountHits(s, preserveDates, birth))
  {
    hide Account, ReplaceAll, Matches, Rewrites, Preferred, Cut, KeepsDate, DateStays, Changed, Redacted, Found;
    Widths();
    var f := AccountText(s, preserveDates, birth);
    forall m: Span ensures Accounts(s, preserveDates, birth)(m, f(m)) {
      KeepsWhatStays(s, m, preserveDates, birth);
    }
    Rewriting(Account(), s, f, Accounts(s, preserveDates, birth));
    var spans := Matches(Account(), s, 0);
    MatchesFound(Account(), s, 0);
    AllPreferred(Account(), s, spans);
    forall k | 0 <= k < |spans| ensures TEXT_ACCOUNT != Cut(s, spans[k]) {
      NumberFits(Account(), s, spans[k], TEXT_ACCOUNT);
    }
    RedactedChange(s, spans, preserveDates, birth);
  }

  lemma EmailHides(s: string, full: bool)
    ensures Rewrites(Email(), s, EmailPass(s, full), Emails(s, full), EmailHits(s))
  {
    hide Email, ReplaceAll, Matches, Rewrites, Preferred, Cut, EmailGoes, MaskEmail;
    EmailIsWide();
    var f := Replacing(s, EmailText(full));
    forall m: Span | Preferred(Email(), s, m) ensures EmailGoes(full, Cut(s, m), f(m)) && f(m) != Cut(s, m) {
      EmailFits(s, m, full);
    }
    Changing(Email(), s, f, Emails(s, full));
  }

  /** The five passes hide every match of the five kinds, and the hits say how many of each. */
  lemma PassesHide(s: string, marks: bool, full: bool, preserveDates: bool, birth: (string, nat) -> bool, hits: Hits)
    requires hits.rrn == RrnHits(s) && hits.card == CardHits(RrnPass(s, marks))
    requires PassesCounted(s, marks, full, preserveDates, birth, hits.phone, hits.account, hits.email)
    ensures FiveHide(s, marks, full, preserveDates, birth, FivePasses(s, marks, full, preserveDates, birth), hits)
  {
    hide RrnPass, CardPass, PhonePass, AccountPass, EmailPass, Rewrites, RrnHits, CardHits, PhoneHits, AccountHits, EmailHits,
      Label, Phones, Accounts, Emails;
    var a := RrnPass(s, marks);
    var b := CardPass(a, marks);
    var c := PhonePass(b, full);
    var d := AccountPass(c, preserveDates, birth);
    RrnHides(s, marks);
    CardHides(a, marks);
    PhoneHides(b, full);
    AccountHides(c, preserveDates, birth);
    EmailHides(d, full);
    assert FiveVia(s, marks, full, preserveDates, birth, EmailPass(d, full), hits, a, b, c, d);
  }

  lemma LongRunHides(s: string)
    ensures Width(Long()) > 0 && Rewrites(Long(), s, LongPass(s), Label([MARK_CARD]), |Matches(Long(), s, 0)|)
  {
    hide Long, ReplaceAll, Matches, Rewrites, Preferred, Cut;
    Widths();
    forall m: Span | Preferred(Long(), s, m) ensures [MARK_CARD] != Cut(s, m) {
      NumberFits(Long(), s, m, [MARK_CARD]);
    }
    Changing(Long(), s, CardMark(), Label([MARK_CARD]));
  }

  lemma AmexHides(s: string)
    ensures Width(Amex()) > 0 && Rewrites(Amex(), s, AmexPass(s), Label([MARK_CARD]), |Matches(Amex(), s, 0)|)
  {
    hide Amex, ReplaceAll, Matches, Rewrites, Preferred, Cut;
    Widths();
    forall m: Span | Preferred(Amex(), s, m) ensures [MARK_CARD] != Cut(s, m) {
      NumberFits(Amex(), s, m, [MARK_CARD]);
    }
    Changing(Amex(), s, CardMark(), Label([MARK_CARD]));
  }

  lemma ChunkTextGoes(s: string, m: Span)
    requires m.from <= m.to <= |s|
    ensures Chunks(s)(m, ChunkText(s)(m))
  {
    var t := Cut(s, m);
    if HasDigit(t) {
      var k :| 0 <= k < |t| && IsDigit(t[k]);
      assert IsDigit(s[m.from + k]);
    }
    if k :| m.from <= k < m.to <= |s| && IsDigit(s[k]) {
      assert IsDigit(t[k - m.from]);
    }
  }

  lemma ChunkHides(s: string)
    ensures exists n :: Rewrites(Chunk(), s, ChunkPass(s), Chunks(s), n)
  {
    hide Chunk, ReplaceAll, Matches, Rewrites, Ends, Chunks, ChunkText, Changed;
    MoreWidths();
    forall m: Span | Preferred(Chunk(), s, m) ensures Chunks(s)(m, ChunkText(s)(m)) {
      ChunkTextGoes(s, m);
    }
    Rewriting(Chunk(), s, ChunkText(s), Chunks(s));
    assert Rewrites(Chunk(), s, ChunkPass(s), Chunks(s), Changed(s, Matches(Chunk(), s, 0), ChunkText(s)));
  }

  lemma ReinforcedReinforces(s: string)
    ensures Reinforces(s, Reinforced(s))
  {
    hide ChunkPass, LongPass, AmexPass, Rewrites, Chunks, Label, Long, Amex, Matches;
    ChunkHides(s);
    var n :| Rewrites(Chunk(), s, ChunkPass(s), Chunks(s), n);
    var a := ChunkPass(s);
    LongRunHides(a);
    AmexHides(LongPass(a));
    assert ReinforcesVia(s, Reinforced(s), a, LongPass(a), n, |Matches(Long(), a, 0)|, |Matches(Amex(), LongPass(a), 0)|);
  }

  lemma SpelledSpells(s: string)
    ensures Spells(s, Spelled(s))
  {
    hide ReplaceAll, Matches, Rewrites, Preferred, Changed;
    Rewriting(One(IsMark), s, MarkText(s), Spellings(s));
  }

  ghost predicate MasksVia(text: string, full: bool, preserveDates: bool, birth: (string, nat) -> bool, masked: string, marked: string,
                           hits: Hits, five: string, found: Hits)
  {
    && FiveHide(text, !HasMarkRange(text), full, preserveDates, birth, five, found)
    && found.phone == hits.phone && found.account == hits.account && found.email == hits.email
    && (HasMarkRange(text) ==> masked == five && found == hits)
    && (!HasMarkRange(text) ==> Reinforces(five, marked) && Spells(marked, masked))
  }

  /** What masking does: the five kinds are hidden, then, in a text without characters of the mark range, the reinforcement
      and the spelling of marks follow. */
  ghost predicate MasksAll(text: string, full: bool, preserveDates: bool, birth: (string, nat) -> bool, masked: string, marked: string,
                           hits: Hits)
  {
    exists five, found :: MasksVia(text, full, preserveDates, birth, masked, marked, hits, five, found)
  }

  lemma MarkedMasks(text: string, full: bool, preserveDates: bool, birth: (string, nat) -> bool, masked: string, marked: string,
                    hits: Hits)
    requires PassesCounted(text, !HasMarkRange(text), full, preserveDates, birth, hits.phone, hits.account, hits.email)
    requires HasMarkRange(text) ==> hits.rrn == RrnHits(text) && hits.card == CardHits(RrnPass(text, false))
    requires HasMarkRange(text) ==> masked == FivePasses(text, false, full, preserveDates, birth)
    requires !HasMarkRange(text) ==> marked == Reinforced(FivePasses(text, true, full, preserveDates, birth)) && masked == Spelled(marked)
    ensures MasksAll(text, full, preserveDates, birth, masked, marked, hits)
  {
    hide FivePasses, Reinforced, Spelled, FiveHide, Reinforces, Spells, PassesCounted, RrnHits, CardHits, RrnPass, HasMarkRange;
    var marks := !HasMarkRange(text);
    var five := FivePasses(text, marks, full, preserveDates, birth);
    var found := hits.(rrn := RrnHits(text), card := CardHits(RrnPass(text, marks)));
    PassesHide(text, marks, full, preserveDates, birth, found);
    ReinforcedReinforces(five);
    SpelledSpells(marked);
    assert MasksVia(text, full, preserveDates, birth, masked, marked, hits, five, found);
  }

  /** `maskPii` without a choice of kinds. `marked` is the text just before the marks are spelled out. */
  method MaskPii(text: string, full: bool, preserveDates: bool, birth: (string, nat) -> bool)
    returns (masked: string, counts: Tally, ghost marked: string)
    ensures fresh(counts)
    ensures text == [] ==> masked == [] && counts.rrn == counts.card == counts.account == counts.phone == counts.email == 0
    ensures text != [] ==> MasksAll(text, full, preserveDates, birth, masked, marked,
                                    Hits(counts.rrn, counts.card, counts.phone, counts.account, counts.email))
    ensures text != [] && HasMarkRange(text) ==> masked == FivePasses(text, false, full, preserveDates, birth)
    ensures text != [] && !HasMarkRange(text) ==> marked == Reinforced(FivePasses(text, true, full, preserveDates, birth))
    ensures text != [] ==> PassesCounted(text, !HasMarkRange(text), full, preserveDates, birth, counts.phone, counts.account, counts.email)
    ensures text != [] && HasMarkRange(text) ==> counts.rrn == RrnHits(text) && counts.card == CardHits(RrnPass(text, false))
    ensures !HasMarkRange(text) ==>
      && masked == Spelled(marked)
      && counts.rrn == CountOf(marked, MARK_RRN)
      && counts.card == CountOf(marked, MARK_CARD)
      && NoTouch(marked)
      && !HasLongRun(masked)
  {
    hide *;
    counts := new Tally();
    marked := text;
    if text == [] {
      EmptyText();
      return text, counts, marked;
    }
    var useMarks := !HasMarkRange(text);
    masked := MaskFive(text, useMarks, full, preserveDates, birth, counts);
    PassesAre(text, useMarks, full, preserveDates, birth, counts.phone, counts.account, counts.email);
    if useMarks {
      FivePassesCount(text, full, preserveDates, birth);
      ReinforcedIsClean(masked);
      masked := ReinforceCard(masked, counts);
      marked := masked;
      SpelledIsClean(masked);
      masked := Spelled(masked);
    }
    MarkedMasks(text, full, preserveDates, birth, masked, marked,
                Hits(counts.rrn, counts.card, counts.phone, counts.account, counts.email));
  }

  lemma PassesAre(text: string, marks: bool, full: bool, preserveDates: bool, birth: (string, nat) -> bool,
                  phone: int, account: int, email: int)
    requires phone == PhoneHits(CardPass(RrnPass(text, marks), marks))
    requires account == AccountHits(PhonePass(CardPass(RrnPass(text, marks), marks), full), preserveDates, birth)
    requires email == EmailHits(AccountPass(PhonePass(CardPass(RrnPass(text, marks), marks), full), preserveDates, birth))
    ensures PassesCounted(text, marks, full, preserveDates, birth, phone, account, email)
  {
    hide CardPass, RrnPass, PhonePass, AccountPass, PhoneHits, AccountHits, EmailHits;
  }

  lemma EmptyText()
    ensures Spelled([]) == [] && CountOf([], MARK_RRN) == 0 && CountOf([], MARK_CARD) == 0
    ensures NoTouch([]) && !HasLongRun([])
  {
    Unfolded(One(IsMark), [], MarkText([]));
  }
}
