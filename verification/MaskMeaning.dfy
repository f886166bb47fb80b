/** What the passes of the masking rules do to a text, said of the matches they find (packages/pii-mask/src/index.ts). */
module MaskMeaning {
  import opened Prelude
  import opened Texts
  import opened Regex
  import opened EmailScan
  import opened MaskRules
  import opened MaskShapes

  // ---------------------------------------------------------------- what is left of a phone number

  /** The first three digits, four stars and the last four digits: never the number itself. */
  ghost predicate HidesPhone(t: string, r: string)
  {
    && |t| >= 10 && AllDigits(t[|t| - 4..])
    && r == [t[0], t[1], if IsDigit(t[2]) then t[2] else t[3]] + "-****-" + t[|t| - 4..]
    && r != t
  }

  lemma {:induction false} DigitsOfBoth(a: string, b: string)
    ensures OnlyDigits(a + b) == OnlyDigits(a) + OnlyDigits(b)
  {
    if a == [] {
      assert a + b == b;
    } else {
      DigitsOfBoth(a[1..], b);
      assert (a + b)[1..] == a[1..] + b;
    }
  }

  lemma {:induction false} DigitsOfNumber(a: string)
    requires AllDigits(a)
    ensures OnlyDigits(a) == a
  {
    if a != [] {
      DigitsOfNumber(a[1..]);
    }
  }

  lemma DigitsOfGap(gap: string)
    requires gap == [] || gap == "-"
    ensures OnlyDigits(gap) == []
  {
  }

  lemma DigitsOfGroups(head: string, gap: string, middle: string, other: string, last: string)
    requires AllDigits(head) && AllDigits(middle) && AllDigits(last) && (gap == [] || gap == "-") && (other == [] || other == "-")
    ensures OnlyDigits(head + gap + middle + other + last) == head + middle + last
  {
    hide OnlyDigits, AllDigits;
    DigitsOfBoth(head + gap + middle + other, last);
    DigitsOfBoth(head + gap + middle, other);
    DigitsOfBoth(head + gap, middle);
    DigitsOfBoth(head, gap);
    DigitsOfNumber(head);
    DigitsOfNumber(middle);
    DigitsOfNumber(last);
    DigitsOfGap(gap);
    DigitsOfGap(other);
    assert head + [] + middle + [] + last == head + middle + last;
  }

  lemma GroupsHidden(t: string, head: string, gap: string, middle: string, other: string, last: string)
    requires t == head + gap + middle + other + last && AllDigits(head) && AllDigits(middle) && AllDigits(last)
    requires (gap == [] || gap == "-") && (other == [] || other == "-")
    requires (|head| == 3 || (|head| == 2 && gap == "-")) && 3 <= |middle| && |last| == 4 && |t| >= 10
    ensures HidesPhone(t, MaskPhone(t))
  {
    hide OnlyDigits;
    var digits := head + middle + last;
    DigitsOfGroups(head, gap, middle, other, last);
    var front := [t[0], t[1], if IsDigit(t[2]) then t[2] else t[3]];
    assert digits[|digits| - 4..] == last == t[|t| - 4..];
    assert digits[..3] == front;
    assert t[4] == if |head| == 3 && gap != [] then middle[0] else middle[1];
    var r := front + "-****-" + last;
    assert r[4] == '*';
  }

  lemma NumberIsDigits(s: string, i: nat, j: nat, lo: nat, hi: nat)
    requires Number(s, i, j, lo, hi)
    ensures i + lo <= j <= i + hi && j <= |s| && AllDigits(s[i..j])
  {
  }

  lemma FiveParts(s: string, i: nat, a: nat, b: nat, c: nat, d: nat, e: nat)
    requires i <= a <= b <= c <= d <= e <= |s|
    ensures s[i..e] == s[i..a] + s[a..b] + s[b..c] + s[c..d] + s[d..e]
  {
    assert s[i..b] == s[i..a] + s[a..b];
    assert s[i..c] == s[i..b] + s[b..c];
    assert s[i..d] == s[i..c] + s[c..d];
    assert s[i..e] == s[i..d] + s[d..e];
  }

  lemma MobileHidden(s: string, i: nat, e: nat)
    requires IsMobile(s, i, e)
    ensures i <= e <= |s| && HidesPhone(s[i..e], MaskPhone(s[i..e]))
  {
    hide HidesPhone, MaskPhone, Number;
    var p := AfterDash(s, i + 3);
    var m: nat :| Number(s, p, m, 3, 4) && Number(s, AfterDash(s, m), e, 4, 4);
    var q := AfterDash(s, m);
    NumberIsDigits(s, p, m, 3, 4);
    NumberIsDigits(s, q, e, 4, 4);
    var gap, other := s[i + 3..p], s[m..q];
    FiveParts(s, i, i + 3, p, m, q, e);
    GroupsHidden(s[i..e], s[i..i + 3], gap, s[p..m], other, s[q..e]);
  }

  lemma LandlineHidden(s: string, i: nat, e: nat)
    requires IsLandline(s, i, e)
    ensures i <= e <= |s| && HidesPhone(s[i..e], MaskPhone(s[i..e]))
  {
    hide HidesPhone, MaskPhone, Number;
    var a: nat, b: nat :| Number(s, i + 1, a, 1, 2) && Dashed(s, a, b, 3, 4) && Dashed(s, b, e, 4, 4);
    NumberIsDigits(s, i + 1, a, 1, 2);
    NumberIsDigits(s, a + 1, b, 3, 4);
    NumberIsDigits(s, b + 1, e, 4, 4);
    FiveParts(s, i, a, a + 1, b, b + 1, e);
    assert s[a..a + 1] == "-" && s[b..b + 1] == "-";
    assert s[i..a] == [s[i]] + s[i + 1..a];
    GroupsHidden(s[i..e], s[i..a], "-", s[a + 1..b], "-", s[b + 1..e]);
  }

  /** In full mode the label takes the place of the match and no character of the match is in it. */
  ghost predicate Blotted(t: string, r: string, text: string)
  {
    r == text && forall k :: 0 <= k < |t| ==> t[k] !in r
  }

  ghost predicate PhoneGoes(full: bool, t: string, r: string)
  {
    if full then Blotted(t, r, TEXT_PHONE) else HidesPhone(t, r)
  }

  lemma PhoneGone(s: string, i: nat, e: nat, full: bool)
    requires IsPhone(s, i, e)
    ensures i <= e <= |s| && PhoneGoes(full, s[i..e], if full then TEXT_PHONE else MaskPhone(s[i..e]))
  {
    hide IsMobile, IsLandline, HidesPhone, MaskPhone;
    if IsMobile(s, i, e) {
      MobileHidden(s, i, e);
    } else {
      LandlineHidden(s, i, e);
    }
    PhoneIsNumbers(s, i, e);
    if full {
      forall k | 0 <= k < e - i ensures s[i..e][k] !in TEXT_PHONE {
        assert IsDashOrDigit(s[i + k]);
      }
    }
  }

  lemma PhoneIsNumbers(s: string, i: nat, e: nat)
    requires IsPhone(s, i, e)
    ensures i <= e <= |s| && AllIn(IsDashOrDigit, s, i, e)
  {
    hide Ends, IsPhone;
    PhoneBounds(s, i, e);
    PhoneTaken(s, i, e);
    PhoneHas();
    MatchOnly(Phone(), IsDashOrDigit, s, i);
  }

  lemma PhoneBounds(s: string, i: nat, e: nat)
    requires IsPhone(s, i, e)
    ensures i <= e <= |s|
  {
    hide IsMobile, IsLandline, HidesPhone, MaskPhone;
    if IsMobile(s, i, e) {
      MobileHidden(s, i, e);
    } else {
      LandlineHidden(s, i, e);
    }
  }

  lemma PhoneHas()
    ensures Only(Phone(), IsDashOrDigit)
  {
    assert Only(Mobile(), IsDashOrDigit) && Only(Landline(), IsDashOrDigit);
  }

  // ---------------------------------------------------------------- what is left of an e-mail address

  /** The first character of the local part, three stars and the whole domain: never the address itself. */
  ghost predicate HidesEmail(t: string, r: string)
  {
    && r != t
    && exists at :: 0 < at < |t| && t[at] == '@' && '@' !in t[..at] && '@' !in t[at + 1..] && r == [t[0]] + "***@" + t[at + 1..]
  }

  lemma {:induction false} FirstAt(t: string, at: nat)
    requires at < |t| && t[at] == '@' && '@' !in t[..at]
    ensures IndexOfAt(t) == at
    decreases at
  {
    if at > 0 {
      assert t[0] == t[..at][0];
      assert t[1..][..at - 1] == t[..at][1..];
      FirstAt(t[1..], at - 1);
    }
  }

  lemma EmailHidden(t: string, at: nat)
    requires 0 < at < |t| && t[at] == '@' && '@' !in t[..at] && '@' !in t[at + 1..] && '*' !in t
    ensures HidesEmail(t, MaskEmail(t))
  {
    hide IndexOfAt;
    FirstAt(t, at);
    var r := MaskEmail(t);
    assert r == [t[0]] + "***@" + t[at + 1..];
    assert r[1] == '*';
    assert t[1] in t;
  }

  ghost predicate EmailGoes(full: bool, t: string, r: string)
  {
    if full then Blotted(t, r, TEXT_EMAIL) else HidesEmail(t, r)
  }

  lemma EmailGone(s: string, i: nat, e: nat, full: bool)
    requires IsEmail(s, i, e)
    ensures i <= e <= |s| && EmailGoes(full, s[i..e], if full then TEXT_EMAIL else MaskEmail(s[i..e]))
  {
    hide HidesEmail, MaskEmail;
    var at: nat, dot: nat :| IsEmailAround(s, i, at, dot, e);
    var t := s[i..e];
    forall k | 0 <= k < |t| ensures t[k] == s[i + k] && (IsLocal(t[k]) || t[k] == '@') && (k != at - i ==> t[k] != '@') {
    }
    assert '*' !in t;
    assert forall k :: 0 <= k < |t| ==> t[k] !in TEXT_EMAIL;
    EmailHidden(t, at - i);
  }

  // ---------------------------------------------------------------- dates that look like accounts

  function Two(n: nat): string
    requires n < 100
  {
    [DigitChar(n / 10), DigitChar(n % 10)]
  }

  ghost predicate WritesDate(t: string, year: nat, month: nat, day: nat)
  {
    && 1900 <= year <= 2099 && 1 <= month <= 12 && 1 <= day <= 31
    && t == Two(year / 100) + Two(year % 100) + "-" + Two(month) + "-" + Two(day)
  }

  ghost predicate IsCalendarDate(t: string)
  {
    exists year: nat, month: nat, day: nat :: WritesDate(t, year, month, day)
  }

  function TwoValue(a: char, b: char): nat
    requires IsDigit(a) && IsDigit(b)
  {
    10 * DigitValue(a) + DigitValue(b)
  }

  lemma TwoRead(a: char, b: char)
    requires IsDigit(a) && IsDigit(b)
    ensures TwoValue(a, b) < 100 && Two(TwoValue(a, b)) == [a, b]
  {
  }

  /** The date expression takes exactly the written dates of two centuries. */
  lemma DateIff(t: string)
    ensures IsDate(t) <==> IsCalendarDate(t)
  {
    if IsDate(t) {
      ReadDate(t);
    }
    if year: nat, month: nat, day: nat :| WritesDate(t, year, month, day) {
      WrittenIsDate(t, year, month, day);
    }
  }

  lemma ReadDate(t: string)
    requires IsDate(t)
    ensures IsCalendarDate(t)
  {
    hide Two, TwoValue;
    assert t[0] == t[..2][0] && t[1] == t[..2][1];
    TwoRead(t[0], t[1]);
    TwoRead(t[2], t[3]);
    TwoRead(t[5], t[6]);
    TwoRead(t[8], t[9]);
    var century, rest := TwoValue(t[0], t[1]), TwoValue(t[2], t[3]);
    DateRanges(t);
    var year := 100 * century + rest;
    assert year / 100 == century && year % 100 == rest;
    assert t == [t[0], t[1]] + [t[2], t[3]] + "-" + [t[5], t[6]] + "-" + [t[8], t[9]];
    assert WritesDate(t, year, TwoValue(t[5], t[6]), TwoValue(t[8], t[9]));
  }

  lemma DateRanges(t: string)
    requires IsDate(t)
    ensures IsDigit(t[0]) && IsDigit(t[1]) && IsDigit(t[5]) && IsDigit(t[6]) && IsDigit(t[8]) && IsDigit(t[9])
    ensures 19 <= TwoValue(t[0], t[1]) <= 20 && 1 <= TwoValue(t[5], t[6]) <= 12 && 1 <= TwoValue(t[8], t[9]) <= 31
  {
    assert t[0] == t[..2][0] && t[1] == t[..2][1];
  }

  lemma WrittenIsDate(t: string, year: nat, month: nat, day: nat)
    requires WritesDate(t, year, month, day)
    ensures IsDate(t)
  {
    assert t[..2] == Two(year / 100);
    assert year / 100 == 19 || year / 100 == 20;
    assert Two(19) == "19" && Two(20) == "20";
  }

  // ---------------------------------------------------------------- the matches of a pass

  ghost predicate Preferred(re: Re, s: string, m: Span)
  {
    m.from <= m.to <= |s| && Ends(re, s, m.from) != [] && m.to == Ends(re, s, m.from)[0]
  }

  ghost predicate Covered(spans: seq<Span>, i: nat)
  {
    exists k :: 0 <= k < |spans| && spans[k].from <= i < spans[k].to
  }

  /** The matches of a global replacement from `pos` on: each is a match of `re`, they stand in order and apart, and none is
      left out, for wherever `re` matches one of them already covers the place. */
  ghost predicate Found(re: Re, s: string, pos: nat, spans: seq<Span>)
  {
    && Inside(spans, pos, |s|)
    && (forall k :: 0 <= k < |spans| ==> Preferred(re, s, spans[k]))
    && forall i: nat :: pos <= i <= |s| && Ends(re, s, i) != [] ==> Covered(spans, i)
  }

  lemma {:induction false} MatchesFound(re: Re, s: string, pos: nat)
    requires pos <= |s| && Width(re) > 0
    ensures Found(re, s, pos, Matches(re, s, pos))
    decreases |s| - pos
  {
    hide Matches, Ends, Search;
    MatchesStep(re, s, pos);
    MatchesInside(re, s, pos);
    var found := Search(re, s, pos);
    if found.Some? {
      var m := found.value;
      MatchesFound(re, s, m.to);
      var spans := [m] + Matches(re, s, m.to);
      FirstFound(re, s, pos, m, Matches(re, s, m.to));
    }
  }

  lemma FirstFound(re: Re, s: string, pos: nat, m: Span, rest: seq<Span>)
    requires pos <= m.from < m.to && Preferred(re, s, m) && Found(re, s, m.to, rest)
    requires forall i: nat :: pos <= i < m.from ==> Ends(re, s, i) == []
    ensures Found(re, s, pos, [m] + rest)
  {
    hide Ends;
    var spans := [m] + rest;
    assert spans[1..] == rest;
    forall k | 0 <= k < |spans| ensures Preferred(re, s, spans[k]) {
    }
    forall i: nat | pos <= i <= |s| && Ends(re, s, i) != [] ensures Covered(spans, i) {
      if i < m.to {
        assert spans[0].from <= i < spans[0].to;
      } else {
        var k :| 0 <= k < |rest| && rest[k].from <= i < rest[k].to;
        assert spans[k + 1] == rest[k];
      }
    }
  }

  /** How many of the matches change. */
  function Changed(s: string, spans: seq<Span>, f: Span -> string): nat
  {
    if spans == [] then 0 else (if f(spans[0]) == Cut(s, spans[0]) then 0 else 1) + Changed(s, spans[1..], f)
  }

  /** `out` is `s` with every match of `re` replaced by a text that `goes` in for it, `n` of them by another text. */
  ghost predicate Rewrites(re: Re, s: string, out: string, goes: (Span, string) -> bool, n: int)
  {
    exists spans: seq<Span>, f: Span -> string :: RewritesBy(re, s, out, goes, n, spans, f)
  }

  ghost predicate RewritesBy(re: Re, s: string, out: string, goes: (Span, string) -> bool, n: int, spans: seq<Span>, f: Span -> string)
  {
    && Found(re, s, 0, spans) && out == Splice(s, spans, 0, f) && n == Changed(s, spans, f)
    && forall k :: 0 <= k < |spans| ==> goes(spans[k], f(spans[k]))
  }

  lemma Rewriting(re: Re, s: string, f: Span -> string, goes: (Span, string) -> bool)
    requires Width(re) > 0
    requires forall m: Span :: Preferred(re, s, m) ==> goes(m, f(m))
    ensures Rewrites(re, s, ReplaceAll(re, s, f), goes, Changed(s, Matches(re, s, 0), f))
  {
    hide Found, Preferred, Matches, Splice, Changed;
    Unfolded(re, s, f);
    MatchesFound(re, s, 0);
    var spans := Matches(re, s, 0);
    AllPreferred(re, s, spans);
    assert RewritesBy(re, s, ReplaceAll(re, s, f), goes, Changed(s, spans, f), spans, f);
  }

  lemma {:induction false} AllChange(s: string, spans: seq<Span>, f: Span -> string)
    requires forall k :: 0 <= k < |spans| ==> f(spans[k]) != Cut(s, spans[k])
    ensures Changed(s, spans, f) == |spans|
  {
    if spans != [] {
      AllChange(s, spans[1..], f);
    }
  }

  /** A pass that changes whatever it finds. */
  lemma Changing(re: Re, s: string, f: Span -> string, goes: (Span, string) -> bool)
    requires Width(re) > 0
    requires forall m: Span :: Preferred(re, s, m) ==> goes(m, f(m)) && f(m) != Cut(s, m)
    ensures Rewrites(re, s, ReplaceAll(re, s, f), goes, |Matches(re, s, 0)|)
  {
    hide Found, Preferred, Matches, Splice, Changed, Rewrites, ReplaceAll;
    Rewriting(re, s, f, goes);
    MatchesFound(re, s, 0);
    AllPreferred(re, s, Matches(re, s, 0));
    AllChange(s, Matches(re, s, 0), f);
  }

  lemma AllPreferred(re: Re, s: string, spans: seq<Span>)
    requires Found(re, s, 0, spans)
    ensures forall k :: 0 <= k < |spans| ==> Preferred(re, s, spans[k])
  {
  }

  // ---------------------------------------------------------------- what may go in for a match

  ghost function Label(text: string): (Span, string) -> bool { (m: Span, r: string) => r == text }

  ghost function Phones(s: string, full: bool): (Span, string) -> bool { (m: Span, r: string) => PhoneGoes(full, Cut(s, m), r) }

  ghost function Emails(s: string, full: bool): (Span, string) -> bool { (m: Span, r: string) => EmailGoes(full, Cut(s, m), r) }

  /** A date that stands alone stays, unless dates are not kept or birth-date wording precedes it. */
  ghost predicate DateStays(s: string, m: Span, preserveDates: bool, birth: (string, nat) -> bool)
  {
    && preserveDates && IsCalendarDate(Cut(s, m)) && !birth(s, m.from)
    && !(0 < m.from <= |s| && IsDashOrDigit(s[m.from - 1])) && !(m.to < |s| && IsDashOrDigit(s[m.to]))
  }

  ghost function Accounts(s: string, preserveDates: bool, birth: (string, nat) -> bool): (Span, string) -> bool
  {
    (m: Span, r: string) => r == if DateStays(s, m, preserveDates, birth) then Cut(s, m) else TEXT_ACCOUNT
  }

  /** A chunk with a digit becomes one card mark; a chunk of marks alone stays. */
  ghost function Chunks(s: string): (Span, string) -> bool
  {
    (m: Span, r: string) => r == if exists k :: m.from <= k < m.to <= |s| && IsDigit(s[k]) then [MARK_CARD] else Cut(s, m)
  }

  ghost function Spellings(s: string): (Span, string) -> bool
  {
    (m: Span, r: string) => r == if Cut(s, m) == [MARK_RRN] then TEXT_RRN else TEXT_CARD
  }

  lemma PhoneFits(s: string, m: Span, full: bool)
    requires Preferred(Phone(), s, m)
    ensures var r := if full then TEXT_PHONE else MaskPhone(Cut(s, m)); PhoneGoes(full, Cut(s, m), r) && r != Cut(s, m)
  {
    hide Phone, Ends, MaskPhone, AllDigits;
    PhoneTaken(s, m.from, m.to);
    PhoneGone(s, m.from, m.to, full);
    BeginsWithDigit(s, m);
  }

  lemma EmailFits(s: string, m: Span, full: bool)
    requires Preferred(Email(), s, m)
    ensures var r := if full then TEXT_EMAIL else MaskEmail(Cut(s, m)); EmailGoes(full, Cut(s, m), r) && r != Cut(s, m)
  {
    hide Email, Ends, MaskEmail;
    EmailTaken(s, m.from, m.to);
    EmailGone(s, m.from, m.to, full);
    var at: nat, dot: nat :| IsEmailAround(s, m.from, at, dot, m.to);
    assert IsLocal(s[m.from]) && Cut(s, m)[0] == s[m.from];
  }

  /** Every number that is looked for begins with a digit, and no label does. */
  lemma BeginsWithDigit(s: string, m: Span)
    requires m.from <= m.to <= |s|
    requires IsRrn(s, m.from, m.to) || IsCard(s, m.from, m.to) || IsPhone(s, m.from, m.to) || IsAccount(s, m.from, m.to)
      || IsLong(s, m.from, m.to) || IsAmex(s, m.from, m.to)
    ensures Cut(s, m) != [] && IsDigit(Cut(s, m)[0])
  {
    hide IsMobile, IsLandline;
    if IsPhone(s, m.from, m.to) {
      PhoneIsNumbers(s, m.from, m.to);
      PhoneStarts(s, m.from, m.to);
    }
  }

  lemma PhoneStarts(s: string, i: nat, e: nat)
    requires IsPhone(s, i, e)
    ensures i < e <= |s| && s[i] == '0'
  {
    PhoneBounds(s, i, e);
  }

  lemma NumberFits(re: Re, s: string, m: Span, r: string)
    requires re == Rrn() || re == Card() || re == Account() || re == Long() || re == Amex()
    requires Preferred(re, s, m) && (r == [] || !IsDigit(r[0]))
    ensures r != Cut(s, m)
  {
    hide Rrn, Card, Account, Long, Amex, Ends, IsRrn, IsCard, IsAccount, IsLong, IsAmex, IsPhone, Cut;
    RrnTaken(s, m.from, m.to);
    CardTaken(s, m.from, m.to);
    AccountTaken(s, m.from, m.to);
    LongTaken(s, m.from, m.to);
    AmexTaken(s, m.from, m.to);
    BeginsWithDigit(s, m);
  }

  // ---------------------------------------------------------------- the passes together

  /** How many matches of each kind have been hidden. */
  datatype Hits = Hits(rrn: int, card: int, phone: int, account: int, email: int)

  ghost predicate FiveVia(text: string, marks: bool, full: bool, preserveDates: bool, birth: (string, nat) -> bool, out: string,
                          hits: Hits, a: string, b: string, c: string, d: string)
  {
    && Rewrites(Rrn(), text, a, Label(if marks then [MARK_RRN] else TEXT_RRN), hits.rrn)
    && Rewrites(Card(), a, b, Label(if marks then [MARK_CARD] else TEXT_CARD), hits.card)
    && Rewrites(Phone(), b, c, Phones(b, full), hits.phone)
    && Rewrites(Account(), c, d, Accounts(c, preserveDates, birth), hits.account)
    && Rewrites(Email(), d, out, Emails(d, full), hits.email)
  }

  /** Resident numbers, cards, phone numbers, accounts and e-mail addresses are hidden in this order, each where the pass
      before has left it. */
  ghost predicate FiveHide(text: string, marks: bool, full: bool, preserveDates: bool, birth: (string, nat) -> bool, out: string, hits: Hits)
  {
    exists a, b, c, d :: FiveVia(text, marks, full, preserveDates, birth, out, hits, a, b, c, d)
  }

  ghost predicate ReinforcesVia(s: string, out: string, a: string, b: string, k: int, l: int, m: int)
  {
    && Rewrites(Chunk(), s, a, Chunks(s), k)
    && Rewrites(Long(), a, b, Label([MARK_CARD]), l)
    && Rewrites(Amex(), b, out, Label([MARK_CARD]), m)
  }

  /** Digits that touch a mark, then long runs, then the spaced form of one brand become card marks. */
  ghost predicate Reinforces(s: string, out: string) { exists a, b, k, l, m :: ReinforcesVia(s, out, a, b, k, l, m) }

  /** The marks are spelled out. */
  ghost predicate Spells(s: string, out: string) { exists n :: Rewrites(One(IsMark), s, out, Spellings(s), n) }
}
