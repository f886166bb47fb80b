/** What each masking expression takes for private data, and what a replacement leaves of it (packages/pii-mask/src/index.ts). */
module MaskShapes {
  import opened Prelude
  import opened Texts
  import opened Regex
  import opened Languages
  import opened EmailScan
  import opened MaskRules

  // ---------------------------------------------------------------- the first part of an expression

  lemma ClassThen(chars: char -> bool, lo: nat, hi: Option<nat>, b: Re, s: string, i: nat, e: nat)
    ensures Accepts(Cat(Rep(chars, lo, hi), b), s, i, e)
       <==> exists m: nat :: AllIn(chars, s, i, m) && lo <= m - i && (hi.Some? ==> m - i <= hi.value) && Accepts(b, s, m, e)
  {
    AcceptedForward(b, s, e);
    forall m: nat ensures Accepts(Rep(chars, lo, hi), s, i, m)
      <==> AllIn(chars, s, i, m) && lo <= m - i && (hi.Some? ==> m - i <= hi.value) {
    }
  }

  lemma AcceptedForward(re: Re, s: string, e: nat)
    ensures forall i: nat :: Accepts(re, s, i, e) ==> i <= e <= |s|
  {
  }

  lemma JustSoMany(chars: char -> bool, n: nat, b: Re, s: string, i: nat, e: nat)
    ensures Accepts(Cat(Rep(chars, n, Some(n)), b), s, i, e) <==> AllIn(chars, s, i, i + n) && Accepts(b, s, i + n, e)
  {
    ClassThen(chars, n, Some(n), b, s, i, e);
  }

  lemma MaybeOne(chars: char -> bool, b: Re, s: string, i: nat, e: nat)
    ensures Accepts(Cat(Rep(chars, 0, Some(1)), b), s, i, e)
       <==> Accepts(b, s, i, e) || (AllIn(chars, s, i, i + 1) && Accepts(b, s, i + 1, e))
  {
    hide Accepts;
    ClassThen(chars, 0, Some(1), b, s, i, e);
    AcceptedForward(b, s, e);
    assert Accepts(b, s, i, e) ==> AllIn(chars, s, i, i) by { AcceptsBounds(b, s, i, e); }
  }

  lemma AcceptsBounds(re: Re, s: string, i: nat, e: nat)
    ensures Accepts(re, s, i, e) ==> i <= e <= |s|
  {
  }

  lemma TextThen(text: string, b: Re, s: string, i: nat, e: nat)
    ensures Accepts(Cat(Lit(text), b), s, i, e) <==> i + |text| <= |s| && s[i..i + |text|] == text && Accepts(b, s, i + |text|, e)
  {
    forall m: nat ensures Accepts(Lit(text), s, i, m) <==> m == i + |text| <= |s| && s[i..m] == text {
    }
  }

  // ---------------------------------------------------------------- what the expressions take

  ghost predicate Number(s: string, i: nat, j: nat, lo: nat, hi: nat)
  {
    i + lo <= j <= i + hi && AllIn(IsDigit, s, i, j)
  }

  predicate Stands(s: string, k: nat, c: char) { k < |s| && s[k] == c }

  function AfterDash(s: string, k: nat): nat { if Stands(s, k, '-') then k + 1 else k }

  /** Six digits, a dash or none, a century digit, six digits. */
  ghost predicate IsRrn(s: string, i: nat, e: nat)
  {
    var j := AfterDash(s, i + 6);
    Number(s, i, i + 6, 6, 6) && j < |s| && IsCentury(s[j]) && Number(s, j + 1, e, 6, 6)
  }

  lemma RrnTaken(s: string, i: nat, e: nat)
    requires i <= |s|
    ensures e in Ends(Rrn(), s, i) <==> IsRrn(s, i, e)
  {
    hide Accepts, Ends;
    EndsAreAccepted(Rrn(), s, i, e);
    var last := Digits(6, 6);
    var back := Cat(One(IsCentury), last);
    JustSoMany(IsDigit, 6, Cat(DashMaybe(), back), s, i, e);
    MaybeOne(IsDash, back, s, i + 6, e);
    JustSoMany(IsCentury, 1, last, s, i + 6, e);
    JustSoMany(IsCentury, 1, last, s, i + 7, e);
    DigitsTaken(6, 6, s, i + 7, e);
    DigitsTaken(6, 6, s, i + 8, e);
  }

  lemma DigitsTaken(lo: nat, hi: nat, s: string, i: nat, e: nat)
    ensures Accepts(Digits(lo, hi), s, i, e) <==> Number(s, i, e, lo, hi)
  {
  }

  function AfterGap(s: string, k: nat): nat { if k < |s| && IsDashOrSpace(s[k]) then k + 1 else k }

  /** Four digits three times and two to four digits, each group apart by a dash, a space or nothing; neither a digit nor
      a dash comes next. */
  ghost predicate IsCard(s: string, i: nat, e: nat)
  {
    var b := AfterGap(s, i + 4);
    var c := AfterGap(s, b + 4);
    var d := AfterGap(s, c + 4);
    && Number(s, i, i + 4, 4, 4) && Number(s, b, b + 4, 4, 4) && Number(s, c, c + 4, 4, 4) && Number(s, d, e, 2, 4)
    && !(e < |s| && IsDashOrDigit(s[e]))
  }

  function Gap(): Re { Rep(IsDashOrSpace, 0, Some(1)) }

  function LastFour(): Re { Cat(Digits(2, 4), NotAhead(IsDashOrDigit)) }

  lemma GroupAhead(b: Re, s: string, i: nat, e: nat)
    requires Accepts(b, s, i, e) ==> i < |s| && IsDigit(s[i])
    ensures Accepts(Cat(Gap(), b), s, i, e) <==> Accepts(b, s, AfterGap(s, i), e)
  {
    hide Accepts;
    MaybeOne(IsDashOrSpace, b, s, i, e);
  }

  lemma LastFourTaken(s: string, i: nat, e: nat)
    ensures Accepts(LastFour(), s, i, e) <==> Number(s, i, e, 2, 4) && !(e < |s| && IsDashOrDigit(s[e]))
  {
    hide Accepts;
    ClassThen(IsDigit, 2, Some(4), NotAhead(IsDashOrDigit), s, i, e);
    NotAheadTaken(IsDashOrDigit, s, e);
  }

  lemma NotAheadTaken(ahead: char -> bool, s: string, e: nat)
    ensures forall m: nat :: Accepts(NotAhead(ahead), s, m, e) <==> m == e <= |s| && !(e < |s| && ahead(s[e]))
  {
  }

  lemma FourThen(b: Re, s: string, i: nat, e: nat)
    ensures Accepts(Cat(Digits(4, 4), b), s, i, e) <==> Number(s, i, i + 4, 4, 4) && Accepts(b, s, i + 4, e)
  {
    hide Accepts;
    JustSoMany(IsDigit, 4, b, s, i, e);
  }

  lemma CardTaken(s: string, i: nat, e: nat)
    requires i <= |s|
    ensures e in Ends(Card(), s, i) <==> IsCard(s, i, e)
  {
    hide Accepts, Ends, Gap, LastFour;
    EndsAreAccepted(Card(), s, i, e);
    var third := Cat(Digits(4, 4), Cat(Gap(), LastFour()));
    var second := Cat(Digits(4, 4), Cat(Gap(), third));
    assert Card() == Cat(Digits(4, 4), Cat(Gap(), second)) by { CardParts(); }
    FourThen(Cat(Gap(), second), s, i, e);
    forall k: nat ensures Accepts(Cat(Gap(), second), s, k, e) <==> Accepts(second, s, AfterGap(s, k), e) {
      FourThen(Cat(Gap(), third), s, k, e);
      GroupAhead(second, s, k, e);
    }
    var b := AfterGap(s, i + 4);
    FourThen(Cat(Gap(), third), s, b, e);
    FourThen(Cat(Gap(), LastFour()), s, b + 4, e);
    FourThen(Cat(Gap(), LastFour()), s, b + 5, e);
    GroupAhead(third, s, b + 4, e);
    var c := AfterGap(s, b + 4);
    FourThen(Cat(Gap(), LastFour()), s, c, e);
    LastFourTaken(s, c + 4, e);
    LastFourTaken(s, c + 5, e);
    GroupAhead(LastFour(), s, c + 4, e);
  }

  lemma CardParts()
    ensures Card() == Cat(Digits(4, 4), Cat(Gap(), Cat(Digits(4, 4), Cat(Gap(), Cat(Digits(4, 4), Cat(Gap(), LastFour()))))))
  {
  }

  lemma CharThen(c: char, b: Re, s: string, i: nat, e: nat)
    ensures Accepts(Cat(Lit([c]), b), s, i, e) <==> Stands(s, i, c) && Accepts(b, s, i + 1, e)
  {
    hide Accepts;
    TextThen([c], b, s, i, e);
    if i < |s| {
      assert s[i..i + 1] == [s[i]];
    }
  }

  lemma NumberThen(lo: nat, hi: nat, b: Re, s: string, i: nat, e: nat)
    ensures Accepts(Cat(Digits(lo, hi), b), s, i, e) <==> exists m: nat :: Number(s, i, m, lo, hi) && Accepts(b, s, m, e)
  {
    hide Accepts;
    ClassThen(IsDigit, lo, Some(hi), b, s, i, e);
    if m: nat :| AllIn(IsDigit, s, i, m) && lo <= m - i <= hi && Accepts(b, s, m, e) {
      assert Number(s, i, m, lo, hi);
    }
  }

  /** A dash or none, then four digits. */
  lemma LineTaken(s: string, m: nat, e: nat)
    ensures Accepts(Cat(DashMaybe(), Digits(4, 4)), s, m, e) <==> Number(s, AfterDash(s, m), e, 4, 4)
  {
    hide Accepts;
    MaybeOne(IsDash, Digits(4, 4), s, m, e);
    DigitsTaken(4, 4, s, m, e);
    DigitsTaken(4, 4, s, m + 1, e);
  }

  /** `01`, a carrier digit, three or four digits and four digits, each group apart by a dash or nothing. */
  ghost predicate IsMobile(s: string, i: nat, e: nat)
  {
    && Stands(s, i, '0') && Stands(s, i + 1, '1') && i + 2 < |s| && IsCarrier(s[i + 2])
    && exists m: nat :: Number(s, AfterDash(s, i + 3), m, 3, 4) && Number(s, AfterDash(s, m), e, 4, 4)
  }

  lemma MobileTaken(s: string, i: nat, e: nat)
    ensures Accepts(Mobile(), s, i, e) <==> IsMobile(s, i, e)
  {
    hide Accepts, Number;
    var line := Cat(DashMaybe(), Digits(4, 4));
    var rest := Cat(Digits(3, 4), line);
    TextThen("01", Cat(One(IsCarrier), Cat(DashMaybe(), rest)), s, i, e);
    if i + 2 <= |s| {
      assert s[i..i + 2] == [s[i], s[i + 1]];
    }
    JustSoMany(IsCarrier, 1, Cat(DashMaybe(), rest), s, i + 2, e);
    MaybeOne(IsDash, rest, s, i + 3, e);
    forall m: nat ensures Accepts(line, s, m, e) <==> Number(s, AfterDash(s, m), e, 4, 4) {
      LineTaken(s, m, e);
    }
    forall k: nat ensures Accepts(rest, s, k, e) <==> exists m: nat :: Number(s, k, m, 3, 4) && Number(s, AfterDash(s, m), e, 4, 4) {
      NumberThen(3, 4, line, s, k, e);
    }
    NoNumberAtDash(s, i + 3);
  }

  lemma NoNumberAtDash(s: string, i: nat)
    ensures Stands(s, i, '-') ==> forall m: nat :: !Number(s, i, m, 3, 4)
  {
  }

  /** `0` and one or two digits, three or four digits, four digits, dashes between. */
  ghost predicate IsLandline(s: string, i: nat, e: nat)
  {
    && Stands(s, i, '0')
    && exists a: nat, b: nat :: Number(s, i + 1, a, 1, 2) && Dashed(s, a, b, 3, 4) && Dashed(s, b, e, 4, 4)
  }

  /** A dash and a number of `lo` to `hi` digits. */
  ghost predicate Dashed(s: string, i: nat, e: nat, lo: nat, hi: nat)
  {
    Stands(s, i, '-') && Number(s, i + 1, e, lo, hi)
  }

  lemma DashedThen(lo: nat, hi: nat, b: Re, s: string, i: nat, e: nat)
    ensures Accepts(Cat(Lit("-"), Cat(Digits(lo, hi), b)), s, i, e)
       <==> exists m: nat :: Dashed(s, i, m, lo, hi) && Accepts(b, s, m, e)
  {
    hide Accepts, Number;
    CharThen('-', Cat(Digits(lo, hi), b), s, i, e);
    NumberThen(lo, hi, b, s, i + 1, e);
    forall m: nat ensures Dashed(s, i, m, lo, hi) <==> Stands(s, i, '-') && Number(s, i + 1, m, lo, hi) {
    }
  }

  lemma DashedLast(lo: nat, hi: nat, s: string, i: nat, e: nat)
    ensures Accepts(Cat(Lit("-"), Digits(lo, hi)), s, i, e) <==> Dashed(s, i, e, lo, hi)
  {
    hide Accepts;
    CharThen('-', Digits(lo, hi), s, i, e);
    DigitsTaken(lo, hi, s, i + 1, e);
  }

  lemma LandlineTaken(s: string, i: nat, e: nat)
    ensures Accepts(Landline(), s, i, e) <==> IsLandline(s, i, e)
  {
    hide Accepts, Number, Dashed;
    var last := Cat(Lit("-"), Digits(4, 4));
    var middle := Cat(Lit("-"), Cat(Digits(3, 4), last));
    TextThen("0", Cat(Digits(1, 2), middle), s, i, e);
    if i < |s| {
      assert s[i..i + 1] == [s[i]];
    }
    NumberThen(1, 2, middle, s, i + 1, e);
    forall a: nat ensures Accepts(middle, s, a, e) <==> exists b: nat :: Dashed(s, a, b, 3, 4) && Dashed(s, b, e, 4, 4) {
      DashedThen(3, 4, last, s, a, e);
      forall b: nat ensures Accepts(last, s, b, e) <==> Dashed(s, b, e, 4, 4) {
        DashedLast(4, 4, s, b, e);
      }
    }
  }

  ghost predicate IsPhone(s: string, i: nat, e: nat) { IsMobile(s, i, e) || IsLandline(s, i, e) }

  lemma PhoneTaken(s: string, i: nat, e: nat)
    requires i <= |s|
    ensures e in Ends(Phone(), s, i) <==> IsPhone(s, i, e)
  {
    hide Mobile, Landline, IsMobile, IsLandline, Ends;
    EndsAreAccepted(Phone(), s, i, e);
    MobileTaken(s, i, e);
    LandlineTaken(s, i, e);
    AcceptsBounds(Mobile(), s, i, e);
    AcceptsBounds(Landline(), s, i, e);
  }

  /** Three numbers of two to six digits with dashes between, and one more of up to six digits or none. */
  ghost predicate IsAccount(s: string, i: nat, e: nat)
  {
    exists a: nat, b: nat, c: nat ::
      && Number(s, i, a, 2, 6) && Dashed(s, a, b, 2, 6) && Dashed(s, b, c, 2, 6)
      && (c == e || Dashed(s, c, e, 1, 6))
  }

  lemma OptionalLast(s: string, c: nat, e: nat)
    ensures Accepts(Optional(Cat(Lit("-"), Digits(1, 6))), s, c, e) <==> (c == e <= |s|) || Dashed(s, c, e, 1, 6)
  {
    hide Accepts, Dashed;
    DashedLast(1, 6, s, c, e);
    EitherTaken(Cat(Lit("-"), Digits(1, 6)), Lit(""), s, c, e);
    NothingTaken(s, c, e);
  }

  lemma EitherTaken(a: Re, b: Re, s: string, i: nat, e: nat)
    ensures Accepts(Or(a, b), s, i, e) <==> Accepts(a, s, i, e) || Accepts(b, s, i, e)
  {
    AcceptsBounds(a, s, i, e);
    AcceptsBounds(b, s, i, e);
  }

  lemma NothingTaken(s: string, i: nat, e: nat)
    ensures Accepts(Lit(""), s, i, e) <==> i == e <= |s|
  {
  }

  lemma AccountTaken(s: string, i: nat, e: nat)
    requires i <= |s|
    ensures e in Ends(Account(), s, i) <==> IsAccount(s, i, e)
  {
    hide Accepts, Number, Dashed, Ends, Optional;
    EndsAreAccepted(Account(), s, i, e);
    var last := Optional(Cat(Lit("-"), Digits(1, 6)));
    var third := Cat(Lit("-"), Cat(Digits(2, 6), last));
    var second := Cat(Lit("-"), Cat(Digits(2, 6), third));
    NumberThen(2, 6, second, s, i, e);
    forall a: nat ensures Accepts(second, s, a, e) <==> exists b: nat :: Dashed(s, a, b, 2, 6) && Accepts(third, s, b, e) {
      DashedThen(2, 6, third, s, a, e);
    }
    forall b: nat ensures Accepts(third, s, b, e)
      <==> exists c: nat :: Dashed(s, b, c, 2, 6) && (c == e || Dashed(s, c, e, 1, 6)) {
      DashedThen(2, 6, last, s, b, e);
      forall c: nat ensures Accepts(last, s, c, e) <==> (c == e <= |s|) || Dashed(s, c, e, 1, 6) {
        OptionalLast(s, c, e);
      }
      DashedBounds(s, b, 2, 6);
    }
  }

  lemma DashedBounds(s: string, b: nat, lo: nat, hi: nat)
    ensures forall c: nat :: Dashed(s, b, c, lo, hi) ==> c <= |s|
  {
  }

  predicate DigitBefore(s: string, i: nat) { 0 < i <= |s| && IsDigit(s[i - 1]) }

  predicate DigitAt(s: string, e: nat) { e < |s| && IsDigit(s[e]) }

  /** Fourteen digits or more that no digit stands beside. */
  ghost predicate IsLong(s: string, i: nat, e: nat)
  {
    AllIn(IsDigit, s, i, e) && e - i >= 14 && !DigitBefore(s, i) && !DigitAt(s, e)
  }

  lemma NotBehindThen(behind: char -> bool, b: Re, s: string, i: nat, e: nat)
    ensures Accepts(Cat(NotBehind(behind), b), s, i, e) <==> !(0 < i <= |s| && behind(s[i - 1])) && Accepts(b, s, i, e)
  {
    AcceptsBounds(b, s, i, e);
    forall m: nat ensures Accepts(NotBehind(behind), s, i, m) <==> m == i <= |s| && !(i > 0 && behind(s[i - 1])) {
    }
  }

  lemma LongTaken(s: string, i: nat, e: nat)
    requires i <= |s|
    ensures e in Ends(Long(), s, i) <==> IsLong(s, i, e)
  {
    hide Accepts, Ends;
    EndsAreAccepted(Long(), s, i, e);
    NotBehindThen(IsDigit, Cat(Rep(IsDigit, 14, None), NotAhead(IsDigit)), s, i, e);
    ClassThen(IsDigit, 14, None, NotAhead(IsDigit), s, i, e);
    NotAheadTaken(IsDigit, s, e);
  }

  /** Four, six and five digits with single spaces between, no digit beside them. */
  ghost predicate IsAmex(s: string, i: nat, e: nat)
  {
    && e == i + 17 <= |s| && AllIn(IsDigit, s, i, i + 4) && s[i + 4] == ' ' && AllIn(IsDigit, s, i + 5, i + 11)
    && s[i + 11] == ' ' && AllIn(IsDigit, s, i + 12, e) && !DigitBefore(s, i) && !DigitAt(s, e)
  }

  lemma AmexTaken(s: string, i: nat, e: nat)
    requires i <= |s|
    ensures e in Ends(Amex(), s, i) <==> IsAmex(s, i, e)
  {
    hide Accepts, Ends;
    EndsAreAccepted(Amex(), s, i, e);
    var last := Cat(Digits(5, 5), NotAhead(IsDigit));
    var middle := Cat(Digits(6, 6), Cat(Lit(" "), last));
    NotBehindThen(IsDigit, Cat(Digits(4, 4), Cat(Lit(" "), middle)), s, i, e);
    JustSoMany(IsDigit, 4, Cat(Lit(" "), middle), s, i, e);
    CharThen(' ', middle, s, i + 4, e);
    JustSoMany(IsDigit, 6, Cat(Lit(" "), last), s, i + 5, e);
    CharThen(' ', last, s, i + 11, e);
    JustSoMany(IsDigit, 5, NotAhead(IsDigit), s, i + 12, e);
    NotAheadTaken(IsDigit, s, e);
  }

  /** Local characters, `@` at `at`, domain characters, a dot at `dot` and two letters or more. */
  ghost predicate IsEmailAround(s: string, i: nat, at: nat, dot: nat, e: nat)
  {
    && i < at && at + 1 < dot && dot + 3 <= e && AllIn(IsLocal, s, i, at) && Stands(s, at, '@')
    && AllIn(IsDomain, s, at + 1, dot) && Stands(s, dot, '.') && AllIn(IsLetter, s, dot + 1, e)
  }

  ghost predicate IsEmail(s: string, i: nat, e: nat) { exists at: nat, dot: nat :: IsEmailAround(s, i, at, dot, e) }

  lemma LettersTaken(s: string, i: nat, e: nat)
    ensures Accepts(Rep(IsLetter, 2, None), s, i, e) <==> AllIn(IsLetter, s, i, e) && i + 2 <= e
  {
  }

  lemma EmailTaken(s: string, i: nat, e: nat)
    requires i <= |s|
    ensures e in Ends(Email(), s, i) <==> IsEmail(s, i, e)
  {
    hide Accepts, Ends;
    EndsAreAccepted(Email(), s, i, e);
    var ending := Cat(Lit("."), Rep(IsLetter, 2, None));
    ClassThen(IsLocal, 1, None, Tail(), s, i, e);
    forall at: nat ensures Accepts(Tail(), s, at, e)
      <==> Stands(s, at, '@') && exists dot: nat :: AllIn(IsDomain, s, at + 1, dot) && at + 1 < dot && Accepts(ending, s, dot, e) {
      CharThen('@', Cat(Rep(IsDomain, 1, None), ending), s, at, e);
      ClassThen(IsDomain, 1, None, ending, s, at + 1, e);
    }
    forall dot: nat ensures Accepts(ending, s, dot, e) <==> Stands(s, dot, '.') && AllIn(IsLetter, s, dot + 1, e) && dot + 3 <= e {
      CharThen('.', Rep(IsLetter, 2, None), s, dot, e);
      LettersTaken(s, dot + 1, e);
    }
    hide AllIn, Stands;
    if at: nat, dot: nat :| IsEmailAround(s, i, at, dot, e) {
      assert Accepts(Tail(), s, at, e);
    }
    if Accepts(Email(), s, i, e) {
      var at: nat :| AllIn(IsLocal, s, i, at) && 1 <= at - i && Accepts(Tail(), s, at, e);
      var dot: nat :| AllIn(IsDomain, s, at + 1, dot) && at + 1 < dot && Accepts(ending, s, dot, e);
      assert IsEmailAround(s, i, at, dot, e);
    }
  }
}
