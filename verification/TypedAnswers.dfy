/** What a text typed in answer to a survey question means, said without the code that judges it
    (packages/shared-types/src/survey-logic.ts). */
module TypedAnswers {
  import opened Prelude
  import opened Texts
  import opened Dialogue
  import opened SurveyAnswers

  // ---------------------------------------------------------------- numbers

  predicate AllSpaces(s: string) { forall k :: 0 <= k < |s| ==> IsSpace(s[k]) }

  /** The value of one or two digits. */
  function NumberOf(digits: string): nat
    requires AllDigits(digits) && 1 <= |digits| <= 2
  {
    if |digits| == 1 then DigitValue(digits[0]) else 10 * DigitValue(digits[0]) + DigitValue(digits[1])
  }

  ghost predicate WritesNumberWith(t: string, n: nat, digits: string, spaces: string, unit: string, dot: string)
  {
    && t == digits + spaces + unit + dot && AllDigits(digits) && 1 <= |digits| <= 2 && n == NumberOf(digits)
    && AllSpaces(spaces) && (unit == "" || unit == "번") && (dot == "" || dot == ".")
  }

  /** One or two digits, spaces, `번` or nothing, a full stop or nothing. */
  ghost predicate WritesNumber(t: string, n: nat)
  {
    exists digits, spaces, unit, dot :: WritesNumberWith(t, n, digits, spaces, unit, dot)
  }

  function Spaces(s: string): (r: string)
    ensures AllSpaces(r) && s == r + DropSpaces(s)
    ensures DropSpaces(s) == [] || !IsSpace(DropSpaces(s)[0])
  {
    if s != [] && IsSpace(s[0]) then [s[0]] + Spaces(s[1..]) else []
  }

  lemma {:induction false} DropsSpaces(spaces: string, rest: string)
    requires AllSpaces(spaces) && (rest == [] || !IsSpace(rest[0]))
    ensures DropSpaces(spaces + rest) == rest
  {
    if spaces == [] {
      assert spaces + rest == rest;
    } else {
      assert (spaces + rest)[1..] == spaces[1..] + rest;
      DropsSpaces(spaces[1..], rest);
    }
  }

  lemma DigitsLead(digits: string, rest: string)
    requires AllDigits(digits) && 1 <= |digits| <= 2 && (|digits| == 2 || rest == [] || !IsDigit(rest[0]))
    ensures LeadingNumber(digits + rest) == Some((NumberOf(digits), rest))
  {
    var s := digits + rest;
    assert s[|digits|..] == rest;
    if |digits| == 2 {
      assert s[1] == digits[1];
    } else if rest != [] {
      assert s[1] == rest[0];
    }
  }

  lemma LeadIs(s: string)
    requires LeadingNumber(s).Some?
    ensures var (n, rest) := LeadingNumber(s).value;
      var digits := s[..|s| - |rest|];
      && |rest| < |s| && s == digits + rest && AllDigits(digits) && 1 <= |digits| <= 2 && n == NumberOf(digits)
      && (|digits| == 2 || rest == [] || !IsDigit(rest[0]))
  {
  }

  lemma OrdinalIff(t: string, n: nat)
    ensures OrdinalNumber(t) == Some(n) <==> WritesNumber(t, n)
  {
    if OrdinalNumber(t) == Some(n) {
      OrdinalIsWritten(t, n);
    }
    if digits, spaces, unit, dot :| WritesNumberWith(t, n, digits, spaces, unit, dot) {
      WrittenIsOrdinal(t, n, digits, spaces, unit, dot);
    }
  }

  /** What may follow the digits and spaces. */
  lemma TailIsWritten(tail: string) returns (unit: string, dot: string)
    requires var afterUnit := if tail != [] && tail[0] == '번' then tail[1..] else tail;
      (if afterUnit != [] && afterUnit[0] == '.' then afterUnit[1..] else afterUnit) == []
    ensures tail == unit + dot && (unit == "" || unit == "번") && (dot == "" || dot == ".")
  {
    unit := if tail != [] && tail[0] == '번' then "번" else "";
    dot := tail[|unit|..];
    if dot != [] {
      assert dot == [dot[0]] + dot[1..];
    }
  }

  lemma OrdinalIsWritten(t: string, n: nat)
    requires OrdinalNumber(t) == Some(n)
    ensures WritesNumber(t, n)
  {
    hide LeadingNumber, DropSpaces;
    LeadIs(t);
    var after := LeadingNumber(t).value.1;
    var digits := t[..|t| - |after|];
    var unit, dot := TailIsWritten(DropSpaces(after));
    WrittenParts(t, digits, after, Spaces(after), DropSpaces(after), unit, dot);
    hide OrdinalNumber, Spaces, NumberOf;
    assert WritesNumberWith(t, n, digits, Spaces(after), unit, dot);
  }

  lemma WrittenParts(t: string, digits: string, after: string, spaces: string, tail: string, unit: string, dot: string)
    requires t == digits + after && after == spaces + tail && tail == unit + dot
    ensures t == digits + spaces + unit + dot
  {
  }

  lemma WrittenIsOrdinal(t: string, n: nat, digits: string, spaces: string, unit: string, dot: string)
    requires WritesNumberWith(t, n, digits, spaces, unit, dot)
    ensures OrdinalNumber(t) == Some(n)
  {
    hide LeadingNumber, DropSpaces, NumberOf;
    var tail := unit + dot;
    assert t == digits + (spaces + tail);
    assert spaces != [] ==> (spaces + tail)[0] == spaces[0];
    DigitsLead(digits, spaces + tail);
    DropsSpaces(spaces, tail);
    assert unit != [] ==> tail[1..] == dot;
    assert unit == [] ==> tail == dot;
  }

  /** Every number below a hundred is written by its decimal digits, alone, with the unit, or with a full stop. */
  lemma DecimalWrites(n: nat, unit: string, dot: string)
    requires n < 100 && (unit == "" || unit == "번") && (dot == "" || dot == ".")
    ensures WritesNumber(Decimal(n) + unit + dot, n) && |Decimal(n)| <= 2
  {
    DecimalIsShort(n);
    assert Decimal(n) + unit + dot == Decimal(n) + "" + unit + dot;
    assert WritesNumberWith(Decimal(n) + unit + dot, n, Decimal(n), "", unit, dot);
  }

  lemma DecimalIsShort(n: nat)
    requires n < 100
    ensures |Decimal(n)| <= 2 && NumberOf(Decimal(n)) == n
  {
    if n >= 10 {
      assert Decimal(n / 10) == [DigitChar(n / 10)];
      assert Decimal(n) == [DigitChar(n / 10), DigitChar(n % 10)];
    }
  }

  // ---------------------------------------------------------------- what one token names

  ghost predicate NoLabel(lib: Lib, choices: seq<Choice>, token: string)
  {
    forall j :: 0 <= j < |choices| ==> lib.normalize(choices[j].caption) != lib.normalize(token)
  }

  /** The token is the label of choice `i`, the first with that label, or no label at all and the number of choice `i`,
      counted from one. */
  ghost predicate Names(lib: Lib, choices: seq<Choice>, token: string, i: nat): (b: bool)
    ensures b ==> i < |choices|
  {
    && i < |choices|
    && (|| (lib.normalize(choices[i].caption) == lib.normalize(token) && NoLabel(lib, choices[..i], token))
        || (NoLabel(lib, choices, token) && WritesNumber(Trim(token), i + 1)))
  }

  ghost predicate NamesNothing(lib: Lib, choices: seq<Choice>, token: string) { forall i: nat :: !Names(lib, choices, token, i) }

  lemma TokenNames(lib: Lib, choices: seq<Choice>, token: string, i: nat)
    requires Names(lib, choices, token, i)
    ensures ResolveToken(lib, choices, token) == Some(choices[i].key)
  {
    hide Trim, OrdinalNumber, WritesNumber;
    OrdinalIff(Trim(token), i + 1);
    var labelled := ByLabel(lib, choices, lib.normalize(token));
    if NoLabel(lib, choices, token) {
    } else {
      forall j | 0 <= j < i ensures lib.normalize(choices[j].caption) != lib.normalize(token) {
        assert choices[..i][j] == choices[j];
      }
      assert labelled == Some(i);
    }
  }

  lemma TokenNamesNothing(lib: Lib, choices: seq<Choice>, token: string)
    ensures ResolveToken(lib, choices, token).None? ==> NamesNothing(lib, choices, token)
    ensures ResolveToken(lib, choices, token).Some? ==> exists i: nat :: Names(lib, choices, token, i)
  {
    hide Trim, OrdinalNumber, WritesNumber;
    var labelled := ByLabel(lib, choices, lib.normalize(token));
    if labelled.Some? {
      assert Names(lib, choices, token, labelled.value);
    } else {
      var number := OrdinalNumber(Trim(token));
      forall n: nat ensures number == Some(n) <==> WritesNumber(Trim(token), n) {
        OrdinalIff(Trim(token), n);
      }
      if number.Some? && 1 <= number.value <= |choices| {
        assert Names(lib, choices, token, number.value - 1);
      }
    }
  }

  /** A token names at most one choice. */
  lemma NamesOne(lib: Lib, choices: seq<Choice>, token: string, i: nat, j: nat)
    requires Names(lib, choices, token, i) && Names(lib, choices, token, j)
    ensures i == j
  {
    hide Trim, WritesNumber;
    OrdinalIff(Trim(token), i + 1);
    OrdinalIff(Trim(token), j + 1);
  }

  // ---------------------------------------------------------------- the tokens of a text

  ghost predicate NoSeparator(s: string) { forall k :: 0 <= k < |s| ==> !IsSeparator(s[k]) }

  /** `pieces` are what lies between the separators of `t`. */
  ghost predicate CutInto(t: string, pieces: seq<string>)
    decreases |pieces|
  {
    && pieces != [] && NoSeparator(pieces[0])
    && (|pieces| == 1 ==> t == pieces[0])
    && (|pieces| > 1 ==>
          && |pieces[0]| < |t| && t[..|pieces[0]|] == pieces[0] && IsSeparator(t[|pieces[0]|])
          && CutInto(t[|pieces[0]| + 1..], pieces[1..]))
  }

  /** The pieces trimmed, the empty ones dropped. */
  function TrimmedPieces(pieces: seq<string>): seq<string>
  {
    if pieces == [] then []
    else (if Trim(pieces[0]) == [] then [] else [Trim(pieces[0])]) + TrimmedPieces(pieces[1..])
  }

  lemma {:induction false} PieceRuns(t: string, piece: string, k: nat)
    requires k <= |t| && NoSeparator(t[..k])
    ensures SplitTokens(t, piece) == SplitTokens(t[k..], piece + t[..k])
    decreases k
  {
    hide Trim;
    if k == 0 {
      assert piece + t[..0] == piece;
    } else {
      assert t[0] == t[..k][0];
      assert t[1..][..k - 1] == t[..k][1..];
      assert NoSeparator(t[1..][..k - 1]);
      PieceRuns(t[1..], piece + [t[0]], k - 1);
      assert t[1..][k - 1..] == t[k..];
      assert piece + [t[0]] + t[1..][..k - 1] == piece + t[..k];
    }
  }

  /** Cutting at separators gives exactly the trimmed pieces. */
  lemma {:induction false} PiecesAreCut(t: string, pieces: seq<string>)
    requires CutInto(t, pieces)
    ensures SplitTokens(t, []) == TrimmedPieces(pieces)
    decreases |pieces|
  {
    hide Trim;
    var p := pieces[0];
    assert t[..|p|] == p;
    PieceRuns(t, [], |p|);
    assert [] + p == p;
    if |pieces| == 1 {
      assert t[|p|..] == [] && pieces[1..] == [];
    } else {
      assert t[|p|..][1..] == t[|p| + 1..];
      PiecesAreCut(t[|p| + 1..], pieces[1..]);
    }
  }

  /** Every text can be cut so. */
  lemma {:induction false} CanBeCut(t: string) returns (pieces: seq<string>)
    ensures CutInto(t, pieces)
    decreases |t|
  {
    if t == [] {
      pieces := [[]];
    } else {
      var rest := CanBeCut(t[1..]);
      if IsSeparator(t[0]) {
        pieces := [[]] + rest;
        assert pieces[1..] == rest;
      } else {
        pieces := [[t[0]] + rest[0]] + rest[1..];
        assert pieces[1..] == rest[1..];
        if |rest| > 1 {
          var n := |rest[0]|;
          assert t[1..][..n] == rest[0];
          assert t[..n + 1] == [t[0]] + t[1..][..n];
          assert t[n + 2..] == t[1..][n + 1..];
        } else {
          assert t == [t[0]] + t[1..];
        }
      }
    }
  }

  /** `t` is the numbers `pieces` with spaces between them. */
  ghost predicate SpacedInto(t: string, pieces: seq<string>)
    decreases |pieces|
  {
    && pieces != [] && pieces[0] != [] && AllDigits(pieces[0])
    && (|pieces| == 1 ==> t == pieces[0])
    && (|pieces| > 1 ==> exists n: nat :: SpacedAfter(t, |pieces[0]|, n) && t[..|pieces[0]|] == pieces[0]
                                       && SpacedInto(t[|pieces[0]| + n..], pieces[1..]))
  }

  ghost predicate SpacedAfter(t: string, k: nat, n: nat): (b: bool)
    ensures b ==> k < k + n <= |t|
  {
    n > 0 && k + n <= |t| && AllSpaces(t[k..k + n])
  }

  lemma DigitIsNoSpace(c: char)
    ensures IsDigit(c) ==> !IsSpace(c) && !IsSeparator(c)
    ensures IsSpace(c) ==> !IsSeparator(c)
  {
  }

  lemma {:induction false} WordRuns(t: string, word: string, k: nat)
    requires k <= |t| && forall i :: 0 <= i < k ==> !IsSpace(t[i])
    ensures SplitAtSpaces(t, word) == SplitAtSpaces(t[k..], word + t[..k])
    decreases k
  {
    if k == 0 {
      assert word + t[..0] == word;
    } else {
      WordRuns(t[1..], word + [t[0]], k - 1);
      assert t[1..][k - 1..] == t[k..];
      assert word + [t[0]] + t[1..][..k - 1] == word + t[..k];
    }
  }

  lemma {:induction false} SpaceRuns(t: string, k: nat)
    requires k <= |t| && forall i :: 0 <= i < k ==> IsSpace(t[i])
    ensures SplitAtSpaces(t, []) == SplitAtSpaces(t[k..], [])
    decreases k
  {
    if k > 0 {
      SpaceRuns(t[1..], k - 1);
      assert t[1..][k - 1..] == t[k..];
      assert [] + SplitAtSpaces(t[1..], []) == SplitAtSpaces(t[1..], []);
    }
  }

  /** A word, a space and the rest. */
  lemma WordThenSpaces(t: string, k: nat, n: nat)
    requires 0 < k && SpacedAfter(t, k, n) && forall i :: 0 <= i < k ==> !IsSpace(t[i])
    ensures SplitAtSpaces(t, []) == [t[..k]] + SplitAtSpaces(t[k + n..], [])
  {
    WordRuns(t, [], k);
    assert [] + t[..k] == t[..k];
    assert t[k] == t[k..k + n][0];
    assert SplitAtSpaces(t[k..], t[..k]) == [t[..k]] + SplitAtSpaces(t[k..][1..], []);
    assert t[k..][1..] == t[k + 1..];
    var rest := t[k + 1..];
    forall i | 0 <= i < n - 1 ensures IsSpace(rest[i]) {
      assert t[k..k + n][i + 1] == rest[i];
    }
    SpaceRuns(rest, n - 1);
    assert rest[n - 1..] == t[k + n..];
  }

  lemma {:induction false} SpacedAreSplit(t: string, pieces: seq<string>)
    requires SpacedInto(t, pieces)
    ensures SplitAtSpaces(t, []) == pieces
    decreases |pieces|
  {
    hide SplitAtSpaces, IsSpace, SpacedAfter;
    var p := pieces[0];
    forall i | 0 <= i < |p| ensures i < |t| && !IsSpace(t[i]) && t[i] == p[i] {
      DigitIsNoSpace(p[i]);
      SpacedLength(t, pieces);
    }
    if |pieces| == 1 {
      WordRuns(t, [], |p|);
      LastWord(p);
    } else {
      var n: nat :| SpacedAfter(t, |p|, n) && t[..|p|] == p && SpacedInto(t[|p| + n..], pieces[1..]);
      WordThenSpaces(t, |p|, n);
      SpacedAreSplit(t[|p| + n..], pieces[1..]);
      assert pieces == [p] + pieces[1..];
    }
  }

  lemma SpacedLength(t: string, pieces: seq<string>)
    requires SpacedInto(t, pieces)
    ensures |pieces[0]| <= |t| && t[..|pieces[0]|] == pieces[0]
  {
    if |pieces| > 1 {
      var n: nat :| SpacedAfter(t, |pieces[0]|, n) && t[..|pieces[0]|] == pieces[0] && SpacedInto(t[|pieces[0]| + n..], pieces[1..]);
    }
  }

  lemma LastWord(p: string)
    requires p != []
    ensures SplitAtSpaces(p[|p|..], [] + p[..|p|]) == [p]
  {
    assert p[|p|..] == [] && [] + p[..|p|] == p;
  }

  /** How far the characters before the first space reach. */
  function WordEnd(t: string): (k: nat)
    ensures k <= |t| && (forall i :: 0 <= i < k ==> !IsSpace(t[i])) && (k < |t| ==> IsSpace(t[k]))
  {
    if t == [] || IsSpace(t[0]) then 0 else 1 + WordEnd(t[1..])
  }

  /** A text that begins and ends with a character that is no space, and splits into numbers, is those numbers spaced. */
  lemma {:induction false} SplitAreSpaced(t: string)
    requires t != [] && Trimmed(t) && forall p :: p in SplitAtSpaces(t, []) ==> AllDigits(p)
    ensures SpacedInto(t, SplitAtSpaces(t, []))
    decreases |t|
  {
    hide SplitAtSpaces, IsSpace, DropSpaces;
    var k := WordEnd(t);
    var pieces := SplitAtSpaces(t, []);
    if k == |t| {
      WordRuns(t, [], k);
      LastWord(t);
      assert pieces == [t] && t in pieces;
    } else {
      var gap := Spaces(t[k..]);
      var n := |gap|;
      var rest := t[k + n..];
      assert t[k..] == gap + DropSpaces(t[k..]);
      assert DropSpaces(t[k..]) == rest;
      assert t[k..k + n] == gap;
      GapIsProper(t, k, n);
      WordThenSpaces(t, k, n);
      assert pieces == [t[..k]] + SplitAtSpaces(rest, []);
      assert t[..k] in pieces;
      forall p | p in SplitAtSpaces(rest, []) ensures AllDigits(p) {
        assert p in pieces;
      }
      assert Trimmed(rest) && |rest| < |t|;
      SplitAreSpaced(rest);
      SpacedMore(t, k, n, SplitAtSpaces(rest, []));
    }
  }

  lemma SpacedMore(t: string, k: nat, n: nat, rest: seq<string>)
    requires 0 < k && SpacedAfter(t, k, n) && AllDigits(t[..k]) && SpacedInto(t[k + n..], rest)
    ensures SpacedInto(t, [t[..k]] + rest)
  {
    hide SpacedAfter;
    var pieces := [t[..k]] + rest;
    assert pieces[1..] == rest && |pieces[0]| == k;
  }

  lemma GapIsProper(t: string, k: nat, n: nat)
    requires 0 <= k < |t| && Trimmed(t) && t != [] && IsSpace(t[k]) && n == |Spaces(t[k..])| && k + n <= |t|
    requires forall i :: 0 <= i < k ==> !IsSpace(t[i])
    requires t[k..k + n] == Spaces(t[k..]) && t[k + n..] == DropSpaces(t[k..])
    ensures 0 < k && 0 < n && SpacedAfter(t, k, n) && k + n < |t| && !IsSpace(t[k + n])
  {
    hide IsSpace;
    assert n > 0 ==> t[k..k + n][n - 1] == t[k + n - 1];
    assert k + n < |t| ==> t[k + n..][0] == t[k + n];
  }

  // ---------------------------------------------------------------- what a text lists

  ghost predicate ListsNumbers(t: string, tokens: seq<string>) { |tokens| > 1 && SpacedInto(t, tokens) }

  ghost predicate ListsPieces(t: string, tokens: seq<string>)
  {
    exists pieces :: CutInto(t, pieces) && tokens == TrimmedPieces(pieces)
  }

  /** The tokens of a text: the text itself when it is a label, else the numbers it consists of, else its pieces. */
  ghost predicate Tokens(lib: Lib, choices: seq<Choice>, raw: string, tokens: seq<string>)
  {
    var t := Trim(raw);
    if !NoLabel(lib, choices, t) then tokens == [t]
    else ListsNumbers(t, tokens) || ((forall other :: !ListsNumbers(t, other)) && ListsPieces(t, tokens))
  }

  lemma LabelledIff(lib: Lib, choices: seq<Choice>, token: string)
    ensures ByLabel(lib, choices, lib.normalize(token)).None? <==> NoLabel(lib, choices, token)
  {
  }

  lemma {:induction false} NumbersHaveNoSeparator(t: string, pieces: seq<string>)
    requires SpacedInto(t, pieces)
    ensures t != [] && NoSeparator(t)
    decreases |pieces|
  {
    hide IsSpace, IsSeparator, IsDigit;
    var p := pieces[0];
    SpacedLength(t, pieces);
    DigitsNoSeparator(p);
    if |pieces| > 1 {
      var n: nat :| SpacedAfter(t, |p|, n) && t[..|p|] == p && SpacedInto(t[|p| + n..], pieces[1..]);
      NumbersHaveNoSeparator(t[|p| + n..], pieces[1..]);
      SpacesNoSeparator(t[|p|..|p| + n]);
      ThreeNoSeparator(t, |p|, |p| + n);
    } else {
      assert t == p;
    }
  }

  lemma DigitsNoSeparator(p: string)
    requires AllDigits(p)
    ensures NoSeparator(p)
  {
    forall i | 0 <= i < |p| ensures !IsSeparator(p[i]) {
      DigitIsNoSpace(p[i]);
    }
  }

  lemma SpacesNoSeparator(p: string)
    requires AllSpaces(p)
    ensures NoSeparator(p)
  {
    forall i | 0 <= i < |p| ensures !IsSeparator(p[i]) {
      DigitIsNoSpace(p[i]);
    }
  }

  lemma ThreeNoSeparator(t: string, i: nat, j: nat)
    requires i <= j <= |t| && NoSeparator(t[..i]) && NoSeparator(t[i..j]) && NoSeparator(t[j..])
    ensures NoSeparator(t)
  {
    hide IsSeparator;
    forall k | 0 <= k < |t| ensures !IsSeparator(t[k]) {
      assert t[k] == if k < i then t[..i][k] else if k < j then t[i..j][k - i] else t[j..][k - j];
    }
  }

  lemma OnePiece(t: string)
    requires NoSeparator(t) && t != [] && Trimmed(t)
    ensures SplitTokens(t, []) == [t]
  {
    hide Trim, Trimmed;
    assert CutInto(t, [t]);
    PiecesAreCut(t, [t]);
    TrimStable(t);
    assert [t][1..] == [];
  }

  lemma TokensAre(lib: Lib, choices: seq<Choice>, raw: string)
    ensures Tokens(lib, choices, raw, AnswerTokens(lib, choices, raw))
  {
    hide Trim, ByLabel, SplitTokens, SplitAtSpaces, Trimmed, SpacedInto, CutInto, NoLabel, IsSpace, IsDigit;
    var t := Trim(raw);
    LabelledIff(lib, choices, t);
    var pieces := CanBeCut(t);
    PiecesAreCut(t, pieces);
    var spaced := SplitAtSpaces(t, []);
    if t != [] && SpacedNumbers(t) {
      SplitAreSpaced(t);
      NumbersHaveNoSeparator(t, spaced);
      OnePiece(t);
    } else {
      forall other ensures !ListsNumbers(t, other) {
        NotListed(t, other);
      }
    }
  }

  lemma NotListed(t: string, other: seq<string>)
    requires t == [] || !SpacedNumbers(t)
    ensures !ListsNumbers(t, other)
  {
    hide SplitAtSpaces, SpacedInto;
    if ListsNumbers(t, other) {
      SpacedAreSplit(t, other);
      NumbersHaveNoSeparator(t, other);
      PiecesAreNumbers(t, other);
    }
  }

  lemma {:induction false} PiecesAreNumbers(t: string, pieces: seq<string>)
    requires SpacedInto(t, pieces)
    ensures forall p :: p in pieces ==> AllDigits(p)
    decreases |pieces|
  {
    if |pieces| > 1 {
      var n: nat :| SpacedAfter(t, |pieces[0]|, n) && t[..|pieces[0]|] == pieces[0] && SpacedInto(t[|pieces[0]| + n..], pieces[1..]);
      PiecesAreNumbers(t[|pieces[0]| + n..], pieces[1..]);
    }
  }
}
