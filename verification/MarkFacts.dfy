/** What a replacement pass does to marks, to digits next to marks, and to runs of digits. */
module MarkFacts {
  import opened Prelude
  import opened Texts
  import opened Regex
  import opened EmailScan
  import opened MaskRules

  // ---------------------------------------------------------------- counting

  function CountOf(s: string, c: char): nat
  {
    if s == [] then 0 else (if s[0] == c then 1 else 0) + CountOf(s[1..], c)
  }

  lemma {:induction false} CountJoin(x: string, y: string, c: char)
    ensures CountOf(x + y, c) == CountOf(x, c) + CountOf(y, c)
  {
    if x == [] {
      assert x + y == y;
    } else {
      assert (x + y)[1..] == x[1..] + y;
      CountJoin(x[1..], y, c);
    }
  }

  lemma {:induction false} CountNone(s: string, c: char)
    requires c !in s
    ensures CountOf(s, c) == 0
  {
    if s != [] {
      CountNone(s[1..], c);
    }
  }

  /** How many more `c` there are after every span has been put through `f`. */
  function Gain(s: string, spans: seq<Span>, f: Span -> string, c: char): int
  {
    if spans == [] then 0
    else CountOf(f(spans[0]), c) - CountOf(Cut(s, spans[0]), c) + Gain(s, spans[1..], f, c)
  }

  lemma {:induction false} CountSplice(s: string, spans: seq<Span>, pos: nat, f: Span -> string, c: char)
    requires Inside(spans, pos, |s|)
    ensures pos <= |s| && CountOf(Splice(s, spans, pos, f), c) == CountOf(s[pos..], c) + Gain(s, spans, f, c)
  {
    hide CountOf, Cut, Splice;
    if spans != [] {
      SpliceHead(s, spans, pos, f);
      var m := spans[0];
      CountSplice(s, spans[1..], m.to, f, c);
      CountThree(s[pos..m.from], f(m), Splice(s, spans[1..], m.to, f), c);
      CutBetween(s, pos, m, c);
    } else {
      SpliceNothing(s, pos, f);
    }
  }

  lemma CutBetween(s: string, pos: nat, m: Span, c: char)
    requires pos <= m.from <= m.to <= |s|
    ensures CountOf(s[pos..], c) == CountOf(s[pos..m.from], c) + CountOf(Cut(s, m), c) + CountOf(s[m.to..], c)
  {
    hide CountOf;
    assert s[pos..] == s[pos..m.from] + Cut(s, m) + s[m.to..];
    CountThree(s[pos..m.from], Cut(s, m), s[m.to..], c);
  }

  lemma CountThree(x: string, y: string, z: string, c: char)
    ensures CountOf(x + y + z, c) == CountOf(x, c) + CountOf(y, c) + CountOf(z, c)
  {
    hide CountOf;
    CountJoin(x + y, z, c);
    CountJoin(x, y, c);
  }

  lemma CountReplaced(re: Re, s: string, f: Span -> string, c: char)
    requires Width(re) > 0
    ensures CountOf(ReplaceAll(re, s, f), c) == CountOf(s, c) + Gain(s, Matches(re, s, 0), f, c)
  {
    hide CountOf, Gain, Splice, Matches;
    Unfolded(re, s, f);
    CountSplice(s, Matches(re, s, 0), 0, f, c);
    assert s[0..] == s;
  }

  /** Replacing spans without a `c` by texts with `k` of them adds `k` for each span. */
  lemma {:induction false} EvenGain(s: string, spans: seq<Span>, f: Span -> string, c: char, k: nat)
    requires forall i :: 0 <= i < |spans| ==> c !in Cut(s, spans[i]) && CountOf(f(spans[i]), c) == k
    ensures Gain(s, spans, f, c) == k * |spans|
  {
    hide CountOf, Cut;
    if spans != [] {
      CountNone(Cut(s, spans[0]), c);
      var rest := spans[1..];
      EvenGain(s, rest, f, c, k);
      assert k * |spans| == k * (|rest| + 1) == k * |rest| + k;
    }
  }

  lemma CutOnly(chars: char -> bool, s: string, m: Span, c: char)
    requires AllIn(chars, s, m.from, m.to) && !chars(c)
    ensures c !in Cut(s, m)
  {
  }

  /** A pass whose expression cannot take `c`, and whose replacements hold `k` of it each. */
  lemma CountPass(re: Re, chars: char -> bool, s: string, f: Span -> string, c: char, k: nat)
    requires Width(re) > 0 && Only(re, chars) && !chars(c)
    requires forall m: Span :: c !in Cut(s, m) ==> CountOf(f(m), c) == k
    ensures CountOf(ReplaceAll(re, s, f), c) == CountOf(s, c) + k * |Matches(re, s, 0)|
  {
    hide CountOf, Gain, Matches, Only, ReplaceAll, Cut;
    var spans := Matches(re, s, 0);
    SpansOnly(re, chars, s, 0);
    forall i | 0 <= i < |spans| ensures c !in Cut(s, spans[i]) {
      CutOnly(chars, s, spans[i], c);
    }
    EvenGain(s, spans, f, c, k);
    CountReplaced(re, s, f, c);
  }

  // ---------------------------------------------------------------- digits next to marks

  ghost predicate Apart(a: char, b: char) { !(IsMark(a) && IsDigit(b)) && !(IsDigit(a) && IsMark(b)) }

  /** No digit stands right next to a mark. */
  ghost predicate NoTouch(s: string) { forall i :: 0 < i < |s| ==> Apart(s[i - 1], s[i]) }

  ghost predicate EndsWell(s: string) { s == [] || !IsDigit(s[|s| - 1]) }

  ghost predicate StartsWell(s: string) { s == [] || !IsDigit(s[0]) }

  lemma NoTouchJoin(x: string, y: string)
    requires NoTouch(x) && NoTouch(y) && (x == [] || y == [] || Apart(x[|x| - 1], y[0]))
    ensures NoTouch(x + y)
  {
    var z := x + y;
    forall i | 0 < i < |z| ensures Apart(z[i - 1], z[i]) {
      if i < |x| {
        assert z[i - 1] == x[i - 1] && z[i] == x[i];
      } else if i > |x| {
        assert z[i - 1] == y[i - 1 - |x|] && z[i] == y[i - |x|];
      }
    }
  }

  lemma NoTouchThree(x: string, y: string, z: string)
    requires NoTouch(x) && NoTouch(y) && NoTouch(z) && y != []
    requires x == [] || Apart(x[|x| - 1], y[0])
    requires z == [] || Apart(y[|y| - 1], z[0])
    ensures NoTouch(x + y + z)
  {
    NoTouchJoin(x, y);
    var xy := x + y;
    assert xy[|xy| - 1] == y[|y| - 1];
    NoTouchJoin(xy, z);
  }

  /** A span that no digit touches. */
  ghost predicate Isolated(s: string, m: Span)
  {
    && m.from < m.to <= |s|
    && (m.from > 0 ==> !IsDigit(s[m.from - 1]))
    && (m.to < |s| ==> !IsDigit(s[m.to]))
  }

  function CardMark(): Span -> string { (m: Span) => [MARK_CARD] }

  /** Putting a mark for isolated spans keeps digits and marks apart. */
  lemma {:induction false} MarkingKeepsApart(s: string, spans: seq<Span>, pos: nat)
    requires Inside(spans, pos, |s|) && NoTouch(s) && forall i :: 0 <= i < |spans| ==> Isolated(s, spans[i])
    ensures NoTouch(Splice(s, spans, pos, CardMark()))
    ensures pos < |s| && !IsDigit(s[pos]) ==> StartsWell(Splice(s, spans, pos, CardMark()))
  {
    hide IsDigit, IsMark;
    if spans != [] {
      InsideBounds(spans, pos, |s|);
      var m := spans[0];
      var gap, rest := s[pos..m.from], Splice(s, spans[1..], m.to, CardMark());
      MarkingKeepsApart(s, spans[1..], m.to);
      Piece(s, pos, m.from);
      assert StartsWell(rest) by { StartOfRest(s, spans[1..], m.to); }
      MarkIsMark();
      NoTouchThree(gap, [MARK_CARD], rest);
      assert Splice(s, spans, pos, CardMark()) == gap + [MARK_CARD] + rest;
    } else {
      Piece(s, pos, |s|);
      assert s[pos..|s|] == s[pos..];
    }
  }

  lemma StartOfRest(s: string, spans: seq<Span>, pos: nat)
    requires Inside(spans, pos, |s|) && (pos < |s| ==> !IsDigit(s[pos]))
    requires forall i :: 0 <= i < |spans| ==> Isolated(s, spans[i])
    ensures StartsWell(Splice(s, spans, pos, CardMark()))
  {
    if spans != [] {
      InsideBounds(spans, pos, |s|);
    }
  }

  lemma MarkIsMark()
    ensures IsMark(MARK_CARD) && IsMark(MARK_RRN) && !IsDigit(MARK_CARD) && !IsDigit(MARK_RRN)
    ensures forall c :: IsMark(c) ==> !IsDigit(c)
  {
  }

  lemma Piece(s: string, i: nat, j: nat)
    requires i <= j <= |s| && NoTouch(s)
    ensures NoTouch(s[i..j])
  {
    var p := s[i..j];
    forall k | 0 < k < |p| ensures Apart(p[k - 1], p[k]) {
      assert p[k - 1] == s[i + k - 1] && p[k] == s[i + k];
    }
  }

  // ---------------------------------------------------------------- long runs of digits

  ghost predicate RunAt(s: string, i: int)
  {
    0 <= i && i + 14 <= |s| && forall k :: i <= k < i + 14 ==> IsDigit(s[k])
  }

  /** Somewhere there are 14 digits in a row. */
  ghost predicate HasLongRun(s: string) { exists i :: RunAt(s, i) }

  /** A text with a character that is no digit in it keeps the runs before and after it apart. */
  lemma RunsThree(x: string, y: string, z: string)
    requires !HasLongRun(x) && !HasLongRun(z)
    requires y != [] && forall k :: 0 <= k < |y| ==> !IsDigit(y[k])
    ensures !HasLongRun(x + y + z)
  {
    forall i ensures !RunAt(x + y + z, i) {
      RunInThree(x, y, z, i);
      assert !RunAt(x, i) && !RunAt(z, i - |x| - |y|);
    }
  }

  lemma RunInThree(x: string, y: string, z: string, i: int)
    requires y != [] && forall k :: 0 <= k < |y| ==> !IsDigit(y[k])
    ensures RunAt(x + y + z, i) ==> RunAt(x, i) || RunAt(z, i - |x| - |y|)
  {
    hide IsDigit;
    var w := x + y + z;
    if 0 <= i && i + 14 <= |w| {
      if i + 14 <= |x| {
        assert forall k :: i <= k < i + 14 ==> w[k] == x[k];
      } else if i >= |x| + |y| {
        var j := i - |x| - |y|;
        assert forall k :: j <= k < j + 14 ==> w[k + |x| + |y|] == z[k];
      } else {
        var k := Max(i, |x|);
        assert w[k] == y[k - |x|];
      }
    }
  }

  lemma RunOfPiece(s: string, i: nat, j: nat)
    requires i <= j <= |s| && !HasLongRun(s)
    ensures !HasLongRun(s[i..j])
  {
    forall k ensures !RunAt(s[i..j], k) {
      RunInPiece(s, i, j, k);
      assert !RunAt(s, k + i);
    }
  }

  lemma RunInPiece(s: string, i: nat, j: nat, k: int)
    requires i <= j <= |s|
    ensures RunAt(s[i..j], k) ==> RunAt(s, k + i)
  {
    if RunAt(s[i..j], k) {
      assert forall n :: k <= n < k + 14 ==> s[i..j][n] == s[n + i];
    }
  }

  /** The texts between the spans, from `pos` on, are free of long runs. */
  ghost predicate GapsFree(s: string, spans: seq<Span>, pos: nat)
    requires Inside(spans, pos, |s|)
  {
    if spans == [] then !HasLongRun(s[pos..])
    else
      InsideBounds(spans, pos, |s|);
      !HasLongRun(s[pos..spans[0].from]) && GapsFree(s, spans[1..], spans[0].to)
  }

  ghost predicate NoDigits(s: string) { s != [] && forall k :: 0 <= k < |s| ==> !IsDigit(s[k]) }

  lemma {:induction false} RunsOfSplice(s: string, spans: seq<Span>, pos: nat, f: Span -> string)
    requires Inside(spans, pos, |s|) && GapsFree(s, spans, pos)
    requires forall i :: 0 <= i < |spans| ==> NoDigits(f(spans[i]))
    ensures !HasLongRun(Splice(s, spans, pos, f))
  {
    hide HasLongRun, IsDigit;
    if spans != [] {
      InsideBounds(spans, pos, |s|);
      RunsOfSplice(s, spans[1..], spans[0].to, f);
      assert NoDigits(f(spans[0]));
      RunsThree(s[pos..spans[0].from], f(spans[0]), Splice(s, spans[1..], spans[0].to, f));
    }
  }

  lemma {:induction false} GapsOfFree(s: string, spans: seq<Span>, pos: nat)
    requires Inside(spans, pos, |s|) && !HasLongRun(s)
    ensures GapsFree(s, spans, pos)
  {
    hide HasLongRun;
    InsideBounds(spans, pos, |s|);
    if spans != [] {
      RunOfPiece(s, pos, spans[0].from);
      GapsOfFree(s, spans[1..], spans[0].to);
    } else {
      RunOfPiece(s, pos, |s|);
      assert s[pos..|s|] == s[pos..];
    }
  }

  /** Replacing parts of a text without long runs by texts without digits makes none. */
  lemma RunsOfReplaced(re: Re, s: string, f: Span -> string)
    requires Width(re) > 0 && !HasLongRun(s) && forall m: Span :: NoDigits(f(m))
    ensures !HasLongRun(ReplaceAll(re, s, f))
  {
    hide HasLongRun, Splice, Matches, NoDigits;
    Unfolded(re, s, f);
    GapsOfFree(s, Matches(re, s, 0), 0);
    RunsOfSplice(s, Matches(re, s, 0), 0, f);
  }
}
