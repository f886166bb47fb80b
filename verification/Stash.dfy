/** Placeholders for text set aside during selective masking (packages/pii-mask/src/index.ts). */
module Stash {
  import opened Prelude
  import opened Regex

  const OPEN := '\U{E000}'
  const CLOSE := '\U{E001}'
  const DIGIT_BASE := 0xE100

  predicate IsCode(c: char) { '\U{E100}' <= c <= '\U{E1FF}' }

  /** Characters that placeholders are not made of; the marks of cards and resident numbers are among them. */
  predicate IsSolid(c: char) { c != OPEN && c != CLOSE && !IsCode(c) }

  function Code(d: int): char
    requires 0 <= d < 256
  {
    (DIGIT_BASE + d) as char
  }

  // ---------------------------------------------------------------- numbers

  /** The base-256 digits of `n`, most significant first. */
  function Encoded(n: nat): (r: string)
    ensures r != [] && forall k :: 0 <= k < |r| ==> IsCode(r[k])
  {
    (if n < 256 then [] else Encoded(n / 256)) + [Code(n % 256)]
  }

  function Decoded(s: string): int
  {
    if s == [] then 0 else Decoded(s[..|s| - 1]) * 256 + (s[|s| - 1] as int - DIGIT_BASE)
  }

  lemma {:induction false} DecodedEncoded(n: nat)
    ensures Decoded(Encoded(n)) == n
  {
    var high, low := if n < 256 then [] else Encoded(n / 256), Code(n % 256);
    assert (high + [low])[..|high|] == high;
    if n >= 256 {
      DecodedEncoded(n / 256);
    }
  }

  /** `encodeIndex`. */
  method EncodeIndex(index: nat) returns (out: string)
    ensures out == Encoded(index)
  {
    var value := index;
    out := [Code(value % 256)];
    value := value / 256;
    while value > 0
      invariant Encoded(index) == (if value > 0 then Encoded(value) else []) + out
    {
      assert (if value < 256 then [] else Encoded(value / 256)) + [Code(value % 256)] + out
          == (if value < 256 then [] else Encoded(value / 256)) + ([Code(value % 256)] + out);
      out := [Code(value % 256)] + out;
      value := value / 256;
    }
  }

  /** `decodeIndex`. */
  method DecodeIndex(encoded: string) returns (value: int)
    ensures value == Decoded(encoded)
    ensures forall n: nat :: encoded == Encoded(n) ==> value == n
  {
    value := 0;
    for i := 0 to |encoded|
      invariant value == Decoded(encoded[..i])
    {
      assert encoded[..i + 1][..i] == encoded[..i];
      value := value * 256 + (encoded[i] as int - DIGIT_BASE);
    }
    assert encoded[..|encoded|] == encoded;
    forall n: nat | encoded == Encoded(n) ensures value == n {
      DecodedEncoded(n);
    }
  }

  function Placeholder(k: nat): string { [OPEN] + Encoded(k) + [CLOSE] }

  function Lookup(stash: seq<string>, k: int): string { if 0 <= k < |stash| then stash[k] else "" }

  // ---------------------------------------------------------------- restoring

  /** The placeholder at the beginning of `s`, if there is one, ends here. */
  function HoleEnd(s: string): (r: Option<nat>)
    ensures r.Some? ==> 1 < r.value < |s| && s[0] == OPEN
    ensures s != [] && IsSolid(s[0]) ==> r == None
  {
    if s == [] || s[0] != OPEN then None
    else
      var j := RunEnd(IsCode, s, 1);
      if j > 1 && j < |s| && s[j] == CLOSE then Some(j) else None
  }

  /** `s` with its placeholders filled in from `stash`, read from left to right. */
  function Restored(s: string, stash: seq<string>): string
    decreases |s|
  {
    if s == [] then []
    else match HoleEnd(s)
      case Some(j) => Lookup(stash, Decoded(s[1..j])) + Restored(s[j + 1..], stash)
      case None => [s[0]] + Restored(s[1..], stash)
  }

  /** Solid characters and placeholders for the first `n` entries, and nothing else. */
  ghost predicate Sealed(s: string, n: nat)
    decreases |s|
  {
    s == []
    || (IsSolid(s[0]) && Sealed(s[1..], n))
    || (HoleEnd(s).Some? && 0 <= Decoded(s[1..HoleEnd(s).value]) < n && Sealed(s[HoleEnd(s).value + 1..], n))
  }

  lemma {:induction false} RunEndOfPrefix(chars: char -> bool, x: string, y: string, i: nat)
    requires i <= |x|
    ensures RunEnd(chars, x, i) < |x| ==> RunEnd(chars, x + y, i) == RunEnd(chars, x, i)
    ensures y != [] && !chars(y[0]) ==> RunEnd(chars, x + y, i) == RunEnd(chars, x, i)
    decreases |x| - i
  {
    if i < |x| {
      assert (x + y)[i] == x[i];
      RunEndOfPrefix(chars, x, y, i + 1);
    } else if y != [] {
      assert (x + y)[i] == y[0];
    }
  }

  lemma HoleOfPrefix(x: string, y: string)
    requires x != []
    ensures HoleEnd(x).Some? ==> HoleEnd(x + y) == HoleEnd(x)
    ensures y == [] || IsSolid(y[0]) ==> HoleEnd(x + y) == HoleEnd(x)
  {
    hide RunEnd;
    RunEndOfPrefix(IsCode, x, y, 1);
    assert (x + y)[0] == x[0];
    if y == [] {
      assert x + y == x;
    } else {
      var j := RunEnd(IsCode, x, 1);
      if j < |x| {
        assert (x + y)[j] == x[j];
      } else {
        assert (x + y)[j] == y[0];
      }
    }
  }

  lemma RestoredStep(s: string, stash: seq<string>)
    requires s != []
    ensures IsSolid(s[0]) ==> Restored(s, stash) == [s[0]] + Restored(s[1..], stash)
    ensures HoleEnd(s).Some? ==>
      Restored(s, stash) == Lookup(stash, Decoded(s[1..HoleEnd(s).value])) + Restored(s[HoleEnd(s).value + 1..], stash)
  {
    hide HoleEnd, IsSolid, Decoded, Lookup;
  }

  lemma {:induction false} SealedJoin(x: string, y: string, n: nat, stash: seq<string>)
    requires Sealed(x, n) && Sealed(y, n)
    ensures Sealed(x + y, n) && Restored(x + y, stash) == Restored(x, stash) + Restored(y, stash)
    decreases |x|
  {
    hide HoleEnd, IsSolid, Decoded, Lookup, Restored;
    if x == [] {
      assert x + y == y;
      assert Restored(x, stash) == [] by { RestoredNothing(stash); }
    } else {
      HoleOfPrefix(x, y);
      RestoredStep(x, stash);
      RestoredStep(x + y, stash);
      assert (x + y)[0] == x[0];
      if IsSolid(x[0]) {
        assert (x + y)[1..] == x[1..] + y;
        SealedJoin(x[1..], y, n, stash);
      } else {
        var j := HoleEnd(x).value;
        assert (x + y)[1..j] == x[1..j] && (x + y)[j + 1..] == x[j + 1..] + y;
        SealedJoin(x[j + 1..], y, n, stash);
      }
    }
  }

  lemma RestoredNothing(stash: seq<string>)
    ensures Restored([], stash) == []
  {
  }

  /** A sealed text can be cut in front of a solid character. */
  lemma {:induction false} SealedSplit(x: string, y: string, n: nat, stash: seq<string>)
    requires Sealed(x + y, n) && (y == [] || IsSolid(y[0]))
    ensures Sealed(x, n) && Sealed(y, n)
    decreases |x|
  {
    hide HoleEnd, IsSolid, Decoded, Lookup;
    if x == [] {
      assert x + y == y;
    } else {
      HoleOfPrefix(x, y);
      assert (x + y)[0] == x[0];
      if IsSolid(x[0]) {
        assert (x + y)[1..] == x[1..] + y;
        SealedSplit(x[1..], y, n, stash);
      } else {
        var j := HoleEnd(x).value;
        assert (x + y)[1..j] == x[1..j] && (x + y)[j + 1..] == x[j + 1..] + y;
        SealedSplit(x[j + 1..], y, n, stash);
      }
    }
  }

  lemma {:induction false} SolidPrefix(m: string, y: string, n: nat, stash: seq<string>)
    requires Sealed(m + y, n) && forall k :: 0 <= k < |m| ==> IsSolid(m[k])
    ensures Sealed(y, n) && Restored(m + y, stash) == m + Restored(y, stash)
    decreases |m|
  {
    hide HoleEnd, IsSolid, Decoded, Lookup;
    if m == [] {
      assert m + y == y;
      assert m + Restored(y, stash) == Restored(y, stash);
    } else {
      assert (m + y)[0] == m[0] && (m + y)[1..] == m[1..] + y;
      SolidPrefix(m[1..], y, n, stash);
      assert [m[0]] + (m[1..] + Restored(y, stash)) == m + Restored(y, stash);
    }
  }

  lemma PlaceholderIsSealed(k: nat, n: nat, stash: seq<string>)
    requires k < n
    ensures Sealed(Placeholder(k), n) && Restored(Placeholder(k), stash) == Lookup(stash, k)
  {
    hide Encoded, Decoded, Lookup, RunEnd;
    var p, e := Placeholder(k), Encoded(k);
    HoleOfPlaceholder(k);
    assert p[1..|e| + 1] == e && p[|e| + 2..] == [];
    DecodedEncoded(k);
    assert Restored([], stash) == [];
    assert Lookup(stash, k) + [] == Lookup(stash, k);
  }

  lemma HoleOfPlaceholder(k: nat)
    ensures HoleEnd(Placeholder(k)) == Some(|Encoded(k)| + 1)
  {
    hide Encoded, RunEnd;
    var p, e := Placeholder(k), Encoded(k);
    RunToClose(p, 1, |e| + 1);
  }

  lemma {:induction false} RunToClose(s: string, i: nat, j: nat)
    requires i <= j < |s| && s[j] == CLOSE && forall k :: i <= k < j ==> IsCode(s[k])
    ensures RunEnd(IsCode, s, i) == j
    decreases j - i
  {
    if i < j {
      RunToClose(s, i + 1, j);
    }
  }

  /** Setting more text aside does not change what is restored. */
  lemma {:induction false} RestoredStable(s: string, n: nat, stash: seq<string>, larger: seq<string>)
    requires Sealed(s, n) && n <= |stash| && stash <= larger
    ensures Restored(s, larger) == Restored(s, stash) && Sealed(s, |larger|)
    decreases |s|
  {
    hide HoleEnd, IsSolid, Decoded;
    if s != [] {
      if IsSolid(s[0]) {
        RestoredStable(s[1..], n, stash, larger);
      } else {
        RestoredStable(s[HoleEnd(s).value + 1..], n, stash, larger);
      }
    }
  }

  lemma {:induction false} SolidIsSealed(s: string, stash: seq<string>)
    requires forall k :: 0 <= k < |s| ==> IsSolid(s[k])
    ensures Sealed(s, 0) && Restored(s, stash) == s
  {
    hide IsSolid, HoleEnd;
    if s != [] {
      SolidIsSealed(s[1..], stash);
    }
  }

  /** With no entries there are no placeholders. */
  lemma {:induction false} SealedByNone(s: string, stash: seq<string>)
    requires Sealed(s, 0)
    ensures Restored(s, stash) == s
  {
    hide HoleEnd, IsSolid, Decoded;
    if s != [] {
      RestoredStep(s, stash);
      SealedByNone(s[1..], stash);
    }
  }

  // ---------------------------------------------------------------- what comes back

  /** The entries that the placeholders of a text name. */
  function Holes(s: string): set<int>
    decreases |s|
  {
    if s == [] then {}
    else match HoleEnd(s)
      case Some(j) => {Decoded(s[1..j])} + Holes(s[j + 1..])
      case None => Holes(s[1..])
  }

  lemma HolesStep(s: string)
    requires s != []
    ensures IsSolid(s[0]) ==> Holes(s) == Holes(s[1..])
    ensures HoleEnd(s).Some? ==> Holes(s) == {Decoded(s[1..HoleEnd(s).value])} + Holes(s[HoleEnd(s).value + 1..])
  {
    hide HoleEnd, IsSolid, Decoded;
  }

  lemma {:induction false} HolesJoin(x: string, y: string, n: nat)
    requires Sealed(x, n)
    ensures Holes(x + y) == Holes(x) + Holes(y)
    decreases |x|
  {
    hide HoleEnd, IsSolid, Decoded, Holes;
    if x == [] {
      assert x + y == y;
      assert Holes(x) == {} by { NoHolesInNothing(); }
    } else {
      HoleOfPrefix(x, y);
      HolesStep(x);
      HolesStep(x + y);
      assert (x + y)[0] == x[0];
      if IsSolid(x[0]) {
        assert (x + y)[1..] == x[1..] + y;
        HolesJoin(x[1..], y, n);
      } else {
        var j := HoleEnd(x).value;
        assert (x + y)[1..j] == x[1..j] && (x + y)[j + 1..] == x[j + 1..] + y;
        HolesJoin(x[j + 1..], y, n);
      }
    }
  }

  lemma NoHolesInNothing()
    ensures Holes([]) == {}
  {
  }

  lemma {:induction false} SolidHasNoHoles(s: string)
    requires forall k :: 0 <= k < |s| ==> IsSolid(s[k])
    ensures Holes(s) == {}
  {
    hide IsSolid, HoleEnd;
    if s != [] {
      SolidHasNoHoles(s[1..]);
    }
  }

  lemma PlaceholderHole(k: nat)
    ensures Holes(Placeholder(k)) == {k}
  {
    hide Encoded, Decoded, RunEnd;
    var p, e := Placeholder(k), Encoded(k);
    HoleOfPlaceholder(k);
    assert p[1..|e| + 1] == e && p[|e| + 2..] == [];
    DecodedEncoded(k);
  }

  ghost predicate Within(part: string, whole: string) { exists a, b :: whole == a + part + b }

  /** What a placeholder names is found, whole, in the restored text. */
  lemma {:induction false} HoleComesBack(s: string, stash: seq<string>, k: int)
    requires k in Holes(s)
    ensures Within(Lookup(stash, k), Restored(s, stash))
    decreases |s|
  {
    hide HoleEnd, Decoded, Lookup, Within;
    if HoleEnd(s).Some? {
      var j := HoleEnd(s).value;
      if k == Decoded(s[1..j]) {
        WithinAfter([], Lookup(stash, k), Restored(s[j + 1..], stash));
        assert [] + Lookup(stash, k) + Restored(s[j + 1..], stash) == Restored(s, stash);
      } else {
        HoleComesBack(s[j + 1..], stash, k);
        WithinRest(Lookup(stash, Decoded(s[1..j])), Lookup(stash, k), Restored(s[j + 1..], stash));
      }
    } else {
      HoleComesBack(s[1..], stash, k);
      WithinRest([s[0]], Lookup(stash, k), Restored(s[1..], stash));
    }
  }

  lemma WithinAfter(a: string, part: string, b: string)
    ensures Within(part, a + part + b)
  {
  }

  lemma WithinRest(first: string, part: string, rest: string)
    requires Within(part, rest)
    ensures Within(part, first + rest)
  {
    var a, b :| rest == a + part + b;
    assert first + rest == (first + a) + part + b;
  }
}
