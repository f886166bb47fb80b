/** Digits and separators in texts. */
module Texts {
  predicate IsDigit(c: char) { '0' <= c <= '9' }

  predicate AllDigits(s: string) { forall i :: 0 <= i < |s| ==> IsDigit(s[i]) }

  function DigitValue(c: char): nat
    requires IsDigit(c)
  {
    c as int - '0' as int
  }

  function DigitChar(n: nat): (c: char)
    requires n < 10
    ensures IsDigit(c) && DigitValue(c) == n
  {
    (n + '0' as int) as char
  }

  function Decimal(n: nat): (s: string)
    ensures s != [] && AllDigits(s)
  {
    if n < 10 then [DigitChar(n)] else Decimal(n / 10) + [DigitChar(n % 10)]
  }

  predicate Free(c: char, s: string) { c !in s }

  /** `s.split(sep)`. */
  function Split(sep: char, s: string): (r: seq<string>)
    ensures r != []
  {
    if s == [] then [""]
    else
      var rest := Split(sep, s[1..]);
      if s[0] == sep then [""] + rest else [[s[0]] + rest[0]] + rest[1..]
  }

  /** `parts.join(sep)`. */
  function Join(sep: char, parts: seq<string>): string
    requires parts != []
  {
    if |parts| == 1 then parts[0] else parts[0] + [sep] + Join(sep, parts[1..])
  }

  lemma {:induction false} SplitJoined(sep: char, parts: seq<string>)
    requires parts != [] && forall i :: 0 <= i < |parts| ==> Free(sep, parts[i])
    ensures Split(sep, Join(sep, parts)) == parts
    decreases |parts|, |parts[0]|
  {
    var s := Join(sep, parts);
    if parts[0] == [] {
      if |parts| == 1 {
        assert s == [];
      } else {
        assert s == [sep] + Join(sep, parts[1..]) && s[1..] == Join(sep, parts[1..]);
        SplitJoined(sep, parts[1..]);
      }
    } else {
      var shorter := [parts[0][1..]] + parts[1..];
      assert forall i :: 0 < i < |shorter| ==> shorter[i] == parts[i];
      assert shorter[1..] == parts[1..];
      assert s[0] == parts[0][0] && s[0] in parts[0];
      assert s[1..] == Join(sep, shorter);
      SplitJoined(sep, shorter);
      assert [s[0]] + shorter[0] == parts[0];
    }
  }

  lemma {:induction false} JoinSplit(sep: char, s: string)
    ensures Join(sep, Split(sep, s)) == s
    ensures forall i :: 0 <= i < |Split(sep, s)| ==> Free(sep, Split(sep, s)[i])
  {
    if s != [] {
      var rest := Split(sep, s[1..]);
      JoinSplit(sep, s[1..]);
      if s[0] == sep {
        assert Split(sep, s)[1..] == rest;
      } else {
        var r := Split(sep, s);
        assert r[1..] == rest[1..];
        assert Join(sep, r) == [s[0]] + Join(sep, rest);
        assert forall i :: 0 < i < |r| ==> r[i] == rest[i];
      }
      assert s == [s[0]] + s[1..];
    }
  }

  /** Splitting brings in no characters. */
  lemma {:induction false} SplitKeepsFree(sep: char, s: string, c: char)
    requires Free(c, s)
    ensures forall i :: 0 <= i < |Split(sep, s)| ==> Free(c, Split(sep, s)[i])
  {
    if s != [] {
      var rest := Split(sep, s[1..]);
      SplitKeepsFree(sep, s[1..], c);
      assert s[0] in s;
      var r := Split(sep, s);
      assert forall i :: 0 < i < |r| ==> r[i] == if s[0] == sep then rest[i - 1] else rest[i];
    }
  }
}
