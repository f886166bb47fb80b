/** Filling placeholders in at the end of `maskPiiSelective` (packages/pii-mask/src/index.ts). */
module Filling {
  import opened Prelude
  import opened Regex
  import opened EmailScan
  import opened ChunkFacts
  import opened Stash

  function PlaceholderRe(): Re { Cat(Lit([OPEN]), Cat(Rep(IsCode, 1, None), Lit([CLOSE]))) }

  function Inner(s: string): string { if |s| >= 2 then s[1..|s| - 1] else [] }

  function FillText(s: string, stash: seq<string>): Span -> string
  {
    (m: Span) => Lookup(stash, Decoded(Inner(Cut(s, m))))
  }

  /** The last replacement: placeholders give way to what was set aside. */
  function Filled(s: string, stash: seq<string>): string
  {
    assert Width(PlaceholderRe()) == 3;
    ReplaceAll(PlaceholderRe(), s, FillText(s, stash))
  }

  lemma {:induction false} RunEndShift(s: string, i: nat, k: nat)
    requires i + k <= |s|
    ensures RunEnd(IsCode, s, i + k) == i + RunEnd(IsCode, s[i..], k)
    decreases |s| - i - k
  {
    if i + k < |s| {
      assert s[i..][k] == s[i + k];
      RunEndShift(s, i, k + 1);
    }
  }

  function Codes(): Re { Rep(IsCode, 1, None) }

  lemma CodesEnds(s: string, i: nat)
    requires i <= |s|
    ensures Ends(Codes(), s, i) == var r := RunEnd(IsCode, s, i); if r < i + 1 then [] else Descending(r, i + 1)
  {
    hide RunEnd;
  }

  lemma LitEnds(c: char, s: string, i: nat)
    requires i <= |s|
    ensures Ends(Lit([c]), s, i) == if i < |s| && s[i] == c then [i + 1] else []
  {
    if i < |s| {
      assert s[i..i + 1] == [s[i]];
    }
  }

  lemma HoleMatch(s: string, i: nat)
    requires i <= |s|
    ensures Ends(PlaceholderRe(), s, i)
         == if i < |s| && s[i] == OPEN then CloseEnd(s, i + 1, RunEnd(IsCode, s, i + 1)) else []
  {
    hide Ends, RunEnd, Through, Descending, CloseEnd;
    var rest := Cat(Codes(), Lit([CLOSE]));
    LitEnds(OPEN, s, i);
    CatEnds(Lit([OPEN]), rest, s, i);
    if i < |s| && s[i] == OPEN {
      ThroughOne(rest, s, i + 1);
      CodesEnds(s, i + 1);
      CatEnds(Codes(), Lit([CLOSE]), s, i + 1);
      CloseAfterRun(s, i + 1);
    } else {
      ThroughNone(rest, s, i + 1);
    }
  }

  /** A placeholder is matched where one stands, and nowhere else. */
  lemma HoleEnds(s: string, i: nat)
    requires i <= |s|
    ensures Ends(PlaceholderRe(), s, i) == if HoleEnd(s[i..]).Some? then [i + HoleEnd(s[i..]).value + 1] else []
  {
    hide Ends, RunEnd, PlaceholderRe;
    HoleMatch(s, i);
    if i < |s| && s[i] == OPEN {
      RunEndShift(s, i, 1);
    }
  }

  function CloseEnd(s: string, i: nat, r: nat): seq<nat>
  {
    if r >= i + 1 && r < |s| && s[r] == CLOSE then [r + 1] else []
  }

  lemma CloseAfterRun(s: string, i: nat)
    requires i <= |s|
    ensures Through(Lit([CLOSE]), s, i + 1, if RunEnd(IsCode, s, i) < i + 1 then [] else Descending(RunEnd(IsCode, s, i), i + 1))
         == CloseEnd(s, i, RunEnd(IsCode, s, i))
  {
    hide Ends, RunEnd, Through;
    var r := RunEnd(IsCode, s, i);
    if r >= i + 1 {
      var starts := Descending(r, i + 1);
      LitEnds(CLOSE, s, r);
      CodesAreNotClose(s, i, r);
      ThroughNothing(Lit([CLOSE]), s, i + 1, starts[1..]);
      ThroughHeadOnly(Lit([CLOSE]), s, i + 1, starts);
    } else {
      ThroughNone(Lit([CLOSE]), s, i + 1);
    }
  }

  lemma CodesAreNotClose(s: string, i: nat, r: nat)
    requires i < r <= |s| && forall k :: i <= k < r ==> IsCode(s[k])
    ensures forall k :: i <= k < r ==> Ends(Lit([CLOSE]), s, k) == []
  {
    hide Ends;
    forall k | i <= k < r ensures Ends(Lit([CLOSE]), s, k) == [] {
      LitEnds(CLOSE, s, k);
    }
  }

  lemma ThroughHeadOnly(re: Re, s: string, least: nat, starts: seq<nat>)
    requires forall k :: 0 <= k < |starts| ==> least <= starts[k] <= |s|
    requires starts != [] && Through(re, s, least, starts[1..]) == []
    ensures Through(re, s, least, starts) == Ends(re, s, starts[0])
  {
    hide Ends;
    assert Ends(re, s, starts[0]) + [] == Ends(re, s, starts[0]);
  }

  lemma SkipInside(s: string, spans: seq<Span>, pos: nat)
    requires Inside(spans, pos + 1, |s|)
    ensures Inside(spans, pos, |s|)
  {
  }

  lemma SpliceSkip(s: string, spans: seq<Span>, pos: nat, f: Span -> string)
    requires pos < |s| && Inside(spans, pos + 1, |s|)
    ensures Inside(spans, pos, |s|) && Splice(s, spans, pos, f) == [s[pos]] + Splice(s, spans, pos + 1, f)
  {
    hide Inside;
    InsideBounds(spans, pos + 1, |s|);
    SkipInside(s, spans, pos);
    if spans != [] {
      SpliceHead(s, spans, pos, f);
      SpliceHead(s, spans, pos + 1, f);
      assert s[pos..spans[0].from] == [s[pos]] + s[pos + 1..spans[0].from];
    }
  }

  lemma {:induction false} FilledFrom(s: string, pos: nat, stash: seq<string>)
    requires pos <= |s| && Width(PlaceholderRe()) > 0
    ensures Inside(Matches(PlaceholderRe(), s, pos), pos, |s|)
    ensures Splice(s, Matches(PlaceholderRe(), s, pos), pos, FillText(s, stash)) == Restored(s[pos..], stash)
    decreases |s| - pos
  {
    hide Ends, PlaceholderRe, Restored, Splice, HoleEnd, Decoded, Lookup, Matches;
    MatchesInside(PlaceholderRe(), s, pos);
    MatchesStep(PlaceholderRe(), s, pos);
    HoleEnds(s, pos);
    var f := FillText(s, stash);
    if HoleEnd(s[pos..]).Some? {
      var j := HoleEnd(s[pos..]).value;
      var m := Span(pos, pos + j + 1);
      assert Search(PlaceholderRe(), s, pos) == Some(m);
      FilledFrom(s, m.to, stash);
      SpliceStep(s, m, Matches(PlaceholderRe(), s, m.to), pos, f);
      FilledHole(s, pos, j, stash);
    } else if pos == |s| {
      SpliceNothing(s, pos, f);
      RestoredNothing(stash);
    } else {
      assert Search(PlaceholderRe(), s, pos) == Search(PlaceholderRe(), s, pos + 1);
      MatchesStep(PlaceholderRe(), s, pos + 1);
      FilledFrom(s, pos + 1, stash);
      SpliceSkip(s, Matches(PlaceholderRe(), s, pos + 1), pos, f);
      RestoredSkip(s[pos..], stash);
      assert s[pos..][1..] == s[pos + 1..];
    }
  }

  lemma FilledHole(s: string, pos: nat, j: nat, stash: seq<string>)
    requires pos <= |s| && HoleEnd(s[pos..]) == Some(j)
    ensures s[pos..pos] + FillText(s, stash)(Span(pos, pos + j + 1)) + Restored(s[pos + j + 1..], stash) == Restored(s[pos..], stash)
  {
    hide HoleEnd, Decoded, Lookup, Restored;
    var t := s[pos..];
    RestoredStep(t, stash);
    assert t[j + 1..] == s[pos + j + 1..];
    var c := Cut(s, Span(pos, pos + j + 1));
    assert c == t[..j + 1];
    assert Inner(c) == t[1..j];
  }

  lemma RestoredSkip(s: string, stash: seq<string>)
    requires s != [] && HoleEnd(s) == None
    ensures Restored(s, stash) == [s[0]] + Restored(s[1..], stash)
  {
  }

  /** The final global replacement is the left-to-right reading of placeholders, on every text. */
  lemma FilledIsRestored(s: string, stash: seq<string>)
    ensures Filled(s, stash) == Restored(s, stash)
  {
    hide PlaceholderRe, Splice, Restored, Matches;
    assert Width(PlaceholderRe()) > 0 by { PlaceholderIsWide(); }
    Unfolded(PlaceholderRe(), s, FillText(s, stash));
    FilledFrom(s, 0, stash);
    assert s[0..] == s;
  }

  lemma PlaceholderIsWide()
    ensures Width(PlaceholderRe()) == 3
  {
  }
}
