/** A replacement whose callback may set matches aside (`apply` and `hold` of `maskPiiSelective`,
    packages/pii-mask/src/index.ts). */
module HeldPasses {
  import opened Regex
  import opened EmailScan
  import opened MaskRules
  import opened MarkFacts
  import opened PiiMask
  import opened Stash

  /** What becomes of one match: it stays, is set aside, or is replaced. */
  datatype Decision = Keep | Hold | Put(text: string)

  // ---------------------------------------------------------------- one pass

  function TextFor(s: string, m: Span, d: Decision, next: nat): string
  {
    match d
    case Keep => Cut(s, m)
    case Hold => Placeholder(next)
    case Put(text) => text
  }

  function StashAfter(s: string, m: Span, d: Decision, stash: seq<string>): seq<string>
  {
    if d.Hold? then stash + [Cut(s, m)] else stash
  }

  /** A replacement whose callback may set matches aside: the new text and the new stash. */
  function Run(s: string, spans: seq<Span>, pos: nat, decide: Span -> Decision, stash: seq<string>): (string, seq<string>)
    requires Inside(spans, pos, |s|)
    decreases |spans|
  {
    InsideBounds(spans, pos, |s|);
    if spans == [] then (s[pos..], stash)
    else
      var m := spans[0];
      var rest := Run(s, spans[1..], m.to, decide, StashAfter(s, m, decide(m), stash));
      (s[pos..m.from] + TextFor(s, m, decide(m), |stash|) + rest.0, rest.1)
  }

  function Puts(spans: seq<Span>, decide: Span -> Decision): nat
  {
    if spans == [] then 0 else (if decide(spans[0]).Put? then 1 else 0) + Puts(spans[1..], decide)
  }

  function Pass(re: Re, s: string, decide: Span -> Decision, stash: seq<string>): (string, seq<string>)
    requires Width(re) > 0
  {
    MatchesInside(re, s, 0);
    Run(s, Matches(re, s, 0), 0, decide, stash)
  }

  // ---------------------------------------------------------------- what one pass reads as

  predicate AllSolid(s: string) { forall k :: 0 <= k < |s| ==> IsSolid(s[k]) }

  ghost predicate SolidSpan(s: string, m: Span)
  {
    m.from < m.to <= |s| && forall k :: m.from <= k < m.to ==> IsSolid(s[k])
  }

  /** With placeholders filled in from `stash`: the chosen matches replaced, everything else as it was. */
  function Reading(s: string, spans: seq<Span>, pos: nat, decide: Span -> Decision, stash: seq<string>): string
    requires Inside(spans, pos, |s|)
    decreases |spans|
  {
    InsideBounds(spans, pos, |s|);
    if spans == [] then Restored(s[pos..], stash)
    else
      var m := spans[0];
      var text := match decide(m) case Put(t) => t case _ => Cut(s, m);
      Restored(s[pos..m.from], stash) + text + Reading(s, spans[1..], m.to, decide, stash)
  }

  /** What a pass sets aside, in order. */
  function Held(s: string, spans: seq<Span>, decide: Span -> Decision): seq<string>
    requires forall i :: 0 <= i < |spans| ==> spans[i].from <= spans[i].to <= |s|
  {
    if spans == [] then [] else (if decide(spans[0]).Hold? then [Cut(s, spans[0])] else []) + Held(s, spans[1..], decide)
  }

  function Numbers(low: int, high: int): (r: set<int>)
    ensures forall k :: k in r <==> low <= k < high
    decreases high - low
  {
    if low >= high then {} else {low} + Numbers(low + 1, high)
  }

  /** What a pass does: it sets the unchosen matches aside, each behind one new placeholder, and its text, placeholders
      filled in, is the text before with the chosen matches replaced. */
  ghost predicate Passed(s: string, stash: seq<string>, spans: seq<Span>, decide: Span -> Decision, r: (string, seq<string>))
    requires Inside(spans, 0, |s|) && forall i :: 0 <= i < |spans| ==> spans[i].from <= spans[i].to <= |s|
  {
    && r.1 == stash + Held(s, spans, decide)
    && Sealed(r.0, |r.1|) && Holes(r.0) == Holes(s) + Numbers(|stash|, |r.1|)
    && Restored(r.0, r.1) == Reading(s, spans, 0, decide, r.1)
  }

  lemma Parts(s: string, pos: nat, m: Span, n: nat, stash: seq<string>)
    requires pos <= m.from && SolidSpan(s, m) && Sealed(s[pos..], n)
    ensures Sealed(s[pos..m.from], n) && Sealed(s[m.to..], n)
    ensures Restored(s[pos..], stash) == Restored(s[pos..m.from], stash) + Cut(s, m) + Restored(s[m.to..], stash)
    ensures Holes(s[pos..]) == Holes(s[pos..m.from]) + Holes(s[m.to..])
  {
    hide Sealed, Restored, IsSolid, Holes;
    var gap, cut, tail := s[pos..m.from], Cut(s, m), s[m.to..];
    assert s[pos..] == gap + (cut + tail);
    assert (cut + tail)[0] == s[m.from];
    SealedSplit(gap, cut + tail, n, stash);
    SolidPrefix(cut, tail, n, stash);
    SealedJoin(gap, cut + tail, n, stash);
    assert Restored(gap, stash) + (cut + Restored(tail, stash)) == Restored(gap, stash) + cut + Restored(tail, stash);
    HolesJoin(gap, cut + tail, n);
    SolidIsSealed(cut, stash);
    HolesJoin(cut, tail, 0);
    SolidHasNoHoles(cut);
  }

  /** The text that stands for one match. */
  lemma TextIsSealed(s: string, m: Span, d: Decision, stash: seq<string>, final: seq<string>)
    requires SolidSpan(s, m) && (d.Put? ==> AllSolid(d.text)) && StashAfter(s, m, d, stash) <= final
    ensures var t := TextFor(s, m, d, |stash|);
      && Sealed(t, |final|) && Restored(t, final) == (if d.Put? then d.text else Cut(s, m))
      && Holes(t) == if d.Hold? then {|stash|} else {}
  {
    hide Sealed, Restored, IsSolid, Placeholder, Holes;
    if d.Hold? {
      PlaceholderIsSealed(|stash|, |final|, final);
      PlaceholderHole(|stash|);
      assert final[|stash|] == StashAfter(s, m, d, stash)[|stash|];
    } else {
      var t := TextFor(s, m, d, |stash|);
      SolidIsSealed(t, final);
      SolidHasNoHoles(t);
      RestoredStable(t, 0, final, final);
    }
  }

  lemma SealedThree(x: string, y: string, z: string, n: nat, stash: seq<string>)
    requires Sealed(x, n) && Sealed(y, n) && Sealed(z, n)
    ensures Sealed(x + y + z, n) && Restored(x + y + z, stash) == Restored(x, stash) + Restored(y, stash) + Restored(z, stash)
    ensures Holes(x + y + z) == Holes(x) + Holes(y) + Holes(z)
  {
    hide Sealed, Restored, Holes;
    SealedJoin(x, y, n, stash);
    SealedJoin(x + y, z, n, stash);
    HolesJoin(x, y, n);
    HolesJoin(x + y, z, n);
  }

  ghost predicate Replaceable(s: string, spans: seq<Span>, decide: Span -> Decision)
  {
    forall i :: 0 <= i < |spans| ==> SolidSpan(s, spans[i]) && (decide(spans[i]).Put? ==> AllSolid(decide(spans[i]).text))
  }

  /** From any position, read with any stash that extends the one the pass leaves. */
  lemma {:induction false} RunReads(s: string, spans: seq<Span>, pos: nat, decide: Span -> Decision, stash: seq<string>, final: seq<string>)
    requires Inside(spans, pos, |s|) && pos <= |s| && Sealed(s[pos..], |stash|) && Replaceable(s, spans, decide)
    requires Run(s, spans, pos, decide, stash).1 <= final && |stash| <= |final|
    ensures var r := Run(s, spans, pos, decide, stash);
      && Sealed(r.0, |final|) && Restored(r.0, final) == Reading(s, spans, pos, decide, final)
      && stash <= r.1 && Holes(r.0) == Holes(s[pos..]) + Numbers(|stash|, |r.1|)
    decreases |spans|
  {
    hide Sealed, Restored, SolidSpan, Placeholder, AllSolid, Holes;
    if spans == [] {
      RestoredStable(s[pos..], |stash|, stash, stash + final[|stash|..]);
    } else {
      InsideBounds(spans, pos, |s|);
      var m := spans[0];
      var next := StashAfter(s, m, decide(m), stash);
      Parts(s, pos, m, |stash|, stash);
      RestoredStable(s[m.to..], |stash|, stash, next);
      RestGrows(s, spans[1..], m.to, decide, next);
      RunReads(s, spans[1..], m.to, decide, next, final);
      var rest := Run(s, spans[1..], m.to, decide, next);
      TextIsSealed(s, m, decide(m), stash, final);
      RestoredStable(s[pos..m.from], |stash|, stash, stash + final[|stash|..]);
      SealedThree(s[pos..m.from], TextFor(s, m, decide(m), |stash|), rest.0, |final|, final);
    }
  }

  lemma {:induction false} RestGrows(s: string, spans: seq<Span>, pos: nat, decide: Span -> Decision, stash: seq<string>)
    requires Inside(spans, pos, |s|)
    requires forall i :: 0 <= i < |spans| ==> spans[i].from <= spans[i].to <= |s|
    ensures Run(s, spans, pos, decide, stash).1 == stash + Held(s, spans, decide)
    decreases |spans|
  {
    hide Run, Held, Cut;
    HeldStep(s, spans, decide);
    if spans == [] {
      InsideBounds(spans, pos, |s|);
      RunNothing(s, pos, decide, stash);
      assert stash + [] == stash;
    } else {
      InsideBounds(spans, pos, |s|);
      var next := StashAfter(s, spans[0], decide(spans[0]), stash);
      RunStep(s, spans, 0, pos, decide, stash);
      assert spans[0..] == spans;
      RestGrows(s, spans[1..], spans[0].to, decide, next);
      var rest := Held(s, spans[1..], decide);
      assert (stash + [Cut(s, spans[0])]) + rest == stash + ([Cut(s, spans[0])] + rest);
      assert stash + ([] + rest) == stash + rest;
    }
  }

  lemma HeldStep(s: string, spans: seq<Span>, decide: Span -> Decision)
    requires forall i :: 0 <= i < |spans| ==> spans[i].from <= spans[i].to <= |s|
    ensures spans == [] ==> Held(s, spans, decide) == []
    ensures spans != [] ==>
      Held(s, spans, decide) == (if decide(spans[0]).Hold? then [Cut(s, spans[0])] else []) + Held(s, spans[1..], decide)
  {
  }

  /** An expression that takes solid characters only. */
  ghost predicate TakesSolid(re: Re, chars: char -> bool)
  {
    Width(re) > 0 && Only(re, chars) && forall c :: chars(c) ==> IsSolid(c)
  }

  lemma SpansSolid(re: Re, chars: char -> bool, s: string)
    requires TakesSolid(re, chars)
    ensures Inside(Matches(re, s, 0), 0, |s|)
    ensures forall i :: 0 <= i < |Matches(re, s, 0)| ==> SolidSpan(s, Matches(re, s, 0)[i])
  {
    hide Only, Matches, IsSolid;
    var spans := Matches(re, s, 0);
    MatchesInside(re, s, 0);
    SpansOnly(re, chars, s, 0);
    SpansWide(re, s, 0);
    forall i | 0 <= i < |spans| ensures SolidSpan(s, spans[i]) {
      assert AllIn(chars, s, spans[i].from, spans[i].to);
    }
  }

  lemma PassReads(re: Re, chars: char -> bool, s: string, decide: Span -> Decision, stash: seq<string>)
    requires TakesSolid(re, chars) && Sealed(s, |stash|)
    requires forall m :: SolidSpan(s, m) && decide(m).Put? ==> AllSolid(decide(m).text)
    ensures Inside(Matches(re, s, 0), 0, |s|)
    ensures forall i :: 0 <= i < |Matches(re, s, 0)| ==> Matches(re, s, 0)[i].from <= Matches(re, s, 0)[i].to <= |s|
    ensures Passed(s, stash, Matches(re, s, 0), decide, Pass(re, s, decide, stash))
  {
    hide Only, Sealed, Matches, Restored, Run, SolidSpan, AllSolid, Holes, Reading, Held, Numbers;
    var spans := Matches(re, s, 0);
    SpansSolid(re, chars, s);
    SolidIsProper(s, spans);
    assert s[0..] == s;
    RestGrows(s, spans, 0, decide, stash);
    var final := Run(s, spans, 0, decide, stash).1;
    RunReads(s, spans, 0, decide, stash, final);
  }

  lemma SolidIsProper(s: string, spans: seq<Span>)
    requires forall i :: 0 <= i < |spans| ==> SolidSpan(s, spans[i])
    ensures forall i :: 0 <= i < |spans| ==> spans[i].from <= spans[i].to <= |s|
  {
  }

  /** `after` with `larger` says what `before` says with `stash`. */
  ghost predicate SameText(before: string, stash: seq<string>, after: string, larger: seq<string>)
  {
    Sealed(after, |larger|) && Restored(after, larger) == Restored(before, stash)
  }

  lemma {:induction false} ReadingVerbatim(s: string, spans: seq<Span>, pos: nat, decide: Span -> Decision, n: nat, stash: seq<string>)
    requires Inside(spans, pos, |s|) && pos <= |s| && Sealed(s[pos..], n)
    requires forall i :: 0 <= i < |spans| ==> SolidSpan(s, spans[i]) && !decide(spans[i]).Put?
    ensures Reading(s, spans, pos, decide, stash) == Restored(s[pos..], stash)
    decreases |spans|
  {
    hide Sealed, Restored, SolidSpan, Holes;
    if spans != [] {
      InsideBounds(spans, pos, |s|);
      Parts(s, pos, spans[0], n, stash);
      ReadingVerbatim(s, spans[1..], spans[0].to, decide, n, stash);
    }
  }

  /** A pass that replaces nothing leaves the reading as it was. */
  lemma PassHolds(re: Re, chars: char -> bool, s: string, decide: Span -> Decision, stash: seq<string>)
    requires TakesSolid(re, chars) && Sealed(s, |stash|) && forall m: Span :: !decide(m).Put?
    ensures var r := Pass(re, s, decide, stash); SameText(s, stash, r.0, r.1)
  {
    hide Only, Sealed, Matches, Restored, Run, SolidSpan, AllSolid, Holes, Reading, Held, Numbers;
    var spans := Matches(re, s, 0);
    var r := Pass(re, s, decide, stash);
    PassReads(re, chars, s, decide, stash);
    SpansSolid(re, chars, s);
    assert s[0..] == s;
    ReadingVerbatim(s, spans, 0, decide, |stash|, r.1);
    RestoredStable(s, |stash|, stash, r.1);
  }

  lemma {:induction false} SpansWide(re: Re, s: string, pos: nat)
    requires pos <= |s| && Width(re) > 0
    ensures forall k :: 0 <= k < |Matches(re, s, pos)| ==> Matches(re, s, pos)[k].from < Matches(re, s, pos)[k].to
    decreases |s| - pos
  {
    hide Search;
    if Search(re, s, pos).Some? {
      SpansWide(re, s, Search(re, s, pos).value.to);
    }
  }

  lemma {:induction false} NothingPut(spans: seq<Span>, decide: Span -> Decision)
    requires forall m: Span :: !decide(m).Put?
    ensures Puts(spans, decide) == 0
  {
    if spans != [] {
      NothingPut(spans[1..], decide);
    }
  }

  // ---------------------------------------------------------------- nothing set aside

  /** When nothing is set aside, a pass is the plain replacement. */
  lemma {:induction false} PuttingIsSplicing(s: string, spans: seq<Span>, pos: nat, decide: Span -> Decision, f: Span -> string, stash: seq<string>)
    requires Inside(spans, pos, |s|)
    requires forall m: Span :: decide(m) == Put(f(m)) || (decide(m) == Keep && f(m) == Cut(s, m))
    ensures Run(s, spans, pos, decide, stash) == (Splice(s, spans, pos, f), stash)
    decreases |spans|
  {
    hide Cut;
    if spans != [] {
      InsideBounds(spans, pos, |s|);
      PuttingIsSplicing(s, spans[1..], spans[0].to, decide, f, stash);
    }
  }

  lemma PassPuts(re: Re, s: string, decide: Span -> Decision, f: Span -> string, stash: seq<string>)
    requires Width(re) > 0
    requires forall m: Span :: decide(m) == Put(f(m)) || (decide(m) == Keep && f(m) == Cut(s, m))
    ensures Pass(re, s, decide, stash) == (ReplaceAll(re, s, f), stash)
  {
    hide Matches, Run, Splice, Cut;
    Unfolded(re, s, f);
    PuttingIsSplicing(s, Matches(re, s, 0), 0, decide, f, stash);
  }

  // ---------------------------------------------------------------- placeholders are accounted for

  /** Solid characters, and one placeholder at least for every entry of the stash. */
  ghost predicate Accounted(s: string, stash: seq<string>)
  {
    Sealed(s, |stash|) && Holes(s) == Numbers(0, |stash|)
  }

  lemma PassAccounts(re: Re, chars: char -> bool, s: string, decide: Span -> Decision, stash: seq<string>)
    requires TakesSolid(re, chars) && Accounted(s, stash)
    requires forall m :: SolidSpan(s, m) && decide(m).Put? ==> AllSolid(decide(m).text)
    ensures var r := Pass(re, s, decide, stash); Accounted(r.0, r.1) && stash <= r.1
  {
    hide TakesSolid, Sealed, Matches, Restored, Pass, SolidSpan, AllSolid, Holes, Reading, Held;
    PassReads(re, chars, s, decide, stash);
  }

  /** A replacement that touches no placeholder keeps the account. */
  lemma ReplacedAccounts(re: Re, chars: char -> bool, s: string, f: Span -> string, stash: seq<string>)
    requires TakesSolid(re, chars) && Accounted(s, stash) && forall m :: SolidSpan(s, m) ==> AllSolid(f(m))
    ensures Accounted(ReplaceAll(re, s, f), stash)
  {
    hide Only, Accounted, Matches, Pass, SolidSpan, AllSolid, ReplaceAll;
    var decide := (m: Span) => Put(f(m));
    PassAccounts(re, chars, s, decide, stash);
    PassPuts(re, s, decide, f, stash);
  }

  // ---------------------------------------------------------------- marks are counted

  /** A pass that puts `k` of a mark for each match it replaces. */
  lemma {:induction false} RunCounts(s: string, spans: seq<Span>, pos: nat, decide: Span -> Decision, stash: seq<string>, c: char, k: nat)
    requires Inside(spans, pos, |s|) && IsMark(c)
    requires forall i :: 0 <= i < |spans| ==> spans[i].from <= spans[i].to <= |s| && c !in Cut(s, spans[i])
    requires forall i :: 0 <= i < |spans| && decide(spans[i]).Put? ==> CountOf(decide(spans[i]).text, c) == k
    ensures pos <= |s| && CountOf(Run(s, spans, pos, decide, stash).0, c) == CountOf(s[pos..], c) + k * Puts(spans, decide)
    decreases |spans|
  {
    hide CountOf, Cut, Placeholder;
    InsideBounds(spans, pos, |s|);
    if spans != [] {
      var m := spans[0];
      var next := StashAfter(s, m, decide(m), stash);
      RunCounts(s, spans[1..], m.to, decide, next, c, k);
      CutBetween(s, pos, m, c);
      CountNone(Cut(s, m), c);
      NoMarkInPlaceholder(|stash|, c);
      CountThree(s[pos..m.from], TextFor(s, m, decide(m), |stash|), Run(s, spans[1..], m.to, decide, next).0, c);
      OnePut(k, spans, decide);
    }
  }

  lemma OnePut(k: nat, spans: seq<Span>, decide: Span -> Decision)
    requires spans != []
    ensures k * Puts(spans, decide) == (if decide(spans[0]).Put? then k else 0) + k * Puts(spans[1..], decide)
  {
    var rest := Puts(spans[1..], decide);
    if decide(spans[0]).Put? {
      assert Puts(spans, decide) == 1 + rest;
      OneMore(k, rest);
    } else {
      assert Puts(spans, decide) == rest;
    }
  }

  lemma OneMore(k: nat, n: nat)
    ensures k * (1 + n) == k + k * n
  {
  }

  lemma NoMarkInPlaceholder(n: nat, c: char)
    requires IsMark(c)
    ensures CountOf(Placeholder(n), c) == 0
  {
    hide Encoded, CountOf;
    CountNone(Placeholder(n), c);
  }

  lemma PassCounts(re: Re, s: string, decide: Span -> Decision, stash: seq<string>, c: char, k: nat)
    requires TakesSolid(re, IsPlain) && IsMark(c)
    requires forall m: Span :: decide(m).Put? && c !in Cut(s, m) ==> CountOf(decide(m).text, c) == k
    ensures CountOf(Pass(re, s, decide, stash).0, c) == CountOf(s, c) + k * Puts(Matches(re, s, 0), decide)
  {
    hide Only, Matches, CountOf, Cut, Run, Puts, IsPlain;
    var spans := Matches(re, s, 0);
    SpansSolid(re, IsPlain, s);
    SpansOnly(re, IsPlain, s, 0);
    MarksArePrivate(c);
    forall i | 0 <= i < |spans| ensures spans[i].from <= spans[i].to <= |s| && c !in Cut(s, spans[i]) {
      CutOnly(IsPlain, s, spans[i], c);
    }
    assert s[0..] == s;
    RunCounts(s, spans, 0, decide, stash, c, k);
  }

  lemma MarksArePrivate(c: char)
    ensures IsMark(c) ==> !IsPlain(c)
  {
  }

  // ---------------------------------------------------------------- the pass as it runs

  /** What has been set aside during one call. */
  class Vault {
    var stash: seq<string>

    constructor ()
      ensures stash == []
    {
      stash := [];
    }

    /** `hold`. */
    method Hold(original: string) returns (placeholder: string)
      modifies this
      ensures stash == old(stash) + [original] && placeholder == Placeholder(|old(stash)|)
    {
      stash := stash + [original];
      var code := EncodeIndex(|stash| - 1);
      return [OPEN] + code + [CLOSE];
    }

    /** `applyMatch`: a match stays, is set aside, or is replaced. */
    method ApplyMatch(s: string, m: Span, d: Decision) returns (text: string)
      requires m.from <= m.to <= |s|
      modifies this
      ensures text == TextFor(s, m, d, |old(stash)|) && stash == StashAfter(s, m, d, old(stash))
    {
      text := Cut(s, m);
      match d {
        case Keep =>
        case Hold => text := Hold(text);
        case Put(t) => text := t;
      }
    }

    /** `input.replace` with a callback that may set matches aside. */
    method ReplaceMatches(s: string, spans: seq<Span>, decide: Span -> Decision) returns (out: string, put: nat)
      requires Inside(spans, 0, |s|)
      modifies this
      ensures (out, stash) == Run(s, spans, 0, decide, old(stash)) && put == Puts(spans, decide)
    {
      hide *;
      var pos := 0;
      out, put := "", 0;
      assert spans[0..] == spans;
      assert "" + Run(s, spans, 0, decide, stash).0 == Run(s, spans, 0, decide, stash).0;
      for i := 0 to |spans|
        invariant 0 <= pos <= |s| && Inside(spans[i..], pos, |s|)
        invariant out + Run(s, spans[i..], pos, decide, stash).0 == Run(s, spans, 0, decide, old(stash)).0
        invariant Run(s, spans[i..], pos, decide, stash).1 == Run(s, spans, 0, decide, old(stash)).1
        invariant put + Puts(spans[i..], decide) == Puts(spans, decide)
      {
        var m := spans[i];
        RunStep(s, spans, i, pos, decide, stash);
        var text := ApplyMatch(s, m, decide(m));
        Regrouped(out, s[pos..m.from], text, Run(s, spans[i + 1..], m.to, decide, stash).0);
        if decide(m).Put? {
          put := put + 1;
        }
        out := out + s[pos..m.from] + text;
        pos := m.to;
      }
      assert spans[|spans|..] == [];
      RunNothing(s, pos, decide, stash);
      out := out + s[pos..];
    }
  }

  lemma Regrouped(a: string, b: string, c: string, d: string)
    ensures a + (b + c + d) == (a + b + c) + d
  {
  }

  lemma RunStep(s: string, spans: seq<Span>, i: nat, pos: nat, decide: Span -> Decision, stash: seq<string>)
    requires i < |spans| && pos <= |s| && Inside(spans[i..], pos, |s|)
    ensures pos <= spans[i].from <= spans[i].to <= |s| && Inside(spans[i + 1..], spans[i].to, |s|)
    ensures var m := spans[i];
      var rest := Run(s, spans[i + 1..], m.to, decide, StashAfter(s, m, decide(m), stash));
      Run(s, spans[i..], pos, decide, stash) == (s[pos..m.from] + TextFor(s, m, decide(m), |stash|) + rest.0, rest.1)
    ensures Puts(spans[i..], decide) == (if decide(spans[i]).Put? then 1 else 0) + Puts(spans[i + 1..], decide)
  {
    hide TextFor, StashAfter;
    InsideBounds(spans[i..], pos, |s|);
    assert spans[i..][0] == spans[i] && spans[i..][1..] == spans[i + 1..];
  }

  lemma RunNothing(s: string, pos: nat, decide: Span -> Decision, stash: seq<string>)
    requires pos <= |s|
    ensures Run(s, [], pos, decide, stash) == (s[pos..], stash) && Puts([], decide) == 0
  {
  }

  method Step(re: Re, s: string, decide: Span -> Decision, vault: Vault) returns (out: string, put: nat)
    requires Width(re) > 0
    modifies vault
    ensures (out, vault.stash) == Pass(re, s, decide, old(vault.stash)) && put == Puts(Matches(re, s, 0), decide)
  {
    MatchesInside(re, s, 0);
    out, put := vault.ReplaceMatches(s, Matches(re, s, 0), decide);
  }
}
