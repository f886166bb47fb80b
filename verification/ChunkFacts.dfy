/** How the three reinforcement expressions match: chunks are maximal, and runs and groups of digits stand alone. */
module ChunkFacts {
  import opened Prelude
  import opened Texts
  import opened Regex
  import opened MaskRules
  import opened MarkFacts

  // ---------------------------------------------------------------- first ends

  lemma {:induction false} ThroughHead(re: Re, s: string, least: nat, starts: seq<nat>) returns (k: nat)
    requires forall k :: 0 <= k < |starts| ==> least <= starts[k] <= |s|
    requires Through(re, s, least, starts) != []
    ensures k < |starts| && Ends(re, s, starts[k]) != []
    ensures Through(re, s, least, starts)[0] == Ends(re, s, starts[k])[0]
  {
    hide Ends;
    if Ends(re, s, starts[0]) != [] {
      k := 0;
    } else {
      k := ThroughHead(re, s, least, starts[1..]);
      k := k + 1;
    }
  }

  lemma ThroughFirst(re: Re, s: string, least: nat, starts: seq<nat>)
    requires forall k :: 0 <= k < |starts| ==> least <= starts[k] <= |s|
    requires starts != [] && Ends(re, s, starts[0]) != []
    ensures Through(re, s, least, starts) != []
  {
    hide Ends;
  }

  lemma ThroughOne(re: Re, s: string, i: nat)
    requires i <= |s|
    ensures Through(re, s, i, [i]) == Ends(re, s, i)
  {
    hide Ends;
    assert Through(re, s, i, []) == [];
    assert Ends(re, s, i) + [] == Ends(re, s, i);
  }

  lemma AnyDigitsEnds(s: string, i: nat)
    requires i <= |s|
    ensures Ends(AnyDigits(), s, i) == Descending(RunEnd(IsDigit, s, i), i)
    ensures Ends(AnyDigits(), s, i) != [] && Ends(AnyDigits(), s, i)[0] == RunEnd(IsDigit, s, i)
  {
  }

  // ---------------------------------------------------------------- links and chunks

  lemma LinkEnds(s: string, i: nat)
    requires i <= |s|
    ensures Ends(Link(), s, i) == Through(AnyDigits(), s, i + 1, Ends(Token(), s, i))
  {
    hide Token, AnyDigits, Through, Width;
    assert Width(Token()) == 1 by { TokenIsWide(); }
  }

  lemma TokenIsWide()
    ensures Width(Token()) == 1
  {
  }

  lemma LinkHead(s: string, i: nat)
    requires i <= |s| && Ends(Link(), s, i) != []
    ensures i < Ends(Link(), s, i)[0] <= |s|
    ensures Ends(Link(), s, i)[0] < |s| ==> !IsDigit(s[Ends(Link(), s, i)[0]])
  {
    hide Ends, Token, AnyDigits, Link, IsDigit;
    TokenIsWide();
    LinkEnds(s, i);
    var k := ThroughHead(AnyDigits(), s, i + 1, Ends(Token(), s, i));
    AnyDigitsEnds(s, Ends(Token(), s, i)[k]);
  }

  lemma LinkAtMark(s: string, i: nat)
    requires i < |s| && IsMark(s[i])
    ensures Ends(Link(), s, i) != []
  {
    hide Through, AnyDigits, Width;
    TokenIsWide();
    LinkEnds(s, i);
    var one := One(IsMark);
    assert RunEnd(IsMark, s, i) >= i + 1;
    assert Ends(one, s, i) == Descending(i + 1, i + 1);
    assert Ends(Token(), s, i)[0] == i + 1;
    AnyDigitsEnds(s, i + 1);
    ThroughFirst(AnyDigits(), s, i + 1, Ends(Token(), s, i));
  }

  /** Neither a digit nor another link follows. */
  ghost predicate Settled(s: string, b: nat)
  {
    b >= |s| || (!IsDigit(s[b]) && Ends(Link(), s, b) == [])
  }

  lemma {:induction false} MoreSettles(s: string, e: nat)
    requires e <= |s| && (e < |s| ==> !IsDigit(s[e]))
    ensures Settled(s, More(Link(), s, e)[0])
    decreases |s| - e
  {
    hide Ends, Link, IsDigit;
    if e < |s| && Ends(Link(), s, e) != [] {
      LinkHead(s, e);
      var ends := Ends(Link(), s, e);
      var beyond := Beyond(ends, e);
      assert beyond[0] == ends[0];
      MoreSettles(s, beyond[0]);
    } else if e < |s| {
      assert Rounds(Link(), s, e + 1, Beyond([], e)) == [];
    }
  }

  lemma PlusSettles(s: string, i: nat)
    requires i <= |s| && Ends(Plus(Link()), s, i) != []
    ensures Settled(s, Ends(Plus(Link()), s, i)[0])
  {
    hide Settled, Link, IsDigit;
    var ends := Ends(Link(), s, i);
    assert Ends(Plus(Link()), s, i) == Rounds(Link(), s, i + Width(Link()), ends);
    LinkHead(s, i);
    MoreSettles(s, ends[0]);
  }

  function Body(): Re { Cat(AnyDigits(), Plus(Link())) }

  lemma BodyEnds(s: string, i: nat)
    requires i <= |s|
    ensures Ends(Body(), s, i) == Through(Plus(Link()), s, i, Descending(RunEnd(IsDigit, s, i), i))
  {
    hide Through, Link, RunEnd;
    AnyDigitsEnds(s, i);
  }

  lemma ChunkEnds(s: string, i: nat)
    requires i <= |s|
    ensures Ends(Chunk(), s, i) == if i > 0 && IsDigit(s[i - 1]) then [] else Ends(Body(), s, i)
  {
    hide Body, Link, AnyDigits;
    ThroughOne(Body(), s, i);
    assert Chunk() == Cat(NotBehind(IsDigit), Body()) by { ChunkParts(); }
    assert Ends(NotBehind(IsDigit), s, i) == if i > 0 && IsDigit(s[i - 1]) then [] else [i];
  }

  lemma ChunkParts()
    ensures Chunk() == Cat(NotBehind(IsDigit), Body())
  {
  }

  /** A chunk begins after no digit and takes all the digits and marks there are. */
  lemma ChunkSettles(s: string, a: nat)
    requires a <= |s| && Ends(Chunk(), s, a) != []
    ensures a > 0 ==> !IsDigit(s[a - 1])
    ensures Settled(s, Ends(Chunk(), s, a)[0])
  {
    hide Ends, Settled, IsDigit, Link, Body, Chunk;
    ChunkEnds(s, a);
    BodyEnds(s, a);
    var starts := Descending(RunEnd(IsDigit, s, a), a);
    var k := ThroughHead(Plus(Link()), s, a, starts);
    PlusSettles(s, starts[k]);
  }

  /** Where the run of digits that ends at `p` begins, not before `pos`. */
  function RunStart(s: string, pos: nat, p: nat): (q: nat)
    requires pos <= p <= |s|
    ensures pos <= q <= p && (forall k :: q <= k < p ==> IsDigit(s[k])) && (q > pos ==> !IsDigit(s[q - 1]))
    decreases p
  {
    if p > pos && IsDigit(s[p - 1]) then RunStart(s, pos, p - 1) else p
  }

  lemma {:induction false} RunEndAt(s: string, q: nat, p: nat)
    requires q <= p <= |s| && (forall k :: q <= k < p ==> IsDigit(s[k])) && (p < |s| ==> !IsDigit(s[p]))
    ensures RunEnd(IsDigit, s, q) == p
    decreases p - q
  {
    if q < p {
      RunEndAt(s, q + 1, p);
    }
  }

  /** No mark is passed over: a chunk starts at it or at the digits before it. */
  lemma MarkIsCovered(s: string, pos: nat, p: nat) returns (q: nat)
    requires pos <= p < |s| && IsMark(s[p]) && (pos > 0 ==> Settled(s, pos))
    ensures pos <= q <= p && Ends(Chunk(), s, q) != []
  {
    hide Ends, Link, Body, IsDigit, IsMark, Chunk;
    q := RunStart(s, pos, p);
    MarkIsMark();
    LinkAtMark(s, p);
    RunEndAt(s, q, p);
    assert pos > 0 ==> q > pos;
    ChunkEnds(s, q);
    BodyEnds(s, q);
    assert Ends(Plus(Link()), s, p) != [] by { PlusAtMark(s, p); }
    ThroughFirst(Plus(Link()), s, q, Descending(p, q));
  }

  lemma PlusAtMark(s: string, p: nat)
    requires p < |s| && Ends(Link(), s, p) != []
    ensures Ends(Plus(Link()), s, p) != []
  {
    hide Link;
  }

  // ---------------------------------------------------------------- long runs and AMEX groups

  lemma ThroughNext(re: Re, s: string, i: nat)
    requires i <= |s|
    ensures Ends(Cat(NotBehind(IsDigit), re), s, i) == if i > 0 && IsDigit(s[i - 1]) then [] else Ends(re, s, i)
  {
    hide IsDigit;
    ThroughOne(re, s, i);
    assert Ends(NotBehind(IsDigit), s, i) == if i > 0 && IsDigit(s[i - 1]) then [] else [i];
  }

  function Run14(): Re { Cat(Rep(IsDigit, 14, None), NotAhead(IsDigit)) }

  lemma Run14Ends(s: string, i: nat)
    requires i <= |s|
    ensures var r := RunEnd(IsDigit, s, i);
            Ends(Run14(), s, i) == Through(NotAhead(IsDigit), s, i + 14, if r < i + 14 then [] else Descending(r, i + 14))
  {
    hide RunEnd, Descending, Through, IsDigit;
    assert Ends(Rep(IsDigit, 14, None), s, i)
        == var r := RunEnd(IsDigit, s, i); if r < i + 14 then [] else Descending(r, i + 14);
  }

  lemma NotAheadHead(chars: char -> bool, s: string, least: nat, starts: seq<nat>)
    requires forall k :: 0 <= k < |starts| ==> least <= starts[k] <= |s|
    requires Through(NotAhead(chars), s, least, starts) != []
    ensures var b := Through(NotAhead(chars), s, least, starts)[0]; b < |s| ==> !chars(s[b])
  {
    var k := ThroughHead(NotAhead(chars), s, least, starts);
  }

  /** A match of the long-run expression is a whole run of digits; every run of 14 digits or more is matched at its start. */
  lemma LongIsWholeRun(s: string, i: nat)
    requires i <= |s|
    ensures Ends(Long(), s, i) != [] <==> !(i > 0 && IsDigit(s[i - 1])) && RunEnd(IsDigit, s, i) >= i + 14
    ensures Ends(Long(), s, i) != [] ==> Ends(Long(), s, i)[0] < |s| ==> !IsDigit(s[Ends(Long(), s, i)[0]])
  {
    hide Ends, IsDigit, Through;
    assert Long() == Cat(NotBehind(IsDigit), Run14());
    ThroughNext(Run14(), s, i);
    Run14Ends(s, i);
    var r := RunEnd(IsDigit, s, i);
    if r >= i + 14 {
      assert Ends(NotAhead(IsDigit), s, r) != [] by { NothingAhead(s, r); }
      ThroughFirst(NotAhead(IsDigit), s, i + 14, Descending(r, i + 14));
      NotAheadHead(IsDigit, s, i + 14, Descending(r, i + 14));
    } else {
      assert Through(NotAhead(IsDigit), s, i + 14, []) == [] by { ThroughNone(NotAhead(IsDigit), s, i + 14); }
    }
  }

  lemma ThroughNone(re: Re, s: string, least: nat)
    ensures Through(re, s, least, []) == []
  {
  }

  lemma NothingAhead(s: string, r: nat)
    requires r <= |s| && (r < |s| ==> !IsDigit(s[r]))
    ensures Ends(NotAhead(IsDigit), s, r) == [r]
  {
  }

  /** Whatever comes before it, an expression that ends in a look-ahead ends where the look-ahead allows. */
  lemma EndsAhead(first: Re, rest: Re, chars: char -> bool, s: string, i: nat)
    requires i <= |s| && forall j :: 0 <= j <= |s| ==> HeadIsFree(rest, chars, s, j)
    ensures HeadIsFree(Cat(first, rest), chars, s, i)
  {
    hide Ends;
    assert Ends(Cat(first, rest), s, i) == Through(rest, s, i + Width(first), Ends(first, s, i)) by { CatEnds(first, rest, s, i); }
    if Ends(Cat(first, rest), s, i) != [] {
      var k := ThroughHead(rest, s, i + Width(first), Ends(first, s, i));
      assert HeadIsFree(rest, chars, s, Ends(first, s, i)[k]);
    }
  }

  lemma CatEnds(first: Re, rest: Re, s: string, i: nat)
    requires i <= |s|
    ensures Ends(Cat(first, rest), s, i) == Through(rest, s, i + Width(first), Ends(first, s, i))
  {
  }

  /** The preferred end of a match at `i` is not followed by one of `chars`. */
  ghost predicate HeadIsFree(re: Re, chars: char -> bool, s: string, i: int)
  {
    0 <= i <= |s| ==> Ends(re, s, i) != [] && Ends(re, s, i)[0] < |s| ==> !chars(s[Ends(re, s, i)[0]])
  }

  lemma EndsAheadEverywhere(first: Re, rest: Re, chars: char -> bool, s: string)
    requires forall j :: 0 <= j <= |s| ==> HeadIsFree(rest, chars, s, j)
    ensures forall j :: 0 <= j <= |s| ==> HeadIsFree(Cat(first, rest), chars, s, j)
  {
    forall j | 0 <= j <= |s| ensures HeadIsFree(Cat(first, rest), chars, s, j) {
      EndsAhead(first, rest, chars, s, j);
    }
  }

  lemma AmexStandsAlone(s: string, i: nat)
    requires i <= |s| && Ends(Amex(), s, i) != []
    ensures i > 0 ==> !IsDigit(s[i - 1])
    ensures Ends(Amex(), s, i)[0] < |s| ==> !IsDigit(s[Ends(Amex(), s, i)[0]])
  {
    hide Ends, IsDigit, HeadIsFree;
    var a := NotAhead(IsDigit);
    forall j | 0 <= j <= |s| ensures HeadIsFree(a, IsDigit, s, j) { AheadIsFree(s, j); }
    var b := Cat(Digits(5, 5), a);
    EndsAheadEverywhere(Digits(5, 5), a, IsDigit, s);
    var c := Cat(Lit(" "), b);
    EndsAheadEverywhere(Lit(" "), b, IsDigit, s);
    var d := Cat(Digits(6, 6), c);
    EndsAheadEverywhere(Digits(6, 6), c, IsDigit, s);
    var e := Cat(Lit(" "), d);
    EndsAheadEverywhere(Lit(" "), d, IsDigit, s);
    var f := Cat(Digits(4, 4), e);
    EndsAheadEverywhere(Digits(4, 4), e, IsDigit, s);
    assert Amex() == Cat(NotBehind(IsDigit), f);
    ThroughNext(f, s, i);
    assert HeadIsFree(f, IsDigit, s, i);
    Freed(f, IsDigit, s, i);
  }

  lemma Freed(re: Re, chars: char -> bool, s: string, i: nat)
    requires i <= |s| && HeadIsFree(re, chars, s, i)
    ensures Ends(re, s, i) != [] && Ends(re, s, i)[0] < |s| ==> !chars(s[Ends(re, s, i)[0]])
  {
  }

  lemma AheadIsFree(s: string, j: nat)
    requires j <= |s|
    ensures HeadIsFree(NotAhead(IsDigit), IsDigit, s, j)
  {
  }
}
