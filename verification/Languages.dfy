/** What the expressions of Regex stand for, said without backtracking. */
module Languages {
  import opened Prelude
  import opened Regex

  /** `s[i..e]` is in the language of `re`, with its surroundings where `re` looks at them. */
  ghost predicate Accepts(re: Re, s: string, i: nat, e: nat)
    decreases re, 0, 0
  {
    && i <= e <= |s|
    && match re
       case Rep(chars, lo, hi) => lo <= e - i && (hi.Some? ==> e - i <= hi.value) && forall k :: i <= k < e ==> chars(s[k])
       case Lit(text) => s[i..e] == text
       case Cat(a, b) => exists m: nat :: Accepts(a, s, i, m) && Accepts(b, s, m, e)
       case Or(a, b) => Accepts(a, s, i, e) || Accepts(b, s, i, e)
       case Plus(a) => exists m: nat :: Accepts(a, s, i, m) && Repeats(a, s, m, e)
       case NotBehind(behind) => e == i && !(i > 0 && behind(s[i - 1]))
       case NotAhead(ahead) => e == i && !(i < |s| && ahead(s[i]))
  }

  /** No round of `body` or more of them, none of them empty. */
  ghost predicate Repeats(body: Re, s: string, i: nat, e: nat)
    decreases body, 1, if i <= e then e - i else 0
  {
    i == e <= |s| || exists m: nat :: i < m <= e && Accepts(body, s, i, m) && Repeats(body, s, m, e)
  }

  /** Backtracking reaches exactly the ends at which the text is in the language. */
  lemma {:induction false} EndsAreAccepted(re: Re, s: string, i: nat, e: nat)
    requires i <= |s|
    ensures e in Ends(re, s, i) <==> Accepts(re, s, i, e)
    decreases re, 0, 0, 0
  {
    hide Longest, Descending, Through, Rounds, Repeats;
    match re {
      case Rep(chars, lo, hi) => RunsAccepted(chars, lo, hi, s, i, e);
      case Cat(a, b) =>
        ThroughAccepted(b, s, i + Width(a), Ends(a, s, i), e);
        AllAccepted(a, s, i);
      case Or(a, b) =>
        EndsAreAccepted(a, s, i, e);
        EndsAreAccepted(b, s, i, e);
      case Plus(a) =>
        RoundsAccepted(a, s, i + Width(a), Ends(a, s, i), e);
        AllAccepted(a, s, i);
      case _ =>
    }
  }

  lemma {:induction false} AllAccepted(re: Re, s: string, i: nat)
    requires i <= |s|
    ensures forall m: nat :: m in Ends(re, s, i) <==> Accepts(re, s, i, m)
    decreases re, 0, 0, 1
  {
    forall m: nat ensures m in Ends(re, s, i) <==> Accepts(re, s, i, m) {
      EndsAreAccepted(re, s, i, m);
    }
  }

  lemma RunsAccepted(chars: char -> bool, lo: nat, hi: Option<nat>, s: string, i: nat, e: nat)
    requires i <= |s|
    ensures e in Ends(Rep(chars, lo, hi), s, i) <==> Accepts(Rep(chars, lo, hi), s, i, e)
  {
    var far := Longest(chars, hi, s, i);
    var ends := Ends(Rep(chars, lo, hi), s, i);
    if i + lo <= e <= far {
      assert ends[far - e] == e;
    }
  }

  lemma {:induction false} ThroughAccepted(re: Re, s: string, least: nat, starts: seq<nat>, e: nat)
    requires forall k :: 0 <= k < |starts| ==> least <= starts[k] <= |s|
    ensures e in Through(re, s, least, starts) <==> exists m: nat :: m in starts && Accepts(re, s, m, e)
    decreases re, 1, 0, |starts|
  {
    if starts != [] {
      EndsAreAccepted(re, s, starts[0], e);
      ThroughAccepted(re, s, least, starts[1..], e);
      hide Ends, Accepts;
      assert Through(re, s, least, starts) == Ends(re, s, starts[0]) + Through(re, s, least, starts[1..]);
      hide Through;
      assert forall m: nat :: m in starts <==> m == starts[0] || m in starts[1..];
    }
  }

  lemma {:induction false} RoundsAccepted(body: Re, s: string, least: nat, starts: seq<nat>, e: nat)
    requires forall k :: 0 <= k < |starts| ==> least <= starts[k] <= |s|
    ensures e in Rounds(body, s, least, starts) <==> exists m: nat :: m in starts && Repeats(body, s, m, e)
    decreases body, 2, if starts == [] then 0 else |s| - least, |starts|
  {
    if starts != [] {
      MoreAccepted(body, s, starts[0], e);
      RoundsAccepted(body, s, least, starts[1..], e);
      hide More, Repeats;
      assert Rounds(body, s, least, starts) == More(body, s, starts[0]) + Rounds(body, s, least, starts[1..]);
      hide Rounds;
      assert forall m: nat :: m in starts <==> m == starts[0] || m in starts[1..];
    }
  }

  lemma {:induction false} BeyondHas(ends: seq<nat>, i: nat, m: nat)
    ensures m in Beyond(ends, i) <==> m in ends && m > i
  {
    if ends != [] {
      BeyondHas(ends[1..], i, m);
    }
  }

  lemma {:induction false} MoreAccepted(body: Re, s: string, i: nat, e: nat)
    requires i <= |s|
    ensures e in More(body, s, i) <==> Repeats(body, s, i, e)
    decreases body, 2, |s| - i, 0
  {
    if i < |s| {
      var ends := Ends(body, s, i);
      var beyond := Beyond(ends, i);
      AllAccepted(body, s, i);
      RoundsAccepted(body, s, i + 1, beyond, e);
      forall m: nat ensures m in beyond <==> m > i && Accepts(body, s, i, m) {
        BeyondHas(ends, i, m);
      }
      OneRound(body, s, i, e, beyond);
    }
  }

  lemma OneRound(body: Re, s: string, i: nat, e: nat, beyond: seq<nat>)
    requires i <= |s| && forall m: nat :: m in beyond <==> m > i && Accepts(body, s, i, m)
    ensures Repeats(body, s, i, e) <==> i == e || exists m: nat :: m in beyond && Repeats(body, s, m, e)
  {
    hide Accepts;
    if m: nat :| m in beyond && Repeats(body, s, m, e) {
      RepeatsForward(body, s, m, e);
    }
  }

  lemma {:induction false} RepeatsForward(body: Re, s: string, i: nat, e: nat)
    requires Repeats(body, s, i, e)
    ensures i <= e <= |s|
    decreases if i <= e then e - i else 0
  {
    hide Accepts;
    if i != e {
      var m: nat :| i < m <= e && Accepts(body, s, i, m) && Repeats(body, s, m, e);
      RepeatsForward(body, s, m, e);
    }
  }
}
