/** The part of JavaScript's backtracking regular expressions that the masking rules use. */
module Regex {
  import opened Prelude

  datatype Re =
    | Rep(chars: char -> bool, lo: nat, hi: Option<nat>)   // greedy repetition of one class of characters
    | Lit(text: string)
    | Cat(first: Re, second: Re)
    | Or(left: Re, right: Re)
    | Plus(body: Re)                                       // greedy, one round or more
    | NotBehind(behind: char -> bool)                      // (?<![...])
    | NotAhead(ahead: char -> bool)                        // (?![...])

  function One(chars: char -> bool): Re { Rep(chars, 1, Some(1)) }

  function Optional(re: Re): Re { Or(re, Lit("")) }

  /** The least number of characters a match takes. */
  function Width(re: Re): nat
  {
    match re
    case Rep(_, lo, _) => lo
    case Lit(text) => |text|
    case Cat(a, b) => Width(a) + Width(b)
    case Or(a, b) => Min(Width(a), Width(b))
    case Plus(a) => Width(a)
    case _ => 0
  }

  /** Where the run of `chars` that starts at `i` ends. */
  function RunEnd(chars: char -> bool, s: string, i: nat): (j: nat)
    requires i <= |s|
    ensures i <= j <= |s|
    ensures forall k :: i <= k < j ==> chars(s[k])
    ensures j < |s| ==> !chars(s[j])
    decreases |s| - i
  {
    if i < |s| && chars(s[i]) then RunEnd(chars, s, i + 1) else i
  }

  function Descending(from: nat, to: nat): (r: seq<nat>)
    requires to <= from + 1
    ensures |r| == from + 1 - to && forall k :: 0 <= k < |r| ==> r[k] == from - k
  {
    seq(from + 1 - to, k requires 0 <= k < from + 1 - to => from - k)
  }

  function Longest(chars: char -> bool, hi: Option<nat>, s: string, i: nat): (j: nat)
    requires i <= |s|
    ensures i <= j <= RunEnd(chars, s, i)
  {
    var far := RunEnd(chars, s, i);
    if hi.Some? then Min(far, i + hi.value) else far
  }

  /** Every end of a match of `re` at `i`, in the order in which backtracking tries them. */
  function Ends(re: Re, s: string, i: nat): (r: seq<nat>)
    requires i <= |s|
    ensures forall k :: 0 <= k < |r| ==> i + Width(re) <= r[k] <= |s|
    decreases re, 0, 0, 0
  {
    match re
    case Rep(chars, lo, hi) =>
      var far := Longest(chars, hi, s, i);
      if far < i + lo then [] else Descending(far, i + lo)
    case Lit(text) => if i + |text| <= |s| && s[i..i + |text|] == text then [i + |text|] else []
    case Cat(a, b) => Through(b, s, i + Width(a), Ends(a, s, i))
    case Or(a, b) => Ends(a, s, i) + Ends(b, s, i)
    case Plus(a) => Rounds(a, s, i + Width(a), Ends(a, s, i))
    case NotBehind(behind) => if i > 0 && behind(s[i - 1]) then [] else [i]
    case NotAhead(ahead) => if i < |s| && ahead(s[i]) then [] else [i]
  }

  /** The ends of `re` from each of `starts` in turn. */
  function Through(re: Re, s: string, least: nat, starts: seq<nat>): (r: seq<nat>)
    requires forall k :: 0 <= k < |starts| ==> least <= starts[k] <= |s|
    ensures forall k :: 0 <= k < |r| ==> least + Width(re) <= r[k] <= |s|
    decreases re, 1, 0, |starts|
  {
    if starts == [] then [] else Ends(re, s, starts[0]) + Through(re, s, least, starts[1..])
  }

  /** One more round of `body` if one can be made, and otherwise the end already reached. */
  function More(body: Re, s: string, i: nat): (r: seq<nat>)
    requires i <= |s|
    ensures r != []
    ensures forall k :: 0 <= k < |r| ==> i <= r[k] <= |s|
    decreases body, 2, |s| - i, 0
  {
    (if i < |s| then Rounds(body, s, i + 1, Beyond(Ends(body, s, i), i)) else []) + [i]
  }

  function Rounds(body: Re, s: string, least: nat, starts: seq<nat>): (r: seq<nat>)
    requires forall k :: 0 <= k < |starts| ==> least <= starts[k] <= |s|
    ensures forall k :: 0 <= k < |r| ==> least <= r[k] <= |s|
    ensures starts != [] ==> r != []
    decreases body, 2, if starts == [] then 0 else |s| - least, |starts|
  {
    if starts == [] then [] else More(body, s, starts[0]) + Rounds(body, s, least, starts[1..])
  }

  /** A round of a repeated group that matches nothing is dropped. */
  function Beyond(ends: seq<nat>, i: nat): (r: seq<nat>)
    ensures forall k :: 0 <= k < |r| ==> r[k] > i && r[k] in ends
  {
    if ends == [] then [] else (if ends[0] > i then [ends[0]] else []) + Beyond(ends[1..], i)
  }

  // ---------------------------------------------------------------- searching and replacing

  datatype Span = Span(from: nat, to: nat)

  /** `exec` of a global expression with `lastIndex` at `pos`: the leftmost match and its preferred end. */
  function Search(re: Re, s: string, pos: nat): (r: Option<Span>)
    requires pos <= |s|
    ensures r.Some? ==> pos <= r.value.from && r.value.from + Width(re) <= r.value.to <= |s|
    ensures r.Some? ==> Ends(re, s, r.value.from) != [] && r.value.to == Ends(re, s, r.value.from)[0]
    ensures r.Some? ==> forall i :: pos <= i < r.value.from ==> Ends(re, s, i) == []
    ensures r.None? ==> forall i :: pos <= i <= |s| ==> Ends(re, s, i) == []
    decreases |s| - pos
  {
    var ends := Ends(re, s, pos);
    if ends != [] then Some(Span(pos, ends[0]))
    else if pos < |s| then Search(re, s, pos + 1)
    else None
  }

  /** The matches that a global replacement goes through, from `pos` on. */
  function Matches(re: Re, s: string, pos: nat): (r: seq<Span>)
    requires pos <= |s| && Width(re) > 0
    decreases |s| - pos
  {
    match Search(re, s, pos)
    case None => []
    case Some(m) => [m] + Matches(re, s, m.to)
  }

  predicate Inside(spans: seq<Span>, pos: nat, len: nat)
  {
    if spans == [] then pos <= len
    else pos <= spans[0].from <= spans[0].to && Inside(spans[1..], spans[0].to, len)
  }

  /** `s` from `pos` on with every span put through `f`. */
  function Splice(s: string, spans: seq<Span>, pos: nat, f: Span -> string): string
    requires Inside(spans, pos, |s|)
    decreases |spans|
  {
    if spans == [] then s[pos..]
    else
      InsideBounds(spans, pos, |s|);
      s[pos..spans[0].from] + f(spans[0]) + Splice(s, spans[1..], spans[0].to, f)
  }

  lemma {:induction false} InsideBounds(spans: seq<Span>, pos: nat, len: nat)
    requires Inside(spans, pos, len)
    ensures pos <= len && forall k :: 0 <= k < |spans| ==> pos <= spans[k].from <= spans[k].to <= len
  {
    if spans != [] {
      InsideBounds(spans[1..], spans[0].to, len);
      forall k | 0 <= k < |spans| ensures pos <= spans[k].from <= spans[k].to <= len {
        if k > 0 {
          assert spans[k] == spans[1..][k - 1];
        }
      }
    }
  }

  lemma {:induction false} MatchesInside(re: Re, s: string, pos: nat)
    requires pos <= |s| && Width(re) > 0
    ensures Inside(Matches(re, s, pos), pos, |s|)
    decreases |s| - pos
  {
    var m := Search(re, s, pos);
    if m.Some? {
      MatchesInside(re, s, m.value.to);
    }
  }

  /** `s.replace(re, f)`: every match of the global expression `re`, leftmost first, put through `f`. */
  function ReplaceAll(re: Re, s: string, f: Span -> string): string
    requires Width(re) > 0
  {
    MatchesInside(re, s, 0);
    Splice(s, Matches(re, s, 0), 0, f)
  }

  lemma Unfolded(re: Re, s: string, f: Span -> string)
    requires Width(re) > 0
    ensures Inside(Matches(re, s, 0), 0, |s|) && ReplaceAll(re, s, f) == Splice(s, Matches(re, s, 0), 0, f)
  {
    MatchesInside(re, s, 0);
  }

  lemma MatchesStep(re: Re, s: string, pos: nat)
    requires pos <= |s| && Width(re) > 0
    ensures Matches(re, s, pos)
         == var m := Search(re, s, pos); if m.None? then [] else [m.value] + Matches(re, s, m.value.to)
  {
    hide Search;
  }

  lemma SpliceNothing(s: string, pos: nat, f: Span -> string)
    requires pos <= |s|
    ensures Splice(s, [], pos, f) == s[pos..]
  {
  }

  lemma SpliceHead(s: string, spans: seq<Span>, pos: nat, f: Span -> string)
    requires Inside(spans, pos, |s|) && spans != []
    ensures pos <= spans[0].from <= spans[0].to <= |s| && Inside(spans[1..], spans[0].to, |s|)
    ensures Splice(s, spans, pos, f) == s[pos..spans[0].from] + f(spans[0]) + Splice(s, spans[1..], spans[0].to, f)
  {
    InsideBounds(spans, pos, |s|);
  }

  lemma SpliceStep(s: string, m: Span, spans: seq<Span>, pos: nat, f: Span -> string)
    requires pos <= m.from <= m.to && Inside(spans, m.to, |s|)
    ensures Inside([m] + spans, pos, |s|) && m.to <= |s|
    ensures Splice(s, [m] + spans, pos, f) == s[pos..m.from] + f(m) + Splice(s, spans, m.to, f)
  {
    InsideBounds(spans, m.to, |s|);
    assert ([m] + spans)[1..] == spans;
  }

  // ---------------------------------------------------------------- what a match is made of

  /** Every character that `re` can take is in `chars`. */
  ghost predicate Only(re: Re, chars: char -> bool)
  {
    match re
    case Rep(c, _, _) => forall ch :: c(ch) ==> chars(ch)
    case Lit(text) => forall k :: 0 <= k < |text| ==> chars(text[k])
    case Cat(a, b) => Only(a, chars) && Only(b, chars)
    case Or(a, b) => Only(a, chars) && Only(b, chars)
    case Plus(a) => Only(a, chars)
    case _ => true
  }

  ghost predicate AllIn(chars: char -> bool, s: string, i: int, j: int)
  {
    0 <= i <= j <= |s| && forall k :: i <= k < j ==> chars(s[k])
  }

  ghost predicate AllReach(chars: char -> bool, s: string, i: int, ends: seq<nat>)
  {
    forall k :: 0 <= k < |ends| ==> AllIn(chars, s, i, ends[k])
  }

  lemma {:induction false} MatchOnly(re: Re, chars: char -> bool, s: string, i: nat)
    requires Only(re, chars) && i <= |s|
    ensures AllReach(chars, s, i, Ends(re, s, i))
    decreases re, 0, 0, 0
  {
    match re {
      case Cat(a, b) =>
        MatchOnly(a, chars, s, i);
        ThroughOnly(b, chars, s, i, i + Width(a), Ends(a, s, i));
      case Or(a, b) =>
        MatchOnly(a, chars, s, i);
        MatchOnly(b, chars, s, i);
      case Plus(a) =>
        MatchOnly(a, chars, s, i);
        RoundsOnly(a, chars, s, i, i + Width(a), Ends(a, s, i));
      case Lit(text) =>
        if Ends(re, s, i) != [] {
          assert forall k :: i <= k < i + |text| ==> s[k] == s[i..i + |text|][k - i];
        }
      case _ =>
    }
  }

  lemma {:induction false} ThroughOnly(re: Re, chars: char -> bool, s: string, i: nat, least: nat, starts: seq<nat>)
    requires Only(re, chars) && i <= least && forall k :: 0 <= k < |starts| ==> least <= starts[k] <= |s|
    requires AllReach(chars, s, i, starts)
    ensures AllReach(chars, s, i, Through(re, s, least, starts))
    decreases re, 1, 0, |starts|
  {
    if starts != [] {
      MatchOnly(re, chars, s, starts[0]);
      ThroughOnly(re, chars, s, i, least, starts[1..]);
    }
  }

  lemma {:induction false} RoundsOnly(body: Re, chars: char -> bool, s: string, i: nat, least: nat, starts: seq<nat>)
    requires Only(body, chars) && i <= least && forall k :: 0 <= k < |starts| ==> least <= starts[k] <= |s|
    requires AllReach(chars, s, i, starts)
    ensures AllReach(chars, s, i, Rounds(body, s, least, starts))
    decreases body, 2, if starts == [] then 0 else |s| - least, |starts|
  {
    if starts != [] {
      MoreOnly(body, chars, s, i, starts[0]);
      RoundsOnly(body, chars, s, i, least, starts[1..]);
    }
  }

  lemma {:induction false} MoreOnly(body: Re, chars: char -> bool, s: string, i: nat, j: nat)
    requires Only(body, chars) && i <= j <= |s| && AllIn(chars, s, i, j)
    ensures AllReach(chars, s, i, More(body, s, j))
    decreases body, 2, |s| - j, 0
  {
    if j < |s| {
      var ends := Ends(body, s, j);
      MatchOnly(body, chars, s, j);
      var beyond := Beyond(ends, j);
      RoundsOnly(body, chars, s, i, j + 1, beyond);
    }
  }

  /** Every span a replacement goes through holds characters of `chars` only. */
  lemma {:induction false} SpansOnly(re: Re, chars: char -> bool, s: string, pos: nat)
    requires Only(re, chars) && pos <= |s| && Width(re) > 0
    ensures forall k :: 0 <= k < |Matches(re, s, pos)| ==> AllIn(chars, s, Matches(re, s, pos)[k].from, Matches(re, s, pos)[k].to)
    decreases |s| - pos
  {
    var m := Search(re, s, pos);
    if m.Some? {
      MatchOnly(re, chars, s, m.value.from);
      SpansOnly(re, chars, s, m.value.to);
    }
  }
}
