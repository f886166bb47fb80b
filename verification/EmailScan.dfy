/** The linear e-mail scan that stands in for the old quadratic expression (packages/pii-mask/src/email-scan.ts). */
module EmailScan {
  import opened Prelude
  import opened Texts
  import opened Regex

  predicate IsLetter(c: char) { 'a' <= c <= 'z' || 'A' <= c <= 'Z' }

  predicate IsLocal(c: char) { IsLetter(c) || IsDigit(c) || c in "._%+-" }

  predicate IsDomain(c: char) { IsLetter(c) || IsDigit(c) || c == '.' || c == '-' }

  function Tail(): Re { Cat(Lit("@"), Cat(Rep(IsDomain, 1, None), Cat(Lit("."), Rep(IsLetter, 2, None)))) }

  /** The old expression: `[a-zA-Z0-9._%+-]+@[a-zA-Z0-9.-]+\.[a-zA-Z]{2,}`. */
  function Email(): Re { Cat(Rep(IsLocal, 1, None), Tail()) }

  /** The same, but only where a run of local characters begins. */
  function EmailAtRunStart(): Re { Cat(NotBehind(IsLocal), Email()) }

  function Cut(s: string, m: Span): string
  {
    if m.from <= m.to <= |s| then s[m.from..m.to] else []
  }

  function Replacing(s: string, replacer: string -> string): Span -> string
  {
    (m: Span) => replacer(Cut(s, m))
  }

  // ---------------------------------------------------------------- two starts in one run agree

  lemma {:induction false} ThroughNothing(re: Re, s: string, least: nat, starts: seq<nat>)
    requires forall k :: 0 <= k < |starts| ==> least <= starts[k] <= |s| && Ends(re, s, starts[k]) == []
    ensures Through(re, s, least, starts) == []
  {
    if starts != [] {
      ThroughNothing(re, s, least, starts[1..]);
    }
  }

  lemma NoAt(s: string, k: nat)
    requires k < |s| && IsLocal(s[k])
    ensures Ends(Tail(), s, k) == []
  {
    assert s[k..k + 1] == [s[k]];
    assert Ends(Lit("@"), s, k) == [];
  }

  /** Backtracking inside the local part never helps: what follows the whole run decides. */
  lemma LocalPartIsWholeRun(s: string, i: nat)
    requires i <= |s|
    ensures Ends(Email(), s, i) == if i < |s| && IsLocal(s[i]) then Ends(Tail(), s, RunEnd(IsLocal, s, i)) else []
  {
    hide Ends, Tail, IsLocal;
    var j := RunEnd(IsLocal, s, i);
    var local := Rep(IsLocal, 1, None);
    var starts := if j < i + 1 then [] else Descending(j, i + 1);
    assert Ends(Email(), s, i) == Through(Tail(), s, i + 1, starts) by { EmailEnds(s, i); }
    if i < |s| && IsLocal(s[i]) {
      assert j > i;
      forall k | 0 <= k < |starts[1..]| ensures Ends(Tail(), s, starts[1..][k]) == [] {
        NoAt(s, starts[1..][k]);
      }
      ThroughNothing(Tail(), s, i + 1, starts[1..]);
      assert starts[0] == j && Ends(Tail(), s, j) + [] == Ends(Tail(), s, j);
    } else {
      assert j == i;
    }
  }

  lemma EmailEnds(s: string, i: nat)
    requires i <= |s|
    ensures var j := RunEnd(IsLocal, s, i);
            Ends(Email(), s, i) == Through(Tail(), s, i + 1, if j < i + 1 then [] else Descending(j, i + 1))
  {
    hide RunEnd, Descending, Through, Tail;
    assert Ends(Rep(IsLocal, 1, None), s, i)
        == var j := RunEnd(IsLocal, s, i); if j < i + 1 then [] else Descending(j, i + 1);
  }

  /** A start inside a run of local characters succeeds exactly where the start before it does, with the same ends. */
  lemma SameRunSameEnds(s: string, i: nat)
    requires 0 < i < |s| && IsLocal(s[i - 1]) && IsLocal(s[i])
    ensures Ends(Email(), s, i) == Ends(Email(), s, i - 1)
  {
    hide Ends;
    LocalPartIsWholeRun(s, i - 1);
    LocalPartIsWholeRun(s, i);
  }

  lemma RunStartEnds(s: string, i: nat)
    requires i <= |s|
    ensures Ends(EmailAtRunStart(), s, i) == if i > 0 && IsLocal(s[i - 1]) then [] else Ends(Email(), s, i)
  {
    hide Email;
    var here := Ends(Email(), s, i);
    assert here + [] == here;
    assert Ends(NotBehind(IsLocal), s, i) == if i > 0 && IsLocal(s[i - 1]) then [] else [i];
  }

  /** Wherever the old expression does not match at `pos` itself, searching run starts finds what it finds. */
  lemma RunStartsSuffice(s: string, pos: nat)
    requires pos <= |s| && (pos > 0 ==> Ends(Email(), s, pos) == [])
    ensures Search(EmailAtRunStart(), s, pos) == Search(Email(), s, pos)
  {
    hide Ends, IsLocal;
    var fast, slow := Search(EmailAtRunStart(), s, pos), Search(Email(), s, pos);
    forall i | pos <= i <= |s| ensures Ends(EmailAtRunStart(), s, i) != [] ==> Ends(EmailAtRunStart(), s, i) == Ends(Email(), s, i) {
      RunStartEnds(s, i);
    }
    if slow.Some? {
      var a := slow.value.from;
      LocalPartIsWholeRun(s, a);
      RunStartEnds(s, a);
      if a > pos && IsLocal(s[a - 1]) {
        SameRunSameEnds(s, a);
        assert false;
      }
      assert Ends(EmailAtRunStart(), s, a) == Ends(Email(), s, a);
    }
  }

  // ---------------------------------------------------------------- the scan

  /** The text from `pos` on with every match from `pos` on replaced. */
  ghost function Rest(input: string, pos: nat, replacer: string -> string): string
    requires pos <= |input|
  {
    MatchesInside(Email(), input, pos);
    Splice(input, Matches(Email(), input, pos), pos, Replacing(input, replacer))
  }

  lemma RestOfAll(input: string, replacer: string -> string)
    ensures Rest(input, 0, replacer) == ReplaceAll(Email(), input, Replacing(input, replacer))
  {
    hide Email, Matches, Splice;
    EmailIsWide();
    Unfolded(Email(), input, Replacing(input, replacer));
  }

  lemma Done(input: string, pos: nat, replacer: string -> string)
    requires pos <= |input| && Search(Email(), input, pos).None?
    ensures Matches(Email(), input, pos) == [] && Rest(input, pos, replacer) == input[pos..]
  {
    hide Ends, Email, Search;
    EmailIsWide();
    MatchesStep(Email(), input, pos);
    SpliceNothing(input, pos, Replacing(input, replacer));
  }

  /** One match further: what the replacement of the rest is made of. */
  lemma Advance(input: string, pos: nat, replacer: string -> string)
    requires pos <= |input| && Search(Email(), input, pos).Some?
    ensures var m := Search(Email(), input, pos).value;
            && pos < m.to && Matches(Email(), input, pos) == [m] + Matches(Email(), input, m.to)
            && Rest(input, pos, replacer) == input[pos..m.from] + replacer(input[m.from..m.to]) + Rest(input, m.to, replacer)
  {
    hide Ends, Email, Matches, Splice, Search;
    EmailIsWide();
    var m := Search(Email(), input, pos).value;
    MatchesInside(Email(), input, m.to);
    MatchesStep(Email(), input, pos);
    SpliceStep(input, m, Matches(Email(), input, m.to), pos, Replacing(input, replacer));
    assert Cut(input, m) == input[m.from..m.to];
    assert Replacing(input, replacer)(m) == replacer(input[m.from..m.to]);
  }

  lemma EmailIsWide()
    ensures Width(Email()) == 6
  {
  }

  /** `replaceEmails`: the same matches in the same order, and the same text, as the old expression replaced globally. */
  method ReplaceEmails(input: string, replacer: string -> string) returns (out: string, found: seq<Span>)
    ensures found == Matches(Email(), input, 0)
    ensures out == ReplaceAll(Email(), input, Replacing(input, replacer))
  {
    hide *;
    EmailIsWide();
    var pos := 0;
    var prevEnd := -1;
    out := "";
    found := [];
    RestOfAll(input, replacer);
    while true
      invariant 0 <= pos <= |input| && (prevEnd == pos || (pos == 0 && prevEnd == -1))
      invariant found + Matches(Email(), input, pos) == Matches(Email(), input, 0)
      invariant out + Rest(input, pos, replacer) == Rest(input, 0, replacer)
      decreases |input| - pos
    {
      var m: Option<Span> := None;
      if pos == prevEnd {
        var ends := Ends(Email(), input, pos);
        m := if ends == [] then None else Some(Span(pos, ends[0]));
      }
      if m.None? {
        RunStartsSuffice(input, pos);
        m := Search(EmailAtRunStart(), input, pos);
      }
      assert m == Search(Email(), input, pos);
      if m.None? {
        Done(input, pos, replacer);
        break;
      }
      Advance(input, pos, replacer);
      out := out + input[pos..m.value.from] + replacer(input[m.value.from..m.value.to]);
      found := found + [m.value];
      pos := m.value.to;
      prevEnd := pos;
    }
    out := out + input[pos..];
  }
}
