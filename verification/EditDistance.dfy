/** The character error measure of the speech evaluation (apps/ml-worker/eval/stt_candidates.py). */
module EditDistance {

  /** The recursive definition: the last characters are deleted, inserted, or paired. */
  function Distance(a: string, b: string): nat
    decreases |a| + |b|
  {
    if a == [] then |b|
    else if b == [] then |a|
    else Least(Distance(Front(a), b) + 1, Distance(a, Front(b)) + 1, Distance(Front(a), Front(b)) + Differs(a, b))
  }

  function Front(s: string): string
    requires s != []
  {
    s[..|s| - 1]
  }

  /** 1 when the last characters differ, 0 otherwise. */
  function Differs(a: string, b: string): nat
    requires a != [] && b != []
  {
    if a[|a| - 1] == b[|b| - 1] then 0 else 1
  }

  function Least(x: nat, y: nat, z: nat): nat
  {
    if x <= y && x <= z then x else if y <= z then y else z
  }

  // ---------------------------------------------------------------- the two-row form

  /** A row of the table: the distances from `a` to every prefix of `b`. */
  ghost predicate IsRow(row: seq<nat>, a: string, b: string, n: nat)
    requires n <= |b|
  {
    |row| == n + 1 && forall j :: 0 <= j <= n ==> row[j] == Distance(a, b[..j])
  }

  lemma NextCell(a: string, b: string, i: nat, j: nat)
    requires i < |a| && j < |b|
    ensures Distance(a[..i + 1], b[..j + 1])
         == Least(Distance(a[..i], b[..j + 1]) + 1, Distance(a[..i + 1], b[..j]) + 1,
                  Distance(a[..i], b[..j]) + if a[i] == b[j] then 0 else 1)
  {
    hide Distance;
    var x, y := a[..i + 1], b[..j + 1];
    assert Front(x) == a[..i] && Front(y) == b[..j] && x[|x| - 1] == a[i] && y[|y| - 1] == b[j];
    Steps(x, y);
  }

  /** `_edit_distance`: it keeps the previous row of the table and the one it is filling. */
  method Levenshtein(a: string, b: string) returns (distance: nat)
    ensures distance == Distance(a, b)
  {
    hide Distance, Least;
    var prev: seq<nat> := seq(|b| + 1, (j: nat) => j);
    assert IsRow(prev, a[..0], b, |b|) by { FirstRow(b); }
    for i := 0 to |a|
      invariant IsRow(prev, a[..i], b, |b|)
    {
      var cur: seq<nat> := [i + 1];
      assert IsRow(cur, a[..i + 1], b, 0) by { FirstCell(a[..i + 1], b); }
      for j := 0 to |b|
        invariant IsRow(cur, a[..i + 1], b, j)
      {
        NextCell(a, b, i, j);
        cur := cur + [Least(prev[j + 1] + 1, cur[j] + 1, prev[j] + if a[i] == b[j] then 0 else 1)];
      }
      prev := cur;
    }
    assert a[..|a|] == a && b[..|b|] == b;
    return prev[|prev| - 1];
  }

  lemma FirstRow(b: string)
    ensures forall j :: 0 <= j <= |b| ==> Distance([], b[..j]) == j
  {
  }

  lemma FirstCell(a: string, b: string)
    ensures Distance(a, b[..0]) == |a|
  {
  }

  // ---------------------------------------------------------------- a metric

  lemma {:induction false} LengthBounds(a: string, b: string)
    ensures |a| - |b| <= Distance(a, b) && |b| - |a| <= Distance(a, b) <= |a| + |b|
    decreases |a| + |b|
  {
    if a != [] && b != [] {
      LengthBounds(Front(a), b);
      LengthBounds(a, Front(b));
      LengthBounds(Front(a), Front(b));
    }
  }

  lemma {:induction false} Symmetric(a: string, b: string)
    ensures Distance(a, b) == Distance(b, a)
    decreases |a| + |b|
  {
    if a != [] && b != [] {
      Symmetric(Front(a), b);
      Symmetric(a, Front(b));
      Symmetric(Front(a), Front(b));
    }
  }

  lemma {:induction false} ZeroIffEqual(a: string, b: string)
    ensures Distance(a, b) == 0 <==> a == b
    decreases |a| + |b|
  {
    if a != [] && b != [] {
      ZeroIffEqual(Front(a), Front(b));
      assert a == Front(a) + [a[|a| - 1]] && b == Front(b) + [b[|b| - 1]];
    }
  }

  lemma Steps(a: string, b: string)
    requires a != [] && b != []
    ensures Distance(a, b) <= Distance(Front(a), b) + 1
    ensures Distance(a, b) <= Distance(a, Front(b)) + 1
    ensures Distance(a, b) <= Distance(Front(a), Front(b)) + Differs(a, b)
    ensures Distance(a, b) == Distance(Front(a), b) + 1
         || Distance(a, b) == Distance(a, Front(b)) + 1
         || Distance(a, b) == Distance(Front(a), Front(b)) + Differs(a, b)
  {
  }

  lemma {:induction false} Triangle(a: string, c: string, b: string)
    ensures Distance(a, b) <= Distance(a, c) + Distance(c, b)
    decreases |a| + |c| + |b|
  {
    hide Distance;
    if a == [] || c == [] || b == [] {
      LengthBounds(a, c);
      LengthBounds(c, b);
      LengthBounds(a, b);
      assert Distance(a, b) <= Distance(a, c) + Distance(c, b) by { EmptyCases(a, c, b); }
    } else {
      Steps(a, c);
      Steps(c, b);
      Steps(a, b);
      if Distance(a, c) == Distance(Front(a), c) + 1 {
        Triangle(Front(a), c, b);
      } else if Distance(c, b) == Distance(c, Front(b)) + 1 {
        Triangle(a, c, Front(b));
      } else if Distance(a, c) == Distance(a, Front(c)) + 1 {
        if Distance(c, b) == Distance(Front(c), b) + 1 {
          Triangle(a, Front(c), b);
        } else {
          Triangle(a, Front(c), Front(b));
        }
      } else if Distance(c, b) == Distance(Front(c), b) + 1 {
        Triangle(Front(a), Front(c), b);
      } else {
        Triangle(Front(a), Front(c), Front(b));
      }
    }
  }

  lemma EmptyCases(a: string, c: string, b: string)
    requires a == [] || c == [] || b == []
    ensures Distance(a, b) <= Distance(a, c) + Distance(c, b)
  {
    LengthBounds(a, b);
    LengthBounds(a, c);
    LengthBounds(c, b);
    FirstCell(a, a);
    FirstCell(c, c);
  }

  // ---------------------------------------------------------------- edit scripts

  datatype Edit = Insert(at: nat, c: char) | Delete(at: nat) | Substitute(at: nat, c: char)

  predicate Fits(e: Edit, s: string)
  {
    if e.Insert? then e.at <= |s| else e.at < |s|
  }

  function Apply(e: Edit, s: string): string
    requires Fits(e, s)
  {
    match e
    case Insert(at, c) => s[..at] + [c] + s[at..]
    case Delete(at) => s[..at] + s[at + 1..]
    case Substitute(at, c) => s[..at] + [c] + s[at + 1..]
  }

  /** `script`, edit after edit, turns `a` into `b`. */
  ghost predicate Turns(script: seq<Edit>, a: string, b: string)
  {
    if script == [] then a == b
    else Fits(script[0], a) && Turns(script[1..], Apply(script[0], a), b)
  }

  lemma {:induction false} SuffixIsFree(p: string, q: string, tail: string)
    ensures Distance(p + tail, q + tail) <= Distance(p, q)
    decreases |tail|
  {
    hide Distance;
    if tail == [] {
      assert p + tail == p && q + tail == q;
    } else {
      SuffixIsFree(p, q, Front(tail));
      LastOfSuffix(p, tail);
      LastOfSuffix(q, tail);
      Steps(p + tail, q + tail);
    }
  }

  lemma LastOfSuffix(p: string, tail: string)
    requires tail != []
    ensures Front(p + tail) == p + Front(tail) && (p + tail)[|p + tail| - 1] == tail[|tail| - 1]
  {
  }

  lemma OneEdit(e: Edit, s: string)
    requires Fits(e, s)
    ensures Distance(s, Apply(e, s)) <= 1
  {
    hide Distance;
    var head, tail := s[..e.at], if e.Insert? then s[e.at..] else s[e.at + 1..];
    ZeroIffEqual(head, head);
    var from, to := if e.Insert? then head else head + [s[e.at]], if e.Delete? then head else head + [e.c];
    assert Distance(from, to) <= 1 by { LastCharacter(head, from, to); }
    assert s == from + tail && Apply(e, s) == to + tail;
    SuffixIsFree(from, to, tail);
  }

  lemma LastCharacter(head: string, from: string, to: string)
    requires from == head || (from != [] && Front(from) == head)
    requires to == head || (to != [] && Front(to) == head)
    ensures Distance(from, to) <= 1
  {
    ZeroIffEqual(head, head);
    if from != [] && to != [] {
      Steps(from, to);
    }
  }

  /** No script is shorter than the distance. */
  lemma {:induction false} NoShorterScript(script: seq<Edit>, a: string, b: string)
    requires Turns(script, a, b)
    ensures Distance(a, b) <= |script|
    decreases |script|
  {
    hide Distance, Apply;
    if script == [] {
      ZeroIffEqual(a, b);
    } else {
      var next := Apply(script[0], a);
      NoShorterScript(script[1..], next, b);
      OneEdit(script[0], a);
      Triangle(a, next, b);
    }
  }

  lemma {:induction false} Append(script: seq<Edit>, e: Edit, a: string, b: string)
    requires Turns(script, a, b) && Fits(e, b)
    ensures Turns(script + [e], a, Apply(e, b))
    decreases |script|
  {
    hide Apply, Fits;
    if script == [] {
      assert [e][1..] == [];
    } else {
      assert (script + [e])[1..] == script[1..] + [e];
      Append(script[1..], e, Apply(script[0], a), b);
    }
  }

  /** Edits keep away from what stands behind the text they were written for. */
  lemma {:induction false} Extend(script: seq<Edit>, a: string, b: string, tail: string)
    requires Turns(script, a, b)
    ensures Turns(script, a + tail, b + tail)
    decreases |script|
  {
    hide Apply;
    if script != [] {
      ApplyAhead(script[0], a, tail);
      Extend(script[1..], Apply(script[0], a), b, tail);
    }
  }

  lemma ApplyAhead(e: Edit, s: string, tail: string)
    requires Fits(e, s)
    ensures Apply(e, s + tail) == Apply(e, s) + tail
  {
    assert (s + tail)[..e.at] == s[..e.at];
    if e.Insert? {
      assert (s + tail)[e.at..] == s[e.at..] + tail;
    } else {
      assert (s + tail)[e.at + 1..] == s[e.at + 1..] + tail;
    }
  }

  /** One script has exactly the length of the distance. */
  lemma {:induction false} ScriptExists(a: string, b: string) returns (script: seq<Edit>)
    ensures Turns(script, a, b) && |script| == Distance(a, b)
    decreases |a| + |b|
  {
    if a == b {
      ZeroIffEqual(a, b);
      script := [];
    } else if b == [] || (a != [] && Distance(a, b) == Distance(Front(a), b) + 1) {
      script := ScriptExists(Front(a), b);
      DeleteLast(script, a, b);
      script := [Delete(|a| - 1)] + script;
      FirstCell(Front(a), b);
    } else if a == [] || Distance(a, b) == Distance(a, Front(b)) + 1 {
      script := ScriptExists(a, Front(b));
      InsertLast(script, a, b);
      script := script + [Insert(|b| - 1, b[|b| - 1])];
    } else {
      script := ScriptExists(Front(a), Front(b));
      ReplaceLast(script, a, b);
      if Differs(a, b) == 1 {
        script := script + [Substitute(|b| - 1, b[|b| - 1])];
      }
    }
  }

  lemma DeleteLast(script: seq<Edit>, a: string, b: string)
    requires a != [] && Turns(script, Front(a), b)
    ensures Turns([Delete(|a| - 1)] + script, a, b)
  {
    assert Apply(Delete(|a| - 1), a) == Front(a);
    assert ([Delete(|a| - 1)] + script)[1..] == script;
  }

  lemma InsertLast(script: seq<Edit>, a: string, b: string)
    requires b != [] && Turns(script, a, Front(b))
    ensures Turns(script + [Insert(|b| - 1, b[|b| - 1])], a, b)
  {
    var e := Insert(|b| - 1, b[|b| - 1]);
    Append(script, e, a, Front(b));
    assert Apply(e, Front(b)) == b;
  }

  lemma ReplaceLast(script: seq<Edit>, a: string, b: string)
    requires a != [] && b != [] && Turns(script, Front(a), Front(b))
    ensures Differs(a, b) == 0 ==> Turns(script, a, b)
    ensures Turns(script + [Substitute(|b| - 1, b[|b| - 1])], a, b)
  {
    hide Turns, Apply;
    var last := [a[|a| - 1]];
    var e := Substitute(|b| - 1, b[|b| - 1]);
    Extend(script, Front(a), Front(b), last);
    assert Front(a) + last == a;
    assert Differs(a, b) == 0 ==> Front(b) + last == b;
    Append(script, e, a, Front(b) + last);
    SubstituteLast(b, a[|a| - 1]);
  }

  lemma SubstituteLast(b: string, c: char)
    requires b != []
    ensures Apply(Substitute(|b| - 1, b[|b| - 1]), Front(b) + [c]) == b
  {
  }
}
