/** From a local wall time to the instants that show it (packages/shared-types/src/deploy-schedule.ts). */
module WallClock {
  const MINUTE := 60_000
  const DAY := 86_400_000

  /** A zone gives the minutes by which its clocks are ahead at each instant (in milliseconds). */
  type Zone = int -> int

  datatype Answer = Single(instant: int) | Nonexistent | Ambiguous(earlier: int, later: int)

  /** The clocks of the zone show `wall` at this instant. */
  predicate Shows(zone: Zone, instant: int, wall: int) { instant + zone(instant) * MINUTE == wall }

  /** Clocks stay within a day of UTC, and within a day of the wall time they have at most the two offsets seen at the
      ends of that window; one transition, or none, in the window is such a case. */
  ghost predicate Calm(zone: Zone, wall: int)
  {
    && (forall t :: -DAY <= zone(t) * MINUTE <= DAY)
    && forall t :: wall - DAY <= t <= wall + DAY ==> zone(t) == zone(wall - DAY) || zone(t) == zone(wall + DAY)
  }

  ghost predicate ChangesAt(zone: Zone, from: int, to: int, change: int)
  {
    forall t :: from <= t <= to ==> zone(t) == if t < change then zone(from) else zone(to)
  }

  /** At most one change of the offset between two instants. */
  ghost predicate OneTransition(zone: Zone, from: int, to: int) { exists change :: ChangesAt(zone, from, to, change) }

  lemma OneTransitionIsCalm(zone: Zone, wall: int)
    requires (forall t :: -DAY <= zone(t) * MINUTE <= DAY) && OneTransition(zone, wall - DAY, wall + DAY)
    ensures Calm(zone, wall)
  {
  }

  function Candidates(zone: Zone, wall: int): seq<int>
  {
    var before, after := zone(wall - DAY), zone(wall + DAY);
    if before == after then [before] else [before, after]
  }

  /** The answer names exactly the instants at which the zone shows the wall time. */
  ghost predicate Exact(r: Answer, zone: Zone, wall: int)
  {
    forall t :: Shows(zone, t, wall) <==> t in Named(r)
  }

  function Named(r: Answer): set<int>
  {
    match r
    case Single(t) => {t}
    case Nonexistent => {}
    case Ambiguous(a, b) => {a, b}
  }

  /** No instant shows the wall time under an offset that neither end of the window has. */
  ghost predicate NoThirdOffset(zone: Zone, wall: int)
  {
    forall t :: Shows(zone, t, wall) ==> zone(t) in Candidates(zone, wall)
  }

  /** The candidates that pass the check, in order. */
  function ValidOf(zone: Zone, wall: int, candidates: seq<int>): (r: seq<int>)
    ensures |r| <= |candidates|
  {
    if candidates == [] then []
    else
      var instant := wall - candidates[0] * MINUTE;
      (if Shows(zone, instant, wall) then [instant] else []) + ValidOf(zone, wall, candidates[1..])
  }

  /** `zonedLocalToInstant`, from the wall time read as UTC. */
  method ZonedLocalToInstant(zone: Zone, wall: int) returns (r: Answer)
    ensures r == AnswerOf(ValidOf(zone, wall, Candidates(zone, wall)))
    ensures forall t :: t in Named(r) ==> Shows(zone, t, wall)
    ensures r.Ambiguous? ==> r.earlier < r.later
    ensures Exact(r, zone, wall) <==> NoThirdOffset(zone, wall)
    ensures Calm(zone, wall) ==> Exact(r, zone, wall)
  {
    hide *;
    var candidates := Candidates(zone, wall);
    var valid: seq<int> := [];
    assert candidates[0..] == candidates;
    for i := 0 to |candidates|
      invariant valid + ValidOf(zone, wall, candidates[i..]) == ValidOf(zone, wall, candidates)
    {
      ValidStep(zone, wall, candidates, i);
      var instant := wall - candidates[i] * MINUTE;
      var back := zone(instant);
      if instant + back * MINUTE == wall {
        valid := valid + [instant];
      }
    }
    ValidNone(zone, wall, candidates);
    assert valid + [] == valid;
    AnswerIsRight(zone, wall);
    r := AnswerOf(valid);
  }

  lemma ValidStep(zone: Zone, wall: int, cs: seq<int>, i: nat)
    requires i < |cs|
    ensures ValidOf(zone, wall, cs[i..])
         == (if wall - cs[i] * MINUTE + zone(wall - cs[i] * MINUTE) * MINUTE == wall then [wall - cs[i] * MINUTE] else [])
            + ValidOf(zone, wall, cs[i + 1..])
  {
    assert cs[i..][0] == cs[i] && cs[i..][1..] == cs[i + 1..];
  }

  lemma ValidNone(zone: Zone, wall: int, cs: seq<int>)
    ensures ValidOf(zone, wall, cs[|cs|..]) == []
  {
  }

  function AnswerOf(valid: seq<int>): Answer
  {
    if |valid| == 0 then Nonexistent
    else if |valid| == 1 then Single(valid[0])
    else if valid[0] < valid[1] then Ambiguous(valid[0], valid[1])
    else Ambiguous(valid[1], valid[0])
  }

  lemma SortedAnswer(zone: Zone, wall: int, valid: seq<int>)
    requires |valid| <= 2 && (|valid| == 2 ==> valid[0] != valid[1])
    requires forall t :: t in valid ==> Shows(zone, t, wall)
    ensures var r := AnswerOf(valid);
            && (forall t :: t in Named(r) ==> Shows(zone, t, wall)) && (r.Ambiguous? ==> r.earlier < r.later)
            && ((forall t :: Shows(zone, t, wall) ==> t in valid) ==> Exact(r, zone, wall))
  {
    hide Shows;
  }

  lemma ValidTwo(zone: Zone, wall: int, cs: seq<int>)
    requires 1 <= |cs| <= 2 && (|cs| == 2 ==> cs[0] != cs[1])
    ensures var v := ValidOf(zone, wall, cs);
            && |v| <= 2 && (|v| == 2 ==> v[0] != v[1]) && (forall i :: 0 <= i < |v| ==> Shows(zone, v[i], wall))
            && forall i :: 0 <= i < |cs| ==> Shows(zone, wall - cs[i] * MINUTE, wall) ==> wall - cs[i] * MINUTE in v
  {
    hide Shows;
    assert ValidOf(zone, wall, []) == [];
    if |cs| == 2 {
      assert cs[1..] == [cs[1]] && [cs[1]][1..] == [];
    } else {
      assert cs[1..] == [];
    }
  }

  /** The candidates that pass are distinct instants that show the wall time, and in a calm window there are no others. */
  lemma ValidAreRight(zone: Zone, wall: int)
    ensures var v := ValidOf(zone, wall, Candidates(zone, wall));
            && |v| <= 2 && (|v| == 2 ==> v[0] != v[1])
            && (forall t :: t in v ==> Shows(zone, t, wall))
            && (Calm(zone, wall) ==> forall t :: Shows(zone, t, wall) ==> t in v)
  {
    hide ValidOf;
    ValidTwo(zone, wall, Candidates(zone, wall));
    if Calm(zone, wall) {
      forall t | Shows(zone, t, wall) ensures t in ValidOf(zone, wall, Candidates(zone, wall)) {
        ShownIsCandidate(zone, wall, t);
        var i :| 0 <= i < |Candidates(zone, wall)| && Candidates(zone, wall)[i] == zone(t);
      }
    }
  }

  /** An instant that shows the wall time lies in the window, so its offset is a candidate. */
  lemma ShownIsCandidate(zone: Zone, wall: int, t: int)
    requires Calm(zone, wall) && Shows(zone, t, wall)
    ensures zone(t) in Candidates(zone, wall) && t == wall - zone(t) * MINUTE
  {
    assert -DAY <= zone(t) * MINUTE <= DAY;
    assert wall - DAY <= t <= wall + DAY;
  }

  /** The instants named show the wall time, in order, and in a calm window there are no others. */
  lemma AnswerIsRight(zone: Zone, wall: int)
    ensures var r := AnswerOf(ValidOf(zone, wall, Candidates(zone, wall)));
            && (forall t :: t in Named(r) ==> Shows(zone, t, wall)) && (r.Ambiguous? ==> r.earlier < r.later)
            && (Exact(r, zone, wall) <==> NoThirdOffset(zone, wall)) && (Calm(zone, wall) ==> Exact(r, zone, wall))
  {
    hide *;
    ValidAreRight(zone, wall);
    SortedAnswer(zone, wall, ValidOf(zone, wall, Candidates(zone, wall)));
    ExactIff(zone, wall);
  }

  /** The answer names every instant that shows the wall time exactly when no third offset plays a part. */
  lemma ExactIff(zone: Zone, wall: int)
    ensures Exact(AnswerOf(ValidOf(zone, wall, Candidates(zone, wall))), zone, wall) <==> NoThirdOffset(zone, wall)
  {
    hide Shows, Candidates;
    var cs := Candidates(zone, wall);
    var v := ValidOf(zone, wall, cs);
    ValidAreRight(zone, wall);
    SortedAnswer(zone, wall, v);
    var r := AnswerOf(v);
    assert forall t :: t in Named(r) <==> t in v;
    if Exact(r, zone, wall) {
      forall t | Shows(zone, t, wall) ensures zone(t) in cs {
        ValidFromCandidate(zone, wall, cs, t);
      }
    }
    if NoThirdOffset(zone, wall) {
      forall t | Shows(zone, t, wall) ensures t in v {
        CandidateIsValid(zone, wall, cs, t);
      }
    }
  }

  lemma {:induction false} ValidFromCandidate(zone: Zone, wall: int, cs: seq<int>, t: int)
    requires t in ValidOf(zone, wall, cs)
    ensures zone(t) in cs
  {
    if t != wall - cs[0] * MINUTE || !Shows(zone, t, wall) {
      ValidFromCandidate(zone, wall, cs[1..], t);
    }
  }

  lemma {:induction false} CandidateIsValid(zone: Zone, wall: int, cs: seq<int>, t: int)
    requires zone(t) in cs && Shows(zone, t, wall)
    ensures t in ValidOf(zone, wall, cs)
  {
    if cs[0] != zone(t) {
      CandidateIsValid(zone, wall, cs[1..], t);
    }
  }

  /** A made-up zone whose clocks are an hour ahead for six hours. */
  function ShortSummer(): Zone { t => if -360 * MINUTE <= t < 0 then 60 else 0 }

  /** With two changes in the window an instant can be missed: two instants show the wall time, the answer names one. */
  lemma SecondTransitionIsMissed()
    ensures Shows(ShortSummer(), -60 * MINUTE, 0) && Shows(ShortSummer(), 0, 0)
    ensures AnswerOf(ValidOf(ShortSummer(), 0, Candidates(ShortSummer(), 0))) == Single(0)
    ensures !NoThirdOffset(ShortSummer(), 0) && !Exact(Single(0), ShortSummer(), 0)
  {
    assert Candidates(ShortSummer(), 0) == [0];
    assert [0][1..] == [];
    assert ValidOf(ShortSummer(), 0, []) == [];
    assert ValidOf(ShortSummer(), 0, [0]) == [0];
  }
}
