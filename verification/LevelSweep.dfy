/** The order in which a search visits the per-level waiting lists (src/bnetd/anongame.cpp:821-903).
    The offset `delta` starts at 0 and is updated in place; the loop ends when it outgrows the
    permitted level difference or would leave the array at the bottom. */
module LevelSweep {
  const MAX_LEVEL := 100

  function Abs(x: int): nat {
    if x < 0 then -x else x
  }

  function Max(x: int, y: int): int {
    if x < y then y else x
  }

  function Min(x: int, y: int): int {
    if x < y then x else y
  }

  /** The update of `delta` at the end of the loop body. */
  function Step(level: nat, delta: int): int {
    var d := if delta <= 0 || level - delta < 0 then Abs(delta) + 1 else -delta;
    if level + d > MAX_LEVEL then -d else d
  }

  /** The levels the loop still reaches when it is about to test its guard with offset `delta`.
      The first test is the loop guard, the second the early exit in the loop body. */
  function Sweep(level: nat, diff: nat, delta: int): (s: seq<int>)
    requires level <= MAX_LEVEL
    decreases diff + 1 - Abs(delta), if delta > 0 then 1 else 0
  {
    if Abs(delta) >= diff + 1 || level + delta < 0 then []
    else [level + delta] + Sweep(level, diff, Step(level, delta))
  }

  /** `a` is a better level than `b` for a searcher at `level`: nearer, and the higher one on ties. */
  predicate Before(level: int, a: int, b: int) {
    Abs(a - level) < Abs(b - level) || (Abs(a - level) == Abs(b - level) && a > b)
  }

  predicate InReach(level: int, diff: nat, l: int) {
    Max(0, level - diff) <= l <= Min(MAX_LEVEL, level + diff)
  }

  ghost predicate Sorted(level: int, s: seq<int>) {
    forall i, j :: 0 <= i < j < |s| ==> Before(level, s[i], s[j])
  }

  /** What is left of the sweep at `delta`: the levels in reach that are not better than level + delta. */
  lemma {:induction false} SweepFrom(level: nat, diff: nat, delta: int)
    requires level <= MAX_LEVEL && level + delta <= MAX_LEVEL
    requires level + delta < 0 ==> level - delta > MAX_LEVEL
    ensures forall l :: l in Sweep(level, diff, delta) <==>
                        InReach(level, diff, l) && (l == level + delta || Before(level, level + delta, l))
    ensures Sorted(level, Sweep(level, diff, delta))
    decreases diff + 1 - Abs(delta), if delta > 0 then 1 else 0
  {
    if Abs(delta) >= diff + 1 || level + delta < 0 {
    } else {
      SweepFrom(level, diff, Step(level, delta));
      var rest := Sweep(level, diff, Step(level, delta));
      assert Sweep(level, diff, delta) == [level + delta] + rest;
      forall l
        ensures l in Sweep(level, diff, delta) <==>
                InReach(level, diff, l) && (l == level + delta || Before(level, level + delta, l))
      {
      }
      forall j | 0 <= j < |rest|
        ensures Before(level, level + delta, rest[j])
      {
        assert rest[j] in rest;
      }
    }
  }

  /** A sweep that completes no match visits every level in reach exactly once, nearest first and the
      higher of two equally near levels first: strict sortedness rules out a second visit. */
  lemma SweepVisits(level: nat, diff: nat)
    requires level <= MAX_LEVEL
    ensures forall l :: l in Sweep(level, diff, 0) <==> InReach(level, diff, l)
    ensures Sorted(level, Sweep(level, diff, 0))
    ensures forall i, j :: 0 <= i < j < |Sweep(level, diff, 0)| ==>
              Sweep(level, diff, 0)[i] != Sweep(level, diff, 0)[j] &&
              Abs(Sweep(level, diff, 0)[i] - level) <= Abs(Sweep(level, diff, 0)[j] - level)
    ensures forall i, j :: 0 <= i < j < |Sweep(level, diff, 0)| ==>
              Abs(Sweep(level, diff, 0)[i] - level) == Abs(Sweep(level, diff, 0)[j] - level) ==>
                Sweep(level, diff, 0)[i] > level > Sweep(level, diff, 0)[j]
  {
    SweepFrom(level, diff, 0);
  }

  /** The bound test uses `>`, so level MAX_LEVEL itself is visited although the array has no such row.
      The sweep stays inside the array exactly when the window does. */
  lemma SweepInArray(level: nat, diff: nat)
    requires level < MAX_LEVEL
    ensures (forall l :: l in Sweep(level, diff, 0) ==> 0 <= l < MAX_LEVEL) <==> level + diff < MAX_LEVEL
  {
    SweepVisits(level, diff);
    if level + diff >= MAX_LEVEL {
      assert InReach(level, diff, MAX_LEVEL);
      assert MAX_LEVEL in Sweep(level, diff, 0);
    }
  }
}
