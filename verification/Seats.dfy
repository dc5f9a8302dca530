/** Where players sit in a line-up and who their opponents are: player k is in team k % teams
    (src/bnetd/anongame.cpp:850-856, 1227-1286). */
module Seats {

  // ---------- remainders ----------

  /** The remainder by repeated subtraction: `Mod` is what `%` computes, with linear unfolding. */
  function Mod(x: nat, d: nat): (r: nat)
    requires 0 < d
    ensures r < d
    ensures x < d ==> r == x
  {
    if x < d then x else Mod(x - d, d)
  }

  lemma MulAway(x: int, d: nat)
    ensures 1 <= x ==> d <= x * d
    ensures x <= -1 ==> x * d + d <= 0
  {
  }

  lemma DivModUnique(n: nat, d: nat, q: nat, r: nat)
    requires r < d && n == q * d + r
    ensures n / d == q && n % d == r
  {
    var x := n / d - q;
    assert n == (n / d) * d + n % d;
    assert x * d == (n / d) * d - q * d;
    MulAway(x, d);
  }

  lemma {:induction false} ModIs(x: nat, d: nat)
    requires 0 < d
    ensures x % d == Mod(x, d)
  {
    if x < d {
      DivModUnique(x, d, 0, x);
    } else {
      ModIs(x - d, d);
      var q := (x - d) / d;
      assert (q + 1) * d == q * d + d;
      DivModUnique(x, d, q + 1, (x - d) % d);
    }
  }

  /** c * d by repeated addition. */
  function Times(c: nat, d: nat): (r: nat)
    ensures 0 < c ==> d <= r
  {
    if c == 0 then 0 else Times(c - 1, d) + d
  }

  lemma {:induction false} TimesIs(c: nat, d: nat)
    ensures Times(c, d) == c * d
  {
    if c > 0 {
      TimesIs(c - 1, d);
      assert c * d == (c - 1) * d + d;
    }
  }

  lemma {:induction false} ModAdd(x: nat, d: nat, c: nat)
    requires 0 < d
    ensures Mod(x + Times(c, d), d) == Mod(x, d)
  {
    if c > 0 {
      ModAdd(x, d, c - 1);
      assert x + Times(c, d) - d == x + Times(c - 1, d);
    }
  }

  lemma {:induction false} ModShift(x: nat, d: nat, l: nat)
    requires 0 < l < d
    ensures Mod(x + l, d) != Mod(x, d)
  {
    if d <= x {
      ModShift(x - d, d, l);
    }
  }

  // ---------- seats of arranged teams ----------

  /** The place of the i-th player of arranged team t. */
  function Seat(teams: nat, t: nat, i: nat): nat {
    t + i * teams
  }

  /** Seating `count` players of each of `teams` arranged teams fills places 0 to teams * count - 1 and
      no two players share a place: a seat determines its team and member. */
  lemma SeatOfPlayer(teams: nat, count: nat, t: nat, i: nat)
    requires t < teams && i < count
    ensures Seat(teams, t, i) < teams * count
    ensures Seat(teams, t, i) % teams == t && Seat(teams, t, i) / teams == i
  {
    DivModUnique(Seat(teams, t, i), teams, i, t);
    MulAway(count - i, teams);
    assert (count - i) * teams == count * teams - i * teams;
  }

  /** ... and every place is somebody's seat. */
  lemma PlayerOfSeat(teams: nat, count: nat, x: nat)
    requires x < teams * count
    ensures x % teams < teams && x / teams < count
    ensures Seat(teams, x % teams, x / teams) == x
  {
    var q := x / teams;
    assert x == q * teams + x % teams;
    assert (q - count) * teams == q * teams - count * teams;
    MulAway(q - count, teams);
  }

  // ---------- the opponents of a player ----------

  /** Sum of the levels of the players below n that are not in `team`. */
  function SumOthers(level: seq<nat>, teams: nat, team: nat, n: nat): nat
    requires 0 < teams && n <= |level|
  {
    if n == 0 then 0
    else SumOthers(level, teams, team, n - 1) + if Mod(n - 1, teams) != team then level[n - 1] else 0
  }

  /** The same sum going round the table from the player after i up to, not including, k. */
  function SumRound(level: seq<nat>, teams: nat, i: nat, k: nat): nat
    requires 0 < teams && 0 < |level| && i < k
  {
    if k == i + 1 then 0
    else SumRound(level, teams, i, k - 1) + if Mod(k - 1, teams) != Mod(i, teams) then level[Mod(k - 1, |level|)] else 0
  }

  lemma {:induction false} RoundUpToEnd(level: seq<nat>, teams: nat, i: nat, k: nat)
    requires 0 < teams && i < k <= |level|
    ensures SumRound(level, teams, i, k) + SumOthers(level, teams, Mod(i, teams), i + 1)
            == SumOthers(level, teams, Mod(i, teams), k)
  {
    if k == i + 1 {
    } else {
      RoundUpToEnd(level, teams, i, k - 1);
    }
  }

  lemma {:induction false} RoundPastEnd(level: seq<nat>, teams: nat, count: nat, i: nat, m: nat)
    requires 0 < teams && |level| == Times(count, teams) && i < |level| && m <= i + 1
    ensures SumRound(level, teams, i, |level| + m) + SumOthers(level, teams, Mod(i, teams), i + 1)
            == SumOthers(level, teams, Mod(i, teams), |level|) + SumOthers(level, teams, Mod(i, teams), m)
  {
    if m == 0 {
      RoundUpToEnd(level, teams, i, |level|);
    } else {
      RoundPastEnd(level, teams, count, i, m - 1);
      ModAdd(m - 1, teams, count);
      assert Mod(|level| + m - 1, |level|) == Mod(m - 1, |level|) == m - 1;
    }
  }

  lemma Opponent(teams: nat, i: nat, j: nat, l: nat)
    requires l + 1 < teams
    ensures Mod(i + 1 + Times(j, teams) + l, teams) != Mod(i, teams)
  {
    assert i + 1 + Times(j, teams) + l == i + l + 1 + Times(j, teams);
    ModAdd(i + l + 1, teams, j);
    ModShift(i, teams, l + 1);
  }

  /** The level of the player at place k, counted round the table. */
  method LevelOf(level: seq<nat>, k: nat) returns (x: nat)
    requires 0 < |level|
    ensures x == level[Mod(k, |level|)]
  {
    ModIs(k, |level|);
    x := level[k % |level|];
  }

  /** The inner loop: it adds the next teams - 1 players and steps over the teammate after them. */
  method AddOpponents(level: seq<nat>, teams: nat, i: nat, j: nat, sum: nat) returns (sum': nat)
    requires 2 <= teams && i < |level| && sum == SumRound(level, teams, i, i + 1 + Times(j, teams))
    ensures sum' == SumRound(level, teams, i, i + 1 + Times(j + 1, teams))
  {
    var start: nat := i + 1 + Times(j, teams);
    var l: nat := 0;
    sum' := sum;
    while l < teams - 1
      invariant l <= teams - 1
      invariant sum' == SumRound(level, teams, i, start + l)
    {
      var k := start + l;
      var x := LevelOf(level, k);
      Opponent(teams, i, j, l);
      sum' := sum' + x;
      l := l + 1;
    }
    ModAdd(i + teams, teams, j);
    assert start + teams - 1 == i + teams + Times(j, teams);
    assert start + teams == i + 1 + Times(j + 1, teams);
  }

  /** The outer loop: the level sum over every player of the other teams, each counted once. */
  method SumOpponents(level: seq<nat>, teams: nat, count: nat, i: nat) returns (sum: nat)
    requires 2 <= teams && 0 < count && |level| == Times(count, teams) && i < |level|
    ensures sum == SumOthers(level, teams, Mod(i, teams), |level|)
  {
    sum := 0;
    var j: nat := 0;
    while j < count
      invariant j <= count
      invariant sum == SumRound(level, teams, i, i + 1 + Times(j, teams))
    {
      sum := AddOpponents(level, teams, i, j, sum);
      j := j + 1;
    }
    RoundPastEnd(level, teams, count, i, i + 1);
    assert i + 1 + Times(count, teams) == |level| + (i + 1);
  }

  /** The opponent level of player i in a team game: the mean, rounded down, over every player of the other teams
      (OthersCounted says that the divisor is their number). */
  method OpponentLevel(level: seq<nat>, teams: nat, count: nat, i: nat) returns (mean: nat)
    requires 2 <= teams && 0 < count && |level| == Times(count, teams) && i < |level|
    ensures var sum, d := SumOthers(level, teams, i % teams, |level|), count * (teams - 1);
            mean * d <= sum < (mean + 1) * d
  {
    var sum := SumOpponents(level, teams, count, i);
    ModIs(i, teams);
    MulAway(count, teams - 1);
    mean := Mean(sum, count * (teams - 1));
  }

  method Mean(sum: nat, d: nat) returns (mean: nat)
    requires 0 < d
    ensures mean * d <= sum < (mean + 1) * d
  {
    mean := sum / d;
    assert sum == mean * d + sum % d;
    assert (mean + 1) * d == mean * d + d;
  }

  /** The sum depends on each level by that level alone, and only for players of other teams. */
  lemma {:induction false} OthersByLevel(level: seq<nat>, teams: nat, team: nat, n: nat, k: nat, x: nat)
    requires 0 < teams && n <= |level| && k < |level|
    ensures SumOthers(level[k := x], teams, team, n) - SumOthers(level, teams, team, n)
         == if k < n && k % teams != team then x - level[k] else 0
  {
    ModIs(k, teams);
    if n > 0 {
      OthersByLevel(level, teams, team, n - 1, k, x);
    }
  }

  lemma {:induction false} OthersOfNobody(level: seq<nat>, teams: nat, team: nat, n: nat)
    requires 0 < teams && n <= |level| && forall k :: 0 <= k < n ==> level[k] == 0
    ensures SumOthers(level, teams, team, n) == 0
  {
    if n > 0 {
      OthersOfNobody(level, teams, team, n - 1);
    }
  }

  lemma {:induction false} OthersInRow(level: seq<nat>, teams: nat, team: nat, c: nat, m: nat)
    requires 0 < teams && team < teams && m <= teams && Times(c, teams) + m <= |level|
    requires forall x :: 0 <= x < |level| ==> level[x] == 1
    ensures SumOthers(level, teams, team, Times(c, teams) + m)
            == SumOthers(level, teams, team, Times(c, teams)) + if team < m then m - 1 else m
  {
    if m == 0 {
    } else {
      OthersInRow(level, teams, team, c, m - 1);
      ModAdd(m - 1, teams, c);
      assert Times(c, teams) + m - 1 == m - 1 + Times(c, teams);
    }
  }

  /** The divisor is the number of players summed: with every level 1 the sum is count * (teams - 1). */
  lemma {:induction false} OthersCounted(level: seq<nat>, teams: nat, team: nat, c: nat)
    requires 0 < teams && team < teams && Times(c, teams) <= |level|
    requires forall x :: 0 <= x < |level| ==> level[x] == 1
    ensures SumOthers(level, teams, team, Times(c, teams)) == Times(c, teams - 1)
  {
    if c == 0 {
    } else {
      var before := Times(c - 1, teams);
      assert Times(c, teams) == before + teams;
      OthersCounted(level, teams, team, c - 1);
      OthersInRow(level, teams, team, c - 1, teams);
    }
  }
}
