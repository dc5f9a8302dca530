/** Turning the picked players of a non-arranged match into teams: sort by level, then reassign each
    later row of players to the teams (src/bnetd/anongame.cpp:545-802). Player k plays in team k % teams. */
module LineUp {
  import opened LevelSweep
  import opened Matchmaking
  import opened Seats

  const MAX_TEAMS := 4

  /** Negative when `a` goes first: the higher level does. */
  function CompareLevel(a: Conn, b: Conn): int {
    if a.level > b.level then -1 else if a.level < b.level then 1 else 0
  }

  ghost predicate Descending(s: seq<Conn>) {
    forall i, j :: 0 <= i < j < |s| ==> CompareLevel(s[i], s[j]) <= 0
  }

  // ---------- sorting ----------

  function Insert(c: Conn, s: seq<Conn>): (r: seq<Conn>)
    ensures |r| == |s| + 1
  {
    if s == [] || CompareLevel(c, s[0]) <= 0 then [c] + s else [s[0]] + Insert(c, s[1..])
  }

  function Sort(s: seq<Conn>): (r: seq<Conn>)
    ensures |r| == |s|
  {
    if s == [] then [] else Insert(s[0], Sort(s[1..]))
  }

  lemma {:induction false} InsertPermutes(c: Conn, s: seq<Conn>)
    ensures multiset(Insert(c, s)) == multiset{c} + multiset(s)
  {
    if s == [] || CompareLevel(c, s[0]) <= 0 {
    } else {
      InsertPermutes(c, s[1..]);
      assert s == [s[0]] + s[1..];
    }
  }

  lemma {:induction false} InsertMembers(c: Conn, s: seq<Conn>)
    ensures forall x :: x in Insert(c, s) ==> x == c || x in s
  {
    if s == [] || CompareLevel(c, s[0]) <= 0 {
    } else {
      InsertMembers(c, s[1..]);
    }
  }

  lemma {:induction false} InsertDescending(c: Conn, s: seq<Conn>)
    requires Descending(s)
    ensures Descending(Insert(c, s))
  {
    if s == [] || CompareLevel(c, s[0]) <= 0 {
    } else {
      InsertDescending(c, s[1..]);
      InsertMembers(c, s[1..]);
      var rest := Insert(c, s[1..]);
      forall j | 0 <= j < |rest|
        ensures CompareLevel(s[0], rest[j]) <= 0
      {
        assert rest[j] in rest;
      }
    }
  }

  lemma {:induction false} SortSorted(s: seq<Conn>)
    ensures Descending(Sort(s)) && multiset(Sort(s)) == multiset(s)
  {
    if s == [] {
    } else {
      SortSorted(s[1..]);
      InsertDescending(s[0], Sort(s[1..]));
      InsertPermutes(s[0], Sort(s[1..]));
      assert s == [s[0]] + s[1..];
    }
  }

  /** The library qsort with _anongame_compare_level: some descending permutation, ties in any order. */
  method SortByLevel(player: array<Conn>, n: nat)
    requires n <= player.Length
    modifies player
    ensures Descending(player[..n])
    ensures multiset(player[..n]) == old(multiset(player[..n]))
    ensures player[n..] == old(player[n..])
  {
    var sorted := Sort(player[..n]);
    SortSorted(player[..n]);
    var k := 0;
    while k < n
      invariant 0 <= k <= n == |sorted|
      invariant forall j :: 0 <= j < k ==> player[j] == sorted[j]
      invariant player[n..] == old(player[n..])
    {
      player[k] := sorted[k];
      k := k + 1;
    }
    assert player[..n] == sorted;
  }

  // ---------- the reorder tables ----------

  /** Four cells of level[]. */
  datatype Cells = Cells(c0: int, c1: int, c2: int, c3: int) {
    function At(k: nat): int
      requires k < MAX_TEAMS
    {
      if k == 0 then c0 else if k == 1 then c1 else if k == 2 then c2 else c3
    }
  }

  /** For each team the place, within the old row, of the player it receives; with fewer than four
      teams the last places stay put. */
  datatype Plan = Plan(p0: nat, p1: nat, p2: nat, p3: nat) {
    function Place(k: nat): nat
      requires k < MAX_TEAMS
    {
      if k == 0 then p0 else if k == 1 then p1 else if k == 2 then p2 else p3
    }

    /** Every place of a row of `teams` players is used once. */
    predicate Valid(teams: nat) {
      && p0 < 4 && p1 < 4 && p2 < 4 && p3 < 4
      && p0 != p1 && p0 != p2 && p0 != p3 && p1 != p2 && p1 != p3 && p2 != p3
      && (teams <= 3 ==> p3 == 3) && (teams <= 2 ==> p2 == 2)
    }
  }

  function Plan2(a: int, b: int): Plan {
    if a >= b then Plan(1, 0, 2, 3) else Plan(0, 1, 2, 3)
  }

  function Plan3(a: int, b: int, c: int): Plan {
    if a >= b >= c then Plan(2, 1, 0, 3)
    else if a >= c >= b then Plan(2, 0, 1, 3)
    else if b >= a >= c then Plan(1, 2, 0, 3)
    else if b >= c >= a then Plan(0, 2, 1, 3)
    else if c >= a >= b then Plan(1, 0, 2, 3)
    else Plan(0, 1, 2, 3)
  }

  function Plan4(a: int, b: int, c: int, d: int): Plan {
    if a >= b >= c && c >= d then Plan(3, 2, 1, 0)
    else if a >= b >= c && d >= c then Plan(3, 2, 0, 1)
    else if a >= c >= b && b >= d then Plan(3, 1, 2, 0)
    else if a >= c >= d && d >= b then Plan(3, 0, 2, 1)
    else if a >= d >= b && b >= c then Plan(3, 1, 0, 2)
    else if a >= d >= c && c >= b then Plan(3, 0, 1, 2)
    else if b >= a >= c && c >= d then Plan(2, 3, 1, 0)
    else if b >= a >= d && d >= c then Plan(2, 3, 0, 1)
    else if b >= c >= a && a >= d then Plan(3, 0, 2, 1)
    else if b >= c >= d && d >= a then Plan(0, 2, 3, 1)
    else if b >= d >= a && a >= c then Plan(1, 3, 0, 2)
    else if b >= d >= c && c >= a then Plan(0, 3, 1, 2)
    else if c >= a >= b && b >= d then Plan(2, 1, 3, 0)
    else if c >= a >= d && d >= b then Plan(2, 0, 3, 1)
    else if c >= b >= a && a >= d then Plan(1, 2, 3, 0)
    else if c >= b >= d && d >= a then Plan(0, 2, 3, 1)
    else if c >= d >= a && a >= b then Plan(1, 0, 3, 2)
    else if c >= d >= b && b >= a then Plan(0, 1, 3, 2)
    else if d >= a >= b && b >= c then Plan(2, 1, 0, 3)
    else if d >= a >= c && c >= b then Plan(2, 0, 1, 3)
    else if d >= b >= a && a >= c then Plan(1, 2, 0, 3)
    else if d >= b >= c && c >= a then Plan(0, 2, 1, 3)
    else if d >= c >= a && a >= b then Plan(1, 0, 2, 3)
    else Plan(0, 1, 2, 3)
  }

  /** The plan for the teams whose level totals are in the first `teams` cells. */
  function PlanFor(teams: nat, t: Cells): (p: Plan)
    requires 2 <= teams <= MAX_TEAMS
    ensures p.Valid(teams)
  {
    if teams == 2 then Plan2(t.c0, t.c1)
    else if teams == 3 then Plan3(t.c0, t.c1, t.c2)
    else Plan4(t.c0, t.c1, t.c2, t.c3)
  }

  /** A plan compensates for the totals if a stronger team never gets a stronger player than a weaker team
      (the players of a row stand in descending order, so a higher place means a weaker player). */
  ghost predicate Compensates(p: Plan, teams: nat, t: Cells)
    requires teams <= MAX_TEAMS
  {
    forall j, k :: 0 <= j < teams && 0 <= k < teams && t.At(j) > t.At(k) ==> p.Place(j) > p.Place(k)
  }

  /** Two and three teams are always compensated. Of the 24 cases for four teams, "1243" has a guard that
      does not compare teams 2 and 4, and "2314" and "2341" carry the moves of "1342" and "3241". */
  lemma PlanCompensatesIff(teams: nat, t: Cells)
    requires 2 <= teams <= MAX_TEAMS
    ensures Compensates(PlanFor(teams, t), teams, t) <==>
            !(teams == 4 &&
              var Cells(a, b, c, d) := t;
              (a >= b >= c && d > b) || (b >= c > a >= d) || (b > c >= d > a))
  {
    var p := PlanFor(teams, t);
    if Compensates(p, teams, t) && teams == 4 {
      assert t.At(3) > t.At(1) ==> p.Place(3) > p.Place(1);
      assert t.At(1) > t.At(0) ==> p.Place(1) > p.Place(0);
      assert t.At(1) > t.At(2) ==> p.Place(1) > p.Place(2);
      assert t.At(2) > t.At(0) ==> p.Place(2) > p.Place(0);
    }
  }

  // ---------- the reorder loop ----------

  /** The players of a row in the order the plan gives them out. */
  function Arrange(p: Plan, row: seq<Conn>): (r: seq<Conn>)
    requires 2 <= |row| <= MAX_TEAMS && p.Valid(|row|)
    ensures |r| == |row|
  {
    seq(|row|, k requires 0 <= k < |row| => row[p.Place(k)])
  }

  function Swap<T>(s: seq<T>, i: nat, j: nat): (r: seq<T>)
    requires i < |s| && j < |s|
    ensures |r| == |s|
  {
    s[i := s[j]][j := s[i]]
  }

  lemma SwapPermutes<T>(s: seq<T>, i: nat, j: nat)
    requires i < |s| && j < |s|
    ensures multiset(Swap(s, i, j)) == multiset(s)
  {
  }

  ghost predicate Injective(q: seq<nat>, n: nat) {
    |q| == n && (forall i :: 0 <= i < n ==> q[i] < n) && (forall i, j :: 0 <= i < j < n ==> q[i] != q[j])
  }

  lemma {:induction false} PickingPermutes<T>(row: seq<T>, r: seq<T>, q: seq<nat>, k: nat)
    requires |r| == |row| && Injective(q, |row|) && k <= |row|
    requires forall i :: 0 <= i < k ==> q[i] == i
    requires forall i :: 0 <= i < |r| ==> r[i] == row[q[i]]
    ensures multiset(r) == multiset(row)
    decreases |row| - k
  {
    if k == |row| {
      assert r == row;
    } else {
      SwapPermutes(row, k, q[k]);
      var q' := seq(|q|, i requires 0 <= i < |q| => if i == k then k else if q[i] == k then q[k] else q[i]);
      PickingPermutes(Swap(row, k, q[k]), r, q', k + 1);
    }
  }

  lemma ArrangePermutes(p: Plan, row: seq<Conn>)
    requires 2 <= |row| <= MAX_TEAMS && p.Valid(|row|)
    ensures multiset(Arrange(p, row)) == multiset(row)
  {
    var q := Places(p, |row|);
    PlacesInjective(p, |row|);
    ArrangePicks(p, row);
    PickingPermutes(row, Arrange(p, row), q, 0);
  }

  function Places(p: Plan, teams: nat): (q: seq<nat>)
    requires teams <= MAX_TEAMS
    ensures |q| == teams && forall i :: 0 <= i < teams ==> q[i] == p.Place(i)
  {
    if teams == 0 then [] else Places(p, teams - 1) + [p.Place(teams - 1)]
  }

  lemma PlacesInjective(p: Plan, teams: nat)
    requires 2 <= teams <= MAX_TEAMS && p.Valid(teams)
    ensures Injective(Places(p, teams), teams)
  {
  }

  lemma ArrangePicks(p: Plan, row: seq<Conn>)
    requires 2 <= |row| <= MAX_TEAMS && p.Valid(|row|)
    ensures forall i :: 0 <= i < |row| ==> Arrange(p, row)[i] == row[Places(p, |row|)[i]]
  {
  }

  function SetRow(s: seq<Conn>, base: nat, row: seq<Conn>): (r: seq<Conn>)
    requires base + |row| <= |s|
    ensures |r| == |s|
  {
    seq(|s|, k requires 0 <= k < |s| => if base <= k < base + |row| then row[k - base] else s[k])
  }

  lemma RowWritten(now: seq<Conn>, s: seq<Conn>, base: nat, row: seq<Conn>)
    requires base + |row| <= |s| == |now|
    requires forall k :: 0 <= k < |row| ==> now[base + k] == row[k]
    requires forall k :: (0 <= k < base || base + |row| <= k < |s|) ==> now[k] == s[k]
    ensures now == SetRow(s, base, row)
  {
    var r := SetRow(s, base, row);
    forall k | 0 <= k < |s|
      ensures now[k] == r[k]
    {
      if base <= k < base + |row| {
        assert now[base + (k - base)] == row[k - base];
      }
    }
  }

  lemma SetRowPermutes(s: seq<Conn>, base: nat, was: seq<Conn>, row: seq<Conn>)
    requires base + |row| <= |s| && was == s[base..base + |row|] && multiset(row) == multiset(was)
    ensures multiset(SetRow(s, base, row)) == multiset(s)
  {
    assert s == s[..base] + was + s[base + |row|..];
    assert SetRow(s, base, row) == s[..base] + row + s[base + |row|..];
  }

  /** The level of player k. Past the line-up the code reads whatever the array holds: `stale`. */
  function LevelAt(s: seq<Conn>, k: nat, stale: nat -> int): int {
    if k < |s| then s[k].level else stale(k)
  }

  /** One pass of the inner loop: add the level of player base + j to cell j. */
  function AddRow(t: Cells, s: seq<Conn>, base: nat, teams: nat, stale: nat -> int): Cells {
    Cells(if 0 < teams then t.c0 + LevelAt(s, base, stale) else t.c0,
          if 1 < teams then t.c1 + LevelAt(s, base + 1, stale) else t.c1,
          if 2 < teams then t.c2 + LevelAt(s, base + 2, stale) else t.c2,
          if 3 < teams then t.c3 + LevelAt(s, base + 3, stale) else t.c3)
  }

  function Cell(t: Cells, k: nat, beyond: nat -> int): int {
    if k < MAX_TEAMS then t.At(k) else beyond(k)
  }

  /** The cells from `base` on, which the comparisons read. Past the four elements of level[] they are
      memory the code does not own: `beyond`. */
  function Window(t: Cells, base: nat, beyond: nat -> int): Cells {
    Cells(Cell(t, base, beyond), Cell(t, base + 1, beyond), Cell(t, base + 2, beyond), Cell(t, base + 3, beyond))
  }

  lemma {:induction false} RowFits(n: nat, teams: nat, ppt: nat, i: nat)
    requires i + 1 < ppt && Times(ppt, teams) <= n
    ensures Times(i, teams) + 2 * teams <= n
  {
    if i + 2 < ppt {
      RowFits(n, teams, ppt - 1, i);
    }
  }

  /** All rows of a line-up are full. */
  lemma RowsFit(n: nat, teams: nat)
    requires 0 < teams
    ensures Times(n / teams, teams) <= n
  {
    TimesIs(n / teams, teams);
  }

  /** One round: the row at `base` is handed out by the plan. */
  function Round(s: seq<Conn>, base: nat, teams: nat, p: Plan): (r: seq<Conn>)
    requires 2 <= teams <= MAX_TEAMS && p.Valid(teams) && base + teams <= |s|
    ensures |r| == |s|
  {
    SetRow(s, base, Arrange(p, s[base..base + teams]))
  }

  lemma RoundPermutes(s: seq<Conn>, base: nat, teams: nat, p: Plan)
    requires 2 <= teams <= MAX_TEAMS && p.Valid(teams) && base + teams <= |s|
    ensures multiset(Round(s, base, teams, p)) == multiset(s)
  {
    var row := s[base..base + teams];
    ArrangePermutes(p, row);
    SetRowPermutes(s, base, row, Arrange(p, row));
  }

  lemma RoundKeeps(s: seq<Conn>, base: nat, teams: nat, p: Plan, k: nat)
    requires 2 <= teams <= MAX_TEAMS && p.Valid(teams) && base + teams <= |s| && k < base
    ensures Round(s, base, teams, p)[k] == s[k]
  {
  }

  function Iterate<T>(step: T -> T, x: T, n: nat): T {
    if n == 0 then x else Iterate(step, step(x), n - 1)
  }

  lemma {:induction false} IterateKeeps<T>(step: T -> T, x: T, n: nat, inv: T -> bool)
    requires inv(x) && forall y :: inv(y) ==> inv(step(y))
    ensures inv(Iterate(step, x, n))
  {
    if n > 0 {
      IterateKeeps(step, step(x), n - 1, inv);
    }
  }

  /** The reorder loop between two turns: `start` is i * ppt, where the levels are read, and `off` is i * teams, where
      the totals are compared. */
  datatype Progress = Progress(s: seq<Conn>, level: Cells, start: nat, off: nat)

  /** What does not change during the loop. */
  datatype Setting = Setting(teams: nat, ppt: nat, stale: nat -> int, beyond: nat -> int) {
    predicate Valid() { 2 <= teams <= MAX_TEAMS }

    /** What turn i finds: `s` in the array and `level` in level[]. */
    function Before(s: seq<Conn>, level: Cells, i: nat): Progress {
      Progress(s, level, Times(i, ppt), Times(i, teams))
    }

    function Sums(x: Progress): Cells {
      AddRow(x.level, x.s, x.start, teams, stale)
    }

    function PlanAt(x: Progress): (p: Plan)
      requires Valid()
      ensures p.Valid(teams)
    {
      PlanFor(teams, Window(Sums(x), x.off, beyond))
    }

    /** One turn of the loop. The row it writes always exists, which OrderQueue shows. */
    function Turn(x: Progress): Progress
      requires Valid()
    {
      if x.off + 2 * teams > |x.s| then x
      else Progress(Round(x.s, x.off + teams, teams, PlanAt(x)), Sums(x), x.start + ppt, x.off + teams)
    }

    function Turns(): Progress -> Progress
      requires Valid()
    {
      (x: Progress) => Turn(x)
    }

    ghost predicate IsTurn(turn: Progress -> Progress)
      requires Valid()
    {
      forall x {:trigger Turn(x)} :: turn(x) == Turn(x)
    }

    lemma TurnIs(s: seq<Conn>, level: Cells, start: nat, off: nat, sums: Cells, p: Plan)
      requires Valid() && off + 2 * teams <= |s|
      requires sums == AddRow(level, s, start, teams, stale) && p == PlanFor(teams, Window(sums, off, beyond))
      ensures Turn(Progress(s, level, start, off)) == Progress(Round(s, off + teams, teams, p), sums, start + ppt, off + teams)
    {
    }

    lemma TurnDone(turn: Progress -> Progress, s: seq<Conn>, level: Cells, start: nat, off: nat, sums: Cells, p: Plan)
      requires Valid() && IsTurn(turn) && off + 2 * teams <= |s|
      requires sums == AddRow(level, s, start, teams, stale) && p == PlanFor(teams, Window(sums, off, beyond))
      ensures turn(Progress(s, level, start, off))
           == Progress(Round(s, off + teams, teams, p), sums, start + ppt, off + teams)
    {
      TurnIs(s, level, start, off, sums, p);
    }

    lemma NextTurn(x: Progress, n: nat)
      requires Valid() && n > 0
      ensures Iterate(Turns(), x, n) == Iterate(Turns(), Turn(x), n - 1)
    {
    }

    /** Whatever the cells hold, also where the code reads outside level[], a turn only permutes. */
    lemma TurnPermutes(x: Progress)
      requires Valid()
      ensures multiset(Turn(x).s) == multiset(x.s) && |Turn(x).s| == |x.s|
    {
      if x.off + 2 * teams <= |x.s| {
        RoundPermutes(x.s, x.off + teams, teams, PlanAt(x));
      }
    }

    /** A turn leaves the rows up to the current one alone. */
    lemma TurnKeeps(x: Progress, k: nat)
      requires Valid() && k < |x.s| && k < x.off + teams
      ensures var y := Turn(x); |y.s| == |x.s| && k < y.off + teams && y.s[k] == x.s[k]
    {
      if x.off + 2 * teams <= |x.s| {
        RoundKeeps(x.s, x.off + teams, teams, PlanAt(x), k);
      }
    }

    lemma TurnsKeep(x: Progress, n: nat, k: nat)
      requires Valid() && k < |x.s| && k < x.off + teams
      ensures var y := Iterate(Turns(), x, n); |y.s| == |x.s| && y.s[k] == x.s[k]
    {
      var inv := (y: Progress) => |y.s| == |x.s| && k < y.off + teams && y.s[k] == x.s[k];
      forall y: Progress | inv(y)
        ensures inv(Turns()(y))
      {
        TurnKeeps(y, k);
      }
      IterateKeeps(Turns(), x, n, inv);
    }

    lemma TurnsPermute(x: Progress, n: nat)
      requires Valid()
      ensures multiset(Iterate(Turns(), x, n).s) == multiset(x.s) && |Iterate(Turns(), x, n).s| == |x.s|
    {
      var inv := (y: Progress) => multiset(y.s) == multiset(x.s) && |y.s| == |x.s|;
      forall y: Progress | inv(y)
        ensures inv(Turns()(y))
      {
        TurnPermutes(y);
      }
      IterateKeeps(Turns(), x, n, inv);
    }
  }

  function Unordered(s: seq<Conn>): Progress {
    Progress(s, Cells(0, 0, 0, 0), 0, 0)
  }

  function Reordered(s: seq<Conn>, teams: nat, arranged: bool, stale: nat -> int, beyond: nat -> int): seq<Conn>
    requires teams == 0 || 2 <= teams <= MAX_TEAMS
  {
    if teams == 0 || arranged || |s| < teams then s
    else
      var ppt := |s| / teams;
      Iterate(Setting(teams, ppt, stale, beyond).Turns(), Unordered(s), ppt - 1).s
  }

  /** Without teams, in 1v1 and small free-for-all, the sorted order is final. */
  lemma NoTeamsKept(s: seq<Conn>, stale: nat -> int, beyond: nat -> int)
    ensures Reordered(s, 0, false, stale, beyond) == s
  {
  }

  lemma ReorderedPermutes(s: seq<Conn>, teams: nat, arranged: bool, stale: nat -> int, beyond: nat -> int)
    requires teams == 0 || 2 <= teams <= MAX_TEAMS
    ensures var r := Reordered(s, teams, arranged, stale, beyond); multiset(r) == multiset(s) && |r| == |s|
  {
    if teams != 0 && teams <= |s| {
      var ppt := |s| / teams;
      Setting(teams, ppt, stale, beyond).TurnsPermute(Unordered(s), ppt - 1);
    }
  }

  /** The players of the row at `base` change places as the plan says. */
  method PlayRound(player: array<Conn>, n: nat, base: nat, teams: nat, p: Plan)
    requires 2 <= teams <= MAX_TEAMS && p.Valid(teams) && base + teams <= n <= player.Length
    modifies player
    ensures player[..n] == Round(old(player[..n]), base, teams, p)
    ensures player[n..] == old(player[n..])
  {
    ghost var s := player[..n];
    var row := player[base..base + teams];
    assert row == s[base..base + teams];
    player[base] := row[p.p0];
    player[base + 1] := row[p.p1];
    if 3 <= teams {
      player[base + 2] := row[p.p2];
    }
    if 4 <= teams {
      player[base + 3] := row[p.p3];
    }
    RowWritten(player[..n], s, base, Arrange(p, row));
  }

  /** The totals are brought up to date and compared. */
  method ChoosePlan(s: seq<Conn>, x: Setting, level: Cells, start: nat, off: nat, ghost turn: Progress -> Progress)
    returns (sums: Cells, p: Plan)
    requires x.Valid() && off + 2 * x.teams <= |s| && x.IsTurn(turn)
    ensures p.Valid(x.teams)
    ensures turn(Progress(s, level, start, off))
         == Progress(Round(s, off + x.teams, x.teams, p), sums, start + x.ppt, off + x.teams)
  {
    sums := AddRow(level, s, start, x.teams, x.stale);
    p := PlanFor(x.teams, Window(sums, off, x.beyond));
    x.TurnDone(turn, s, level, start, off, sums, p);
  }

  /** One iteration of the reorder loop: a turn. */
  method OrderRow(player: array<Conn>, n: nat, x: Setting, level: Cells, i: nat, ghost turn: Progress -> Progress)
    returns (sums: Cells)
    requires n <= player.Length && x.Valid() && Times(x.ppt, x.teams) <= n && i + 1 < x.ppt && x.IsTurn(turn)
    modifies player
    ensures x.Before(player[..n], sums, i + 1) == turn(x.Before(old(player[..n]), level, i))
    ensures player[n..] == old(player[n..])
  {
    RowFits(n, x.teams, x.ppt, i);
    var start, off := Times(i, x.ppt), Times(i, x.teams);
    var p;
    sums, p := ChoosePlan(player[..n], x, level, start, off, turn);
    PlayRound(player, n, off + x.teams, x.teams, p);
  }

  /** The loop of _anongame_order_queue, in place. */
  method OrderRows(player: array<Conn>, n: nat, x: Setting, ghost turn: Progress -> Progress)
    requires n <= player.Length && x.Valid() && Times(x.ppt, x.teams) <= n && 0 < x.ppt && x.IsTurn(turn)
    modifies player
    ensures player[..n] == Iterate(turn, Unordered(old(player[..n])), x.ppt - 1).s
    ensures player[n..] == old(player[n..])
  {
    var level := Cells(0, 0, 0, 0);
    ghost var goal := Iterate(turn, Unordered(player[..n]), x.ppt - 1);
    var i: nat := 0;
    while i < x.ppt - 1
      invariant i <= x.ppt - 1 && player[n..] == old(player[n..])
      invariant goal == Iterate(turn, x.Before(player[..n], level, i), x.ppt - 1 - i)
    {
      level := OrderRow(player, n, x, level, i, turn);
      i := i + 1;
    }
  }

  /** _anongame_order_queue, in place. */
  method OrderQueue(player: array<Conn>, n: nat, teams: nat, arranged: bool, stale: nat -> int, beyond: nat -> int)
    requires n <= player.Length && (teams == 0 || 2 <= teams <= MAX_TEAMS)
    modifies player
    ensures player[..n] == Reordered(old(player[..n]), teams, arranged, stale, beyond)
    ensures player[n..] == old(player[n..])
  {
    if teams != 0 && !arranged && teams <= n {
      RowsFit(n, teams);
      var x := Setting(teams, n / teams, stale, beyond);
      OrderRows(player, n, x, x.Turns());
    }
  }

  // ---------- balance with two players per team ----------

  /** The level total of team j: its player in each of the two rows. */
  function Total(s: seq<Conn>, teams: nat, j: nat): int
    requires j < teams && |s| == 2 * teams
  {
    s[j].level + s[teams + j].level
  }

  function Gap(s: seq<Conn>, lo: nat, hi: nat): int
    requires lo < hi <= |s|
  {
    s[lo].level - s[hi - 1].level
  }

  lemma DescendingLevels(s: seq<Conn>, a: nat, b: nat, c: nat, d: nat)
    requires Descending(s) && a <= b <= c <= d < |s|
    ensures s[a].level >= s[b].level >= s[c].level >= s[d].level
  {
    assert a < b ==> CompareLevel(s[a], s[b]) <= 0;
    assert b < c ==> CompareLevel(s[b], s[c]) <= 0;
    assert c < d ==> CompareLevel(s[c], s[d]) <= 0;
  }

  /** Descending totals reverse the next row. */
  predicate Reverses(p: Plan, teams: nat)
    requires 2 <= teams <= MAX_TEAMS
  {
    p == if teams == 2 then Plan(1, 0, 2, 3) else if teams == 3 then Plan(2, 1, 0, 3) else Plan(3, 2, 1, 0)
  }

  /** Round 0 sees the sorted first row as its totals and reverses the second. */
  lemma FirstPlanReverses(s: seq<Conn>, teams: nat, stale: nat -> int, beyond: nat -> int)
    requires 2 <= teams <= MAX_TEAMS && teams <= |s| && Descending(s)
    ensures Reverses(PlanFor(teams, Window(AddRow(Cells(0, 0, 0, 0), s, 0, teams, stale), 0, beyond)), teams)
  {
    DescendingLevels(s, 0, 1, if teams == 2 then 1 else 2, teams - 1);
  }

  /** The place a reversed row of `teams` players at `base` fills place k from. */
  function Mirror(base: nat, teams: nat, k: nat): nat {
    if base <= k < base + teams then 2 * base + teams - 1 - k else k
  }

  lemma RoundReverses(s: seq<Conn>, base: nat, teams: nat, p: Plan, k: nat)
    requires 2 <= teams <= MAX_TEAMS && base + teams <= |s| && p.Valid(teams) && Reverses(p, teams) && k < |s|
    ensures Round(s, base, teams, p)[k] == s[Mirror(base, teams, k)]
  {
  }

  /** Round 0 of a descending line-up. */
  lemma RoundZero(s: seq<Conn>, x: Setting)
    requires x.Valid() && 2 * x.teams <= |s| && Descending(s)
    ensures var y := x.Turn(Unordered(s));
            && |y.s| == |s| && y.level == x.Sums(Unordered(s)) && y.off == x.teams && y.start == x.ppt
            && forall k :: 0 <= k < |s| ==> y.s[k] == s[Mirror(x.teams, x.teams, k)]
  {
    FirstPlanReverses(s, x.teams, x.stale, x.beyond);
    forall k: nat | k < |s|
      ensures Round(s, x.teams, x.teams, x.PlanAt(Unordered(s)))[k] == s[Mirror(x.teams, x.teams, k)]
    {
      RoundReverses(s, x.teams, x.teams, x.PlanAt(Unordered(s)), k);
    }
  }

  /** Whatever the number of rows, a descending line-up keeps its first row and has its second row reversed. */
  lemma FirstTwoRows(s: seq<Conn>, teams: nat, stale: nat -> int, beyond: nat -> int, k: nat)
    requires 2 <= teams <= MAX_TEAMS && k < 2 * teams <= |s| && Descending(s)
    ensures var r := Reordered(s, teams, false, stale, beyond); |r| == |s| && r[k] == s[Mirror(teams, teams, k)]
  {
    TwoFit(|s|, teams);
    var x := Setting(teams, |s| / teams, stale, beyond);
    RoundZero(s, x);
    x.NextTurn(Unordered(s), x.ppt - 1);
    x.TurnsKeep(x.Turn(Unordered(s)), x.ppt - 2, k);
  }

  lemma TwoFit(n: nat, teams: nat)
    requires 0 < teams && 2 * teams <= n
    ensures 2 <= n / teams
  {
  }

  lemma TwoRowsTotal(s: seq<Conn>, teams: nat, stale: nat -> int, beyond: nat -> int, j: nat)
    requires 2 <= teams <= MAX_TEAMS && |s| == 2 * teams && Descending(s) && j < teams
    ensures var r := Reordered(s, teams, false, stale, beyond);
            |r| == |s| && Total(r, teams, j) == s[j].level + s[2 * teams - 1 - j].level
  {
    FirstTwoRows(s, teams, stale, beyond, j);
    FirstTwoRows(s, teams, stale, beyond, teams + j);
  }

  lemma PairOfTeams(s: seq<Conn>, teams: nat, j: nat, k: nat)
    requires 2 <= teams && |s| == 2 * teams && Descending(s) && j < k < teams
    ensures var x := s[j].level + s[2 * teams - 1 - j].level - (s[k].level + s[2 * teams - 1 - k].level);
            -Gap(s, teams, 2 * teams) <= x <= Gap(s, 0, teams)
  {
    DescendingLevels(s, 0, j, k, teams - 1);
    DescendingLevels(s, teams, 2 * teams - 1 - k, 2 * teams - 1 - j, 2 * teams - 1);
  }

  /** With two players per team no two teams' level totals differ by more than the larger of the level
      gaps within the two sorted rows. */
  lemma TwoRowsBalanced(s: seq<Conn>, teams: nat, stale: nat -> int, beyond: nat -> int, j: nat, k: nat)
    requires 2 <= teams <= MAX_TEAMS && |s| == 2 * teams && Descending(s) && j < k < teams
    ensures var r := Reordered(s, teams, false, stale, beyond);
            Abs(Total(r, teams, j) - Total(r, teams, k)) <= Max(Gap(s, 0, teams), Gap(s, teams, 2 * teams))
  {
    PairOfTeams(s, teams, j, k);
    TwoRowsTotal(s, teams, stale, beyond, j);
    TwoRowsTotal(s, teams, stale, beyond, k);
  }

  /** For 2v2 no other assignment of the same four players to the places is more even. */
  lemma TwoVersusTwoMostEven(s: seq<Conn>, stale: nat -> int, beyond: nat -> int, q: seq<nat>)
    requires |s| == 4 && Descending(s) && Injective(q, 4)
    ensures var r := Reordered(s, 2, false, stale, beyond);
            Abs(Total(r, 2, 0) - Total(r, 2, 1))
            <= Abs(s[q[0]].level + s[q[2]].level - s[q[1]].level - s[q[3]].level)
  {
    TwoRowsTotal(s, 2, stale, beyond, 0);
    TwoRowsTotal(s, 2, stale, beyond, 1);
    DescendingLevels(s, 0, 1, 2, 3);
    var a, b, c, d := s[0].level, s[1].level, s[2].level, s[3].level;
    MostEven(a, b, c, d, q[0], q[1], q[2], q[3]);
    PickLevel(s, q[0]);
    PickLevel(s, q[1]);
    PickLevel(s, q[2]);
    PickLevel(s, q[3]);
  }

  function Pick(a: int, b: int, c: int, d: int, i: nat): int {
    if i == 0 then a else if i == 1 then b else if i == 2 then c else d
  }

  lemma PickLevel(s: seq<Conn>, i: nat)
    requires i < 4 == |s|
    ensures s[i].level == Pick(s[0].level, s[1].level, s[2].level, s[3].level, i)
  {
  }

  lemma MostEven(a: int, b: int, c: int, d: int, w: nat, x: nat, y: nat, z: nat)
    requires a >= b >= c >= d && w < 4 && x < 4 && y < 4 && z < 4
    requires w != x && w != y && w != z && x != y && x != z && y != z
    ensures Abs(a + d - b - c)
         <= Abs(Pick(a, b, c, d, w) + Pick(a, b, c, d, y) - Pick(a, b, c, d, x) - Pick(a, b, c, d, z))
  {
  }

  // ---------- which totals the later rounds read ----------

  /** With four teams round 0 always takes the first branch of the table, and every later round compares four cells
      outside level[]: no totals at all can select one of the three wrong branches. */
  lemma FourTeamsNeverMisled(s: seq<Conn>, t: Cells, i: nat, stale: nat -> int, beyond: nat -> int)
    requires 4 <= |s| && Descending(s)
    ensures PlanFor(4, Window(AddRow(Cells(0, 0, 0, 0), s, 0, 4, stale), 0, beyond)) == Plan(3, 2, 1, 0)
    ensures i >= 1 ==> Window(t, i * 4, beyond) == Cells(beyond(i * 4), beyond(i * 4 + 1), beyond(i * 4 + 2), beyond(i * 4 + 3))
  {
    FirstPlanReverses(s, 4, stale, beyond);
  }

  /** The table is nevertheless wrong: totals 2, 4, 3, 1 take branch 2314, which gives the strongest team, the second,
      a stronger player than the third. */
  lemma WrongBranch()
    ensures var t := Cells(2, 4, 3, 1);
            PlanFor(4, t) == Plan(3, 0, 2, 1) && !Compensates(PlanFor(4, t), 4, t)
  {
    var t := Cells(2, 4, 3, 1);
    assert t.At(1) > t.At(2) && PlanFor(4, t).Place(1) < PlanFor(4, t).Place(2);
  }

  /** Round 1 of two teams compares level[2] and level[3]. */
  lemma RoundOne(s: seq<Conn>, x: Setting, y: Progress, k: nat)
    requires x.teams == 2 && 6 <= |s| == |y.s| && y.level == x.Sums(Unordered(s)) && y.off == 2 && k < |s|
    ensures var z := x.Turn(y); |z.s| == |s| && z.off == 4 && z.s[k] == y.s[Mirror(4, 2, k)]
  {
    RoundReverses(y.s, 4, 2, x.PlanAt(y), k);
  }

  /** The first two turns of two teams, at place k. */
  lemma TwoTurns(s: seq<Conn>, x: Setting, k: nat) returns (z: Progress)
    requires x.teams == 2 && 3 <= x.ppt && k < 6 <= |s| && Descending(s)
    ensures Iterate(x.Turns(), Unordered(s), x.ppt - 1) == Iterate(x.Turns(), z, x.ppt - 3)
    ensures |z.s| == |s| && z.off == 4 && z.s[k] == s[Mirror(2, 2, Mirror(4, 2, k))]
  {
    var y := x.Turn(Unordered(s));
    RoundZero(s, x);
    x.NextTurn(Unordered(s), x.ppt - 1);
    z := SecondTurn(s, x, y, k);
  }

  lemma SecondTurn(s: seq<Conn>, x: Setting, y: Progress, k: nat) returns (z: Progress)
    requires x.teams == 2 && 3 <= x.ppt && k < 6 <= |s| == |y.s| && y.level == x.Sums(Unordered(s)) && y.off == 2
    ensures Iterate(x.Turns(), y, x.ppt - 2) == Iterate(x.Turns(), z, x.ppt - 3)
    ensures |z.s| == |s| && z.off == 4 && z.s[k] == y.s[Mirror(4, 2, k)]
  {
    RoundOne(s, x, y, k);
    x.NextTurn(y, x.ppt - 2);
    z := x.Turn(y);
  }

  lemma AllTurns(s: seq<Conn>, x: Setting, k: nat)
    requires x.teams == 2 && 3 <= x.ppt && k < 6 <= |s| && Descending(s)
    ensures var r := Iterate(x.Turns(), Unordered(s), x.ppt - 1).s; |r| == |s| && r[k] == s[[0, 1, 3, 2, 5, 4][k]]
  {
    var z := TwoTurns(s, x, k);
    x.TurnsKeep(z, x.ppt - 3, k);
    MirroredTwice(k);
  }

  lemma MirroredTwice(k: nat)
    requires k < 6
    ensures Mirror(2, 2, Mirror(4, 2, k)) == [0, 1, 3, 2, 5, 4][k]
  {
  }

  /** With two teams round 1 compares level[2] and level[3], which are always 0, and so always swaps the third row. */
  lemma TwoTeamsThirdRow(s: seq<Conn>, stale: nat -> int, beyond: nat -> int, k: nat)
    requires k < 6 <= |s| && Descending(s)
    ensures var r := Reordered(s, 2, false, stale, beyond);
            |r| == |s| && r[k] == s[[0, 1, 3, 2, 5, 4][k]]
  {
    AllTurns(s, Setting(2, |s| / 2, stale, beyond), k);
  }

  /** Team j's level total in a 3v3 line-up. */
  function TotalOfThree(s: seq<Conn>, j: nat): int
    requires j < 2 && |s| == 6
  {
    s[j].level + s[j + 2].level + s[j + 4].level
  }

  /** A sorted 3v3 line-up always ends up in the same order. Giving the last two players to the other teams would be
      more even exactly when the first team is the weaker one before them and they differ. */
  lemma ThreeVersusThree(s: seq<Conn>, stale: nat -> int, beyond: nat -> int)
    requires |s| == 6 && Descending(s)
    ensures var r := Reordered(s, 2, false, stale, beyond);
            && r == [s[0], s[1], s[3], s[2], s[5], s[4]]
            && TotalOfThree(r, 0) - TotalOfThree(r, 1)
               == (s[0].level + s[3].level - s[1].level - s[2].level) - (s[4].level - s[5].level)
            && (Abs(TotalOfThree(Swap(r, 4, 5), 0) - TotalOfThree(Swap(r, 4, 5), 1))
                < Abs(TotalOfThree(r, 0) - TotalOfThree(r, 1))
                <==> s[0].level + s[3].level < s[1].level + s[2].level && s[4].level > s[5].level)
  {
    var r := Reordered(s, 2, false, stale, beyond);
    forall k: nat | k < 6
      ensures |r| == 6 && r[k] == [s[0], s[1], s[3], s[2], s[5], s[4]][k]
    {
      TwoTeamsThirdRow(s, stale, beyond, k);
    }
    assert |r| == 6;
    assert r == [s[0], s[1], s[3], s[2], s[5], s[4]];
    DescendingLevels(s, 2, 3, 4, 5);
    EvenLast(s[0].level + s[3].level - s[1].level - s[2].level, s[4].level - s[5].level);
  }

  lemma EvenLast(d: int, g: int)
    requires g >= 0
    ensures Abs(d + g) < Abs(d - g) <==> d < 0 && g > 0
  {
  }
}
