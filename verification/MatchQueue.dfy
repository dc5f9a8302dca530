/** One search queue with its waiting lists, the players picked so far and the chosen map, updated in
    place as the code does (src/bnetd/anongame.cpp:503-543, 804-907, 1054-1106). */
module MatchQueue {
  import opened Common
  import opened LevelSweep
  import opened MapMask
  import opened QueueTypes
  import opened Matchmaking
  import opened Unqueueing
  import opened Picking
  import opened OneOnOne
  import opened LineUp
  import opened Seats
  import opened MapChoice

  /** The values the code takes from elsewhere: the level difference of the ladder table, a random number,
      and what its unchecked reads of player[] and level[] return. */
  datatype Environment = Environment(diff: nat, rand: nat, stale: nat -> int, beyond: nat -> int)

  /** The local variables of _anongame_match that the loops update. */
  datatype Locals = Locals(lo: int, hi: int, prefs: Mask, inviters: seq<Conn>)

  class MatchQueue {
    const queue: nat
    const tournament: Tournament
    var lists: Lists
    /** The tc[] of each connection's anongame record: the team it was last assigned to, itself included. */
    var tc: map<Conn, seq<Conn>>
    var players: nat
    const player: array<Conn>
    var mapname: Option<string>

    ghost predicate Valid()
      reads this
    {
      && queue < ANONGAME_TYPES && WellSized(queue, tournament)
      && player.Length == MAX_GAMECOUNT
      && Placed(lists)
      && (forall l, i :: 0 <= l < |lists| && 0 <= i < |lists[l]| ==> TeamFits(lists[l][i].c))
    }

    function Teams(): nat { TotalTeams(queue) }

    predicate IsArranged() { Arranged(queue, tournament) }

    /** Players that one list entry brings: the whole team when arranged. */
    function PerEntry(): nat {
      if IsArranged() && Teams() > 0 then TotalPlayers(queue, tournament) / Teams() else 1
    }

    function TeamOf(c: Conn): seq<Conn>
      reads this`tc
    {
      if c in tc then tc[c] else []
    }

    predicate TeamFits(c: Conn)
      reads this`tc
    {
      IsArranged() ==> |TeamOf(c)| == PerEntry()
    }

    constructor (queue: nat, tournament: Tournament, nobody: Conn)
      requires queue < ANONGAME_TYPES
      ensures Valid() && fresh(player) && this.queue == queue && this.tournament == tournament
      ensures forall c :: !Waiting(lists, c)
    {
      QueuesWellSized(queue, tournament);
      this.queue := queue;
      this.tournament := tournament;
      tc := map[];
      lists := seq(MAX_LEVEL, _ => []);
      players := 0;
      player := new Conn[MAX_GAMECOUNT](_ => nobody);
      mapname := None;
    }

    /** An arranged search assigns the whole team, its leader first, to every member. */
    method AssignTeam(team: seq<Conn>)
      requires Valid() && (IsArranged() ==> |team| == PerEntry())
      modifies this`tc
      ensures Valid() && forall c :: TeamOf(c) == if c in team then team else old(TeamOf(c))
    {
      var i := 0;
      while i < |team|
        invariant 0 <= i <= |team|
        invariant forall c :: TeamOf(c) == if c in team[..i] then team else old(TeamOf(c))
      {
        assert team[..i + 1] == team[..i] + [team[i]];
        tc := tc[team[i] := team];
        i := i + 1;
      }
      assert team[..i] == team;
    }

    /** _anongame_queue: append to the list of the connection's level. */
    method Queue(c: Conn, prefs: Mask)
      requires Valid() && 0 <= c.level < MAX_LEVEL && TeamFits(c)
      modifies this`lists
      ensures Valid()
      ensures lists == Enqueued(old(lists), c, prefs)
      ensures lists[c.level] == old(lists)[c.level] + [Entry(c, prefs, c.tag)]
      ensures forall l :: 0 <= l < MAX_LEVEL && l != c.level ==> lists[l] == old(lists)[l]
    {
      EnqueuedPlaced(lists, c, prefs);
      lists := lists[c.level := lists[c.level] + [Entry(c, prefs, c.tag)]];
    }

    /** The place of the entry of `c`, or the number of entries. */
    method PlaceOf(entries: seq<Entry>, c: Conn) returns (k: nat)
      ensures k <= |entries| && (k < |entries| ==> entries[k].c == c)
      ensures forall j :: 0 <= j < k ==> entries[j].c != c
    {
      k := 0;
      while k < |entries| && entries[k].c != c
        invariant k <= |entries| && forall j :: 0 <= j < k ==> entries[j].c != c
      {
        k := k + 1;
      }
    }

    method TakeOut(l: nat, k: nat)
      requires Valid() && l < MAX_LEVEL && k < |lists[l]| && forall j :: 0 <= j < k ==> lists[l][j].c != lists[l][k].c
      modifies this`lists
      ensures Valid() && lists == Unqueued(old(lists), old(lists)[l][k].c)
    {
      UnqueuedPlaced(lists, lists[l][k].c);
      UnqueuedAt(lists, l, k);
      lists := lists[l := lists[l][..k] + lists[l][k + 1..]];
    }

    /** anongame_unqueue: look through the lists of all levels and remove the first entry of `c`. */
    method Unqueue(c: Conn) returns (r: int)
      requires Valid()
      modifies this`lists
      ensures Valid()
      ensures lists == Unqueued(old(lists), c)
      ensures r == if old(Waiting(lists, c)) || IsArranged() then 0 else -1
    {
      var l := 0;
      while l < MAX_LEVEL
        invariant 0 <= l <= MAX_LEVEL && lists == old(lists)
        invariant forall m, k :: 0 <= m < l && 0 <= k < |lists[m]| ==> lists[m][k].c != c
      {
        var k := PlaceOf(lists[l], c);
        if k < |lists[l]| {
          TakeOut(l, k);
          return 0;
        }
        l := l + 1;
      }
      UnqueuedNone(lists, c);
      r := if IsArranged() then 0 else -1;
    }

    method UnqueueAll(cs: seq<Conn>)
      requires Valid()
      modifies this`lists
      ensures Valid()
      ensures lists == UnqueuedAll(old(lists), cs)
    {
      var i := 0;
      while i < |cs|
        invariant 0 <= i <= |cs| && Valid()
        invariant lists == UnqueuedAll(old(lists), cs[..i])
      {
        assert cs[..i + 1][..i] == cs[..i] && cs[..i + 1][i] == cs[i];
        var _ := Unqueue(cs[i]);
        i := i + 1;
      }
      assert cs[..i] == cs;
    }

    // ---------- matching ----------

    function NeedHere(): nat { Need(queue, tournament) }

    /** player[] and players[] hold the picks so far: one place each, or the seats of their team. */
    ghost predicate Recorded(picks: seq<Entry>)
      requires Valid()
      reads this, player
    {
      && |picks| <= NeedHere() && players == |picks| * PerEntry()
      && if IsArranged()
         then Seated(picks, PerEntry())
         else forall t :: 0 <= t < |picks| ==> player[t] == picks[t].c
    }

    lemma Sizes()
      requires Valid()
      ensures 0 < PerEntry() && NeedHere() * PerEntry() == TotalPlayers(queue, tournament)
      ensures IsArranged() ==> 0 < Teams() == NeedHere()
      ensures !IsArranged() ==> PerEntry() == 1
    {
    }

    /** An accepted entry of a non-arranged queue takes the next place. */
    method TakePlace(e: Entry, ghost picks: seq<Entry>)
      requires Valid() && !IsArranged() && Recorded(picks) && |picks| < NeedHere()
      modifies this`players, player
      ensures Valid() && Recorded(picks + [e])
    {
      player[players] := e.c;
      players := players + 1;
    }

    /** An accepted entry of an arranged queue takes the seats of its team, the `teams`-th so far. */
    method TakeSeats(e: Entry, teams: nat, ghost picks: seq<Entry>)
      requires Valid() && IsArranged() && Recorded(picks) && teams == |picks| < NeedHere() && TeamFits(e.c)
      modifies this`players, player
      ensures Valid() && Recorded(picks + [e])
    {
      Sizes();
      var totalcount := PerEntry();
      var i: nat := 0;
      while i < totalcount
        invariant i <= totalcount && Valid()
        invariant players == teams * totalcount + i
        invariant Seated(picks, totalcount)
        invariant forall k: nat :: k < i ==> SitsAt(e, teams, k)
      {
        SeatsApart(Teams(), totalcount, teams, i);
        assert Seat(Teams(), teams, i) < Teams() * totalcount;
        var place := teams + i * Teams();
        label before:
        player[place] := TeamOf(e.c)[i];
        players := players + 1;
        assert SitsAt(e, teams, i);
        forall t: nat, k: nat | t < |picks| && k < totalcount
          ensures SitsAt(picks[t], t, k)
        {
          assert old@before(SitsAt(picks[t], t, k));
          assert Seat(Teams(), t, k) != place;
        }
        forall k: nat | k < i
          ensures SitsAt(e, teams, k)
        {
          assert old@before(SitsAt(e, teams, k));
          assert Seat(Teams(), teams, k) != place;
        }
        i := i + 1;
      }
      assert Seated(picks + [e], totalcount);
    }

    /** The i-th player of the team of `e`, the t-th team, is in its seat. */
    ghost predicate SitsAt(e: Entry, t: nat, i: nat)
      reads this`tc, player
    {
      i < |TeamOf(e.c)| && Seat(Teams(), t, i) < player.Length && player[Seat(Teams(), t, i)] == TeamOf(e.c)[i]
    }

    /** The picked teams sit in their seats. */
    ghost predicate Seated(picks: seq<Entry>, count: nat)
      reads this`tc, player
    {
      && (forall t :: 0 <= t < |picks| ==> |TeamOf(picks[t].c)| == count)
      && forall t: nat, i: nat :: t < |picks| && i < count ==> SitsAt(picks[t], t, i)
    }

    /** The locals of the loop say what the hunt says. */
    ghost predicate Tracks(h: Hunt, loc: Locals) {
      && h.lo == loc.lo && h.hi == loc.hi && h.maps == Slots(loc.prefs)
      && (IsArranged() ==> loc.inviters == ConnSeq(h.picks))
    }

    /** The body of the innermost test: the entry is accepted (anongame.cpp:835-875). */
    method Accept(e: Entry, diff: nat, loc: Locals, ghost h: Hunt) returns (next: Locals)
      requires Valid() && Recorded(h.picks) && Tracks(h, loc) && |h.picks| < NeedHere() && TeamFits(e.c)
      modifies this`players, player
      ensures Valid() && Recorded(Take(h, diff, e).picks) && Tracks(Take(h, diff, e), next)
    {
      SlotsAnd(loc.prefs, e.prefs);
      next := Locals(Max(loc.lo, e.c.level - diff), Min(loc.hi, e.c.level + diff), And(loc.prefs, e.prefs), loc.inviters);
      if IsArranged() {
        next := next.(inviters := next.inviters + [e.c]);
        TakeSeats(e, |loc.inviters|, h.picks);
      } else {
        TakePlace(e, h.picks);
      }
    }

    /** The traversal of one level's list, stopped as soon as the match is complete. */
    method ScanLevel(l: nat, tag: Option<string>, diff: nat, loc: Locals, ghost h: Hunt) returns (next: Locals, ghost g: Hunt)
      requires Valid() && l < MAX_LEVEL && h.lo <= l <= h.hi
      requires Recorded(h.picks) && Tracks(h, loc) && |h.picks| < NeedHere()
      modifies this`players, player
      ensures Valid()
      ensures g == Greedy(h, lists[l], NeedHere(), tag, diff)
      ensures Recorded(g.picks) && Tracks(g, next)
    {
      Sizes();
      next, g := loc, h;
      var k := 0;
      while k < |lists[l]|
        invariant 0 <= k <= |lists[l]| && Valid()
        invariant Recorded(g.picks) && Tracks(g, next) && |g.picks| < NeedHere() && g.lo <= l <= g.hi
        invariant Greedy(g, lists[l][k..], NeedHere(), tag, diff) == Greedy(h, lists[l], NeedHere(), tag, diff)
      {
        var md := lists[l][k];
        assert lists[l][k..] == [md] + lists[l][k + 1..];
        SlotsAnd(next.prefs, md.prefs);
        if md.tag.Some? && tag.Some? && md.tag.value == tag.value && And(next.prefs, md.prefs) != 0 {
          next := Accept(md, diff, next, g);
          g := Take(g, diff, md);
          if players == TotalPlayers(queue, tournament) {
            FullWhen(|g.picks|);
            return;
          }
          FullWhen(|g.picks|);
        }
        k := k + 1;
      }
    }

    /** players[queue] reaches the player count exactly when enough entries are picked. */
    lemma FullWhen(n: nat)
      requires Valid() && n <= NeedHere()
      ensures n * PerEntry() == TotalPlayers(queue, tournament) <==> n == NeedHere()
    {
      Sizes();
      MulAway(NeedHere() - n, PerEntry());
    }

    /** The line-up of a completed match: the arranged teams in their seats, or some descending sort of the
        picked players, reordered into teams. */
    ghost predicate LinedUp(picks: seq<Entry>, env: Environment)
      requires Valid()
      reads this, player
    {
      && players == TotalPlayers(queue, tournament)
      && if IsArranged()
         then Seated(picks, PerEntry())
         else exists sorted: seq<Conn> ::
             Descending(sorted) && multiset(sorted) == multiset(ConnSeq(picks))
             && player[..players] == Reordered(sorted, Teams(), false, env.stale, env.beyond)
    }

    lemma LineUpMembers(picks: seq<Entry>, sorted: seq<Conn>, final: seq<Conn>, teams: nat, env: Environment)
      requires (teams == 0 || 2 <= teams <= MAX_TEAMS) && multiset(sorted) == multiset(ConnSeq(picks))
      requires final == Reordered(sorted, teams, false, env.stale, env.beyond)
      ensures multiset(final) == multiset(ConnSeq(picks))
    {
      ReorderedPermutes(sorted, teams, false, env.stale, env.beyond);
    }

    /** Sort and reorder the picked players of a non-arranged match (anongame.cpp:877-879). */
    method LineUpPlayers(ghost picks: seq<Entry>, env: Environment)
      requires Valid() && !IsArranged() && Recorded(picks) && |picks| == NeedHere()
      modifies player
      ensures Valid() && LinedUp(picks, env)
      ensures multiset(player[..players]) == multiset(ConnSeq(picks))
    {
      Sizes();
      assert player[..players] == ConnSeq(picks);
      SortByLevel(player, players);
      ghost var sorted := player[..players];
      OrderQueue(player, players, Teams(), false, env.stale, env.beyond);
      LineUpMembers(picks, sorted, player[..players], Teams(), env);
    }

    /** What is done once the match is complete (anongame.cpp:858-868, 876-886). */
    method Complete(loc: Locals, ghost h: Hunt, env: Environment, war3: MapTable, w3xp: MapTable, clienttag: ClientTag)
      requires Valid() && war3.Valid() && w3xp.Valid()
      requires Recorded(h.picks) && Tracks(h, loc) && |h.picks| == NeedHere() && h.maps != {}
      modifies this`lists, this`mapname, player
      ensures Valid() && LinedUp(h.picks, env)
      ensures lists == UnqueuedAll(old(lists), ConnSeq(h.picks))
      ensures mapname.Some? && Chosen(war3, w3xp, queue, h.maps, clienttag, mapname.value)
    {
      var name := PickMap(loc.prefs, h.maps, env.rand, war3, w3xp, clienttag);
      mapname := Some(name);
      LetGo(loc, h, env);
    }

    method PickMap(prefs: Mask, ghost maps: set<int>, rand: nat, war3: MapTable, w3xp: MapTable, clienttag: ClientTag)
      returns (name: string)
      requires Valid() && war3.Valid() && w3xp.Valid() && maps == Slots(prefs) && maps != {}
      ensures Chosen(war3, w3xp, queue, maps, clienttag, name)
    {
      name := GetMapFromPrefs(war3, w3xp, queue, prefs, clienttag, rand);
    }

    /** The teams are made up and everybody picked leaves the lists. */
    method LetGo(loc: Locals, ghost h: Hunt, env: Environment)
      requires Valid() && Recorded(h.picks) && Tracks(h, loc) && |h.picks| == NeedHere()
      modifies this`lists, player
      ensures Valid() && LinedUp(h.picks, env)
      ensures lists == UnqueuedAll(old(lists), ConnSeq(h.picks))
    {
      FullWhen(|h.picks|);
      if IsArranged() {
        UnqueueAll(loc.inviters);
      } else {
        LineUpPlayers(h.picks, env);
        OrderIsFree(lists, player[..players], ConnSeq(h.picks));
        UnqueueAll(player[..players]);
      }
    }

    /** The match was completed with the picks of `h`. */
    ghost predicate Completed(before: Lists, h: Hunt, env: Environment, war3: MapTable, w3xp: MapTable, clienttag: ClientTag)
      requires Valid() && war3.Valid() && w3xp.Valid()
      reads this, player, war3, war3.maplist, war3.maplists, w3xp, w3xp.maplist, w3xp.maplists
    {
      && |h.picks| == NeedHere() && LinedUp(h.picks, env)
      && lists == UnqueuedAll(before, ConnSeq(h.picks))
      && mapname.Some? && Chosen(war3, w3xp, queue, h.maps, clienttag, mapname.value)
    }

    /** The visit of one level, if it is inside the window, with everything that a completed match entails. */
    method VisitLevel(l: nat, c: Conn, loc: Locals, ghost h: Hunt, env: Environment, war3: MapTable, w3xp: MapTable, clienttag: ClientTag)
      returns (next: Locals, ghost g: Hunt, done: bool)
      requires Valid() && war3.Valid() && w3xp.Valid() && l < MAX_LEVEL
      requires Recorded(h.picks) && Tracks(h, loc) && |h.picks| < NeedHere()
      requires h.picks != [] ==> h.maps != {}
      modifies this`lists, this`players, this`mapname, player
      ensures Valid()
      ensures g == if h.lo <= l <= h.hi then Greedy(h, old(lists)[l], NeedHere(), c.tag, env.diff) else h
      ensures g.picks != [] ==> g.maps != {}
      ensures if done then Completed(old(lists), g, env, war3, w3xp, clienttag)
              else Recorded(g.picks) && Tracks(g, next) && |g.picks| < NeedHere() && lists == old(lists)
    {
      next, g, done := loc, h, false;
      if loc.lo <= l <= loc.hi {
        GreedyMaps(h, lists[l], NeedHere(), c.tag, env.diff);
        next, g := ScanLevel(l, c.tag, env.diff, loc, h);
        FullWhen(|g.picks|);
        done := players == TotalPlayers(queue, tournament);
        if done {
          Complete(next, g, env, war3, w3xp, clienttag);
        }
      }
    }

    /** The rest of the sweep leads from hunt `h` to `goal`. */
    ghost predicate Ahead(h: Hunt, delta: int, c: Conn, diff: nat, goal: Hunt)
      requires Valid() && 0 <= c.level && c.level + diff < MAX_LEVEL
      reads this
    {
      && Rows(lists, Sweep(c.level, diff, delta))
      && Greedy(h, Candidates(lists, Sweep(c.level, diff, delta)), NeedHere(), c.tag, diff) == goal
    }

    /** The state of an unfinished hunt at offset `delta`, which leads to `goal`. */
    ghost predicate Hunting(h: Hunt, loc: Locals, delta: int, c: Conn, diff: nat, goal: Hunt)
      requires Valid() && 0 <= c.level && c.level + diff < MAX_LEVEL
      reads this, player
    {
      && Recorded(h.picks) && Tracks(h, loc) && |h.picks| < NeedHere()
      && (h.picks != [] ==> h.maps != {})
      && Ahead(h, delta, c, diff, goal)
    }

    /** One round of the sweep: visit the level at `delta`, then update `delta`. */
    method Round(c: Conn, delta: int, loc: Locals, ghost h: Hunt, ghost goal: Hunt, env: Environment,
                 war3: MapTable, w3xp: MapTable, clienttag: ClientTag)
      returns (next: Locals, ghost g: Hunt, done: bool, delta': int)
      requires Valid() && war3.Valid() && w3xp.Valid()
      requires 0 <= c.level && c.level + env.diff < MAX_LEVEL && Abs(delta) < env.diff + 1 && 0 <= c.level + delta
      requires Hunting(h, loc, delta, c, env.diff, goal)
      modifies this`lists, this`players, this`mapname, player
      ensures Valid() && delta' == Step(c.level, delta)
      ensures if done then g == goal && Completed(old(lists), goal, env, war3, w3xp, clienttag)
              else lists == old(lists) && Hunting(g, next, delta', c, env.diff, goal)
    {
      NextLevel(h, delta, c, env.diff, goal);
      next, g, done := VisitLevel(c.level + delta, c, loc, h, env, war3, w3xp, clienttag);
      delta' := Step(c.level, delta);
    }

    lemma StepShrinks(level: nat, diff: nat, delta: int)
      requires level + diff < MAX_LEVEL && Abs(delta) < diff + 1
      ensures Abs(Step(level, delta)) > Abs(delta) || (Abs(Step(level, delta)) == Abs(delta) && Step(level, delta) <= 0 < delta)
    {
    }

    /** _anongame_match: the whole search for `c` (anongame.cpp:804-907). The ghost result is the hunt. */
    method Match(c: Conn, prefs: Mask, env: Environment, war3: MapTable, w3xp: MapTable, clienttag: ClientTag)
      returns (ghost h: Hunt)
      requires Valid() && war3.Valid() && w3xp.Valid()
      requires 0 <= c.level && c.level + env.diff < MAX_LEVEL
      modifies this`lists, this`players, this`mapname, player
      ensures Valid()
      ensures h == HuntAll(old(lists), c.level, prefs, NeedHere(), c.tag, env.diff)
      ensures lists == TakenOut(old(lists), h, NeedHere())
      ensures if |h.picks| == NeedHere() then Completed(old(lists), h, env, war3, w3xp, clienttag)
              else Recorded(h.picks) && mapname == None
    {
      Sizes();
      var delta := 0;
      var loc := Locals(Max(0, c.level - env.diff), c.level + env.diff, prefs, []);
      h := Opening(c.level, prefs, env.diff);
      ghost var goal := HuntAll(lists, c.level, prefs, NeedHere(), c.tag, env.diff);
      players := 0;
      while Abs(delta) < env.diff + 1
        invariant Valid() && lists == old(lists) && 0 <= c.level + delta
        invariant Hunting(h, loc, delta, c, env.diff, goal)
        decreases env.diff + 1 - Abs(delta), if delta > 0 then 1 else 0
      {
        StepShrinks(c.level, env.diff, delta);
        var done;
        loc, h, done, delta := Round(c, delta, loc, h, goal, env, war3, w3xp, clienttag);
        if done {
          return;
        }
        if c.level + delta < 0 {
          break;
        }
      }
      Exhausted(h, delta, c, env.diff, goal);
      mapname := None;
    }

    /** The chosen map is the one registered in a slot that everybody asked for. */
    lemma MapAsked(h: Hunt, prefs: Mask, war3: MapTable, w3xp: MapTable, clienttag: ClientTag)
      requires Valid() && war3.Valid() && w3xp.Valid() && clienttag != OtherTag && mapname.Some?
      requires forall slot: int :: slot in h.maps <==> AskedByAll(slot, h.picks, prefs)
      requires Chosen(war3, w3xp, queue, h.maps, clienttag, mapname.value)
      ensures var maps := (if clienttag == War3 then war3 else w3xp).QueueMaps(queue);
              exists slot: nat :: AskedByAll(slot, h.picks, prefs) && (slot < |maps| ==> mapname == Some(maps[slot]))
    {
      var table := if clienttag == War3 then war3 else w3xp;
      var slot :| slot in h.maps && 0 <= slot < 32 && Leads(table, queue, slot, mapname.value);
      assert AskedByAll(slot, h.picks, prefs);
    }

    /** 1v1 and small free-for-all line-ups stay in descending order. */
    lemma SoloDescending(picks: seq<Entry>, env: Environment)
      requires Valid() && LinedUp(picks, env) && |picks| == NeedHere() && Teams() == 0
      ensures players == |picks| && Descending(player[..players])
    {
      Sizes();
      var sorted :| Descending(sorted) && multiset(sorted) == multiset(ConnSeq(picks))
             && player[..players] == Reordered(sorted, Teams(), false, env.stale, env.beyond);
      NoTeamsKept(sorted, env.stale, env.beyond);
    }

    /** Who sits at place x of an arranged match: member x / teams of picked team x % teams. */
    lemma ArrangedLineUp(picks: seq<Entry>, env: Environment, x: nat)
      requires Valid() && IsArranged() && LinedUp(picks, env) && |picks| == NeedHere() && x < players
      ensures 0 < Teams() && x % Teams() < |picks|
      ensures var team := TeamOf(picks[x % Teams()].c);
              x / Teams() < |team| && player[x] == team[x / Teams()]
    {
      Sizes();
      PlayerOfSeat(Teams(), PerEntry(), x);
      assert SitsAt(picks[x % Teams()], x % Teams(), x / Teams());
    }

    method QueueAndMatch(leader: Conn, c: Conn, prefs: Mask, env: Environment, war3: MapTable, w3xp: MapTable, clienttag: ClientTag)
      returns (ghost h: Hunt)
      requires Valid() && war3.Valid() && w3xp.Valid() && 0 <= c.level && c.level + env.diff < MAX_LEVEL
      requires 0 <= leader.level < MAX_LEVEL && TeamFits(leader)
      modifies this`lists, this`players, this`mapname, player
      ensures Valid()
      ensures h == HuntAll(Enqueued(old(lists), leader, prefs), c.level, prefs, NeedHere(), c.tag, env.diff)
      ensures lists == TakenOut(Enqueued(old(lists), leader, prefs), h, NeedHere())
      ensures |h.picks| == NeedHere() ==> Completed(Enqueued(old(lists), leader, prefs), h, env, war3, w3xp, clienttag)
    {
      Queue(leader, prefs);
      h := Match(c, prefs, env, war3, w3xp, clienttag);
    }

    lemma CompletedLaws(h: Hunt, prefs: Mask, env: Environment, war3: MapTable, w3xp: MapTable, clienttag: ClientTag)
      requires Valid() && war3.Valid() && w3xp.Valid() && |h.picks| == NeedHere() && LinedUp(h.picks, env)
      requires mapname.Some? && Chosen(war3, w3xp, queue, h.maps, clienttag, mapname.value)
      requires forall slot: int :: slot in h.maps <==> AskedByAll(slot, h.picks, prefs)
      ensures clienttag != OtherTag ==>
                exists slot: nat :: AskedByAll(slot, h.picks, prefs) &&
                  (slot < |(if clienttag == War3 then war3 else w3xp).QueueMaps(queue)| ==>
                   mapname == Some((if clienttag == War3 then war3 else w3xp).QueueMaps(queue)[slot]))
      ensures Teams() == 0 ==> players == |h.picks| && Descending(player[..players])
    {
      if clienttag != OtherTag {
        MapAsked(h, prefs, war3, w3xp, clienttag);
      }
      if Teams() == 0 {
        SoloDescending(h.picks, env);
      }
    }

    /** A search: `leader` is queued, also when it is still waiting, then a match is tried for the searcher `c` (the same
        connection unless the game is arranged; anongame.cpp:498-506). The picks suit each other on any queue; they are
        different connections if nobody searches while waiting, and then the 1v1 lists stay saturated. */
    method Search(leader: Conn, c: Conn, prefs: Mask, env: Environment, war3: MapTable, w3xp: MapTable, clienttag: ClientTag)
      returns (ghost h: Hunt)
      requires Valid() && war3.Valid() && w3xp.Valid() && 0 <= c.level && c.level + env.diff < MAX_LEVEL
      requires 0 <= leader.level < MAX_LEVEL && TeamFits(leader)
      modifies this`lists, this`players, this`mapname, player
      ensures Valid()
      ensures h == HuntAll(Enqueued(old(lists), leader, prefs), c.level, prefs, NeedHere(), c.tag, env.diff)
      ensures lists == TakenOut(Enqueued(old(lists), leader, prefs), h, NeedHere())
      ensures Suited(h, c.level, prefs, c.tag, env.diff)
      ensures exists ks :: FirstServed(Candidates(Enqueued(old(lists), leader, prefs), SweepLevels(c.level, env.diff)), ks,
                                       h.picks, NeedHere(), c.level, prefs, c.tag, env.diff)
      ensures |h.picks| == NeedHere() && clienttag != OtherTag ==>
                exists slot: nat :: AskedByAll(slot, h.picks, prefs) &&
                  (slot < |(if clienttag == War3 then war3 else w3xp).QueueMaps(queue)| ==>
                   mapname == Some((if clienttag == War3 then war3 else w3xp).QueueMaps(queue)[slot]))
      ensures |h.picks| == NeedHere() && Teams() == 0 ==> players == |h.picks| && Descending(player[..players])
      ensures |h.picks| == NeedHere() ==>
                h.maps != {} && Completed(Enqueued(old(lists), leader, prefs), h, env, war3, w3xp, clienttag)
      ensures WellQueued(old(lists)) && !Waiting(old(lists), leader) ==>
                && WellQueued(lists) && DistinctConns(h.picks)
                && lists == AfterHunt(Enqueued(old(lists), leader, prefs), h, NeedHere())
      ensures queue == ONE_ON_ONE && leader == c && WellQueued(old(lists)) && Saturated(old(lists), env.diff) ==>
                if !Waiting(old(lists), c) then Saturated(lists, env.diff)
                else WithSelf(h.picks, c) ==> lists == Without(old(lists), {c})
    {
      ghost var before := lists;
      Sizes();
      EnqueuedPlaced(before, leader, prefs);
      HuntLaws(Enqueued(before, leader, prefs), c, prefs, NeedHere(), env.diff);
      AfterSearch(before, leader, c, prefs, NeedHere(), env.diff);
      h := QueueAndMatch(leader, c, prefs, env, war3, w3xp, clienttag);
      if |h.picks| == NeedHere() {
        CompletedLaws(h, prefs, env, war3, w3xp, clienttag);
      }
    }

    lemma Exhausted(h: Hunt, delta: int, c: Conn, diff: nat, goal: Hunt)
      requires Valid() && 0 <= c.level && c.level + diff < MAX_LEVEL && Ahead(h, delta, c, diff, goal)
      requires Abs(delta) >= diff + 1 || c.level + delta < 0
      ensures h == goal
    {
    }

    /** One round of the sweep: the level's own list, skipped when the window excludes it, and the rest. */
    lemma NextLevel(h: Hunt, delta: int, c: Conn, diff: nat, goal: Hunt)
      requires Valid() && 0 <= c.level && c.level + diff < MAX_LEVEL && Abs(delta) < diff + 1 && 0 <= c.level + delta
      requires |h.picks| < NeedHere() && Ahead(h, delta, c, diff, goal)
      ensures c.level + delta < MAX_LEVEL
      ensures var g := if h.lo <= c.level + delta <= h.hi
                       then Greedy(h, lists[c.level + delta], NeedHere(), c.tag, diff) else h;
              Ahead(g, Step(c.level, delta), c, diff, goal) && (|g.picks| == NeedHere() ==> g == goal)
    {
      var l := c.level + delta;
      var rest := Sweep(c.level, diff, Step(c.level, delta));
      assert Sweep(c.level, diff, delta) == [l] + rest;
      assert Sweep(c.level, diff, delta)[1..] == rest;
      forall i | 0 <= i < |rest|
        ensures 0 <= rest[i] < |lists|
      {
        assert Sweep(c.level, diff, delta)[i + 1] == rest[i];
      }
      GreedyConcat(h, lists[l], Candidates(lists, rest), NeedHere(), c.tag, diff);
      if !(h.lo <= l <= h.hi) {
        GreedySkips(h, lists[l], [], NeedHere(), c.tag, diff);
        assert lists[l] + [] == lists[l];
      }
    }
  }

  lemma {:induction false} GreedyMaps(h: Hunt, cands: seq<Entry>, need: nat, tag: Option<string>, diff: nat)
    requires h.picks != [] ==> h.maps != {}
    ensures var g := Greedy(h, cands, need, tag, diff); g.picks != [] ==> g.maps != {}
    decreases |cands|
  {
    if |h.picks| == need || cands == [] {
    } else {
      GreedyMaps(if Accepts(h, tag, cands[0]) then Take(h, diff, cands[0]) else h, cands[1..], need, tag, diff);
    }
  }

  /** What the picks of a search are, and what they have in common. */
  lemma HuntLaws(queued: Lists, c: Conn, prefs: Mask, need: nat, diff: nat)
    requires Placed(queued) && 0 <= c.level && c.level + diff < MAX_LEVEL && 0 < need
    ensures var h := HuntAll(queued, c.level, prefs, need, c.tag, diff);
            && Suited(h, c.level, prefs, c.tag, diff) && (|h.picks| == need ==> h.maps != {})
            && (forall slot: int :: slot in h.maps <==> AskedByAll(slot, h.picks, prefs))
            && exists ks :: FirstServed(Candidates(queued, SweepLevels(c.level, diff)), ks,
                                        h.picks, need, c.level, prefs, c.tag, diff)
  {
    MatchIsSuited(queued, c.level, prefs, need, c.tag, diff);
    MapsAskedByAll(queued, c.level, prefs, need, c.tag, diff);
    var ks := SearchServes(queued, c.level, prefs, need, c.tag, diff);
  }

  /** What a search leaves behind when nobody waited twice before. */
  lemma AfterSearch(before: Lists, leader: Conn, c: Conn, prefs: Mask, need: nat, diff: nat)
    requires |before| == MAX_LEVEL && 0 <= leader.level < MAX_LEVEL && 0 <= c.level && c.level + diff < MAX_LEVEL && 0 < need
    ensures var queued := Enqueued(before, leader, prefs);
            var h := HuntAll(queued, c.level, prefs, need, c.tag, diff);
            var after := TakenOut(queued, h, need);
            && (WellQueued(before) && !Waiting(before, leader) ==>
                  WellQueued(after) && DistinctConns(h.picks) && after == AfterHunt(queued, h, need))
            && (need == PAIR && leader == c && WellQueued(before) && Saturated(before, diff) ==>
                  if !Waiting(before, c) then Saturated(after, diff)
                  else WithSelf(h.picks, c) ==> after == Without(before, {c}))
  {
    var h := HuntAll(Enqueued(before, leader, prefs), c.level, prefs, need, c.tag, diff);
    if WellQueued(before) && !Waiting(before, leader) {
      FirstSearch(before, leader, c, prefs, need, diff, h);
    }
    if need == PAIR && leader == c && WellQueued(before) && Saturated(before, diff) {
      if !Waiting(before, c) {
        SearchKeepsSaturated(before, c, prefs, diff);
      } else if WithSelf(h.picks, c) {
        SelfMatchLeaves(before, c, prefs, h);
      }
    }
  }

  lemma FirstSearch(before: Lists, leader: Conn, c: Conn, prefs: Mask, need: nat, diff: nat, h: Hunt)
    requires WellQueued(before) && !Waiting(before, leader) && 0 <= leader.level < MAX_LEVEL
    requires 0 <= c.level && c.level + diff < MAX_LEVEL && 0 < need
    requires h == HuntAll(Enqueued(before, leader, prefs), c.level, prefs, need, c.tag, diff)
    ensures var queued := Enqueued(before, leader, prefs);
            && DistinctConns(h.picks) && TakenOut(queued, h, need) == AfterHunt(queued, h, need)
            && WellQueued(AfterHunt(queued, h, need))
  {
    var queued := Enqueued(before, leader, prefs);
    EnqueuedWellQueued(before, leader, prefs);
    MatchIsFair(queued, c.level, prefs, need, c.tag, diff);
    TakenOutIsAfterHunt(queued, h, need);
    MatchLeavesRest(queued, c.level, prefs, need, c.tag, diff);
  }

  lemma SelfMatchLeaves(before: Lists, c: Conn, prefs: Mask, h: Hunt)
    requires WellQueued(before) && Waiting(before, c) && 0 <= c.level < MAX_LEVEL && WithSelf(h.picks, c)
    ensures TakenOut(Enqueued(before, c, prefs), h, PAIR) == Without(before, {c})
  {
    assert ConnSeq(h.picks) == [c, c];
    TwiceQueuedGone(before, c, prefs);
  }

  lemma SeatsApart(teams: nat, count: nat, t: nat, i: nat)
    requires t < teams && i < count
    ensures Seat(teams, t, i) < teams * count
    ensures forall u: nat, k: nat :: u < teams && k < count && (u != t || k != i) ==> Seat(teams, u, k) != Seat(teams, t, i)
  {
    SeatOfPlayer(teams, count, t, i);
    forall u: nat, k: nat | u < teams && k < count && (u != t || k != i)
      ensures Seat(teams, u, k) != Seat(teams, t, i)
    {
      SeatOfPlayer(teams, count, u, k);
    }
  }
}
