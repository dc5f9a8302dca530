/** The 1v1 queue over whole runs: no two waiting players are ever compatible, and a search that has a
    compatible waiter is always paired with the best one (anongame.cpp:516-543, 804-907, 1054-1106). */
module OneOnOne {
  import opened Common
  import opened LevelSweep
  import opened MapMask
  import opened Matchmaking

  const PAIR := 2

  ghost predicate Compatible(a: Entry, b: Entry, diff: nat) {
    && a.tag.Some? && a.tag == b.tag
    && Slots(a.prefs) * Slots(b.prefs) != {}
    && Abs(a.c.level - b.c.level) <= diff
  }

  ghost predicate Waits(lists: Lists, e: Entry) {
    0 <= e.c.level < |lists| && e in lists[e.c.level]
  }

  ghost predicate Saturated(lists: Lists, diff: nat) {
    forall e, f :: Waits(lists, e) && Waits(lists, f) && e.c != f.c ==> !Compatible(e, f, diff)
  }

  // ---------- the first compatible candidate ----------

  /** Index of the first candidate compatible with `e`, or the number of candidates. */
  ghost function First(cands: seq<Entry>, e: Entry, diff: nat): (k: nat)
    ensures k <= |cands|
    ensures k < |cands| ==> Compatible(cands[k], e, diff)
    ensures forall j :: 0 <= j < k ==> !Compatible(cands[j], e, diff)
  {
    if cands == [] || Compatible(cands[0], e, diff) then 0 else 1 + First(cands[1..], e, diff)
  }

  lemma {:induction false} FirstConcat(a: seq<Entry>, b: seq<Entry>, e: Entry, diff: nat)
    ensures First(a + b, e, diff) == if First(a, e, diff) < |a| then First(a, e, diff) else |a| + First(b, e, diff)
  {
    if a == [] {
      assert a + b == b;
    } else if !Compatible(a[0], e, diff) {
      assert (a + b)[1..] == a[1..] + b;
      FirstConcat(a[1..], b, e, diff);
    }
  }

  /** `w` waits at position i of its list and no compatible waiter is nearer, as near on a higher level,
      or queued earlier on the same level. */
  ghost predicate Best(lists: Lists, e: Entry, diff: nat, w: Entry, i: nat) {
    && Waits(lists, w) && i < |lists[w.c.level]| && lists[w.c.level][i] == w
    && Compatible(w, e, diff)
    && forall l, j :: 0 <= l < |lists| && 0 <= j < |lists[l]| && Compatible(lists[l][j], e, diff) ==>
         Before(e.c.level, w.c.level, l) || (l == w.c.level && i <= j)
  }

  /** The first compatible candidate in a sweep over `levels`: where it waits and what it precedes. */
  lemma {:induction false} FirstPlace(lists: Lists, levels: seq<int>, e: Entry, diff: nat) returns (i: nat)
    requires WellQueued(lists) && Rows(lists, levels) && Sorted(e.c.level, levels)
    requires First(Candidates(lists, levels), e, diff) < |Candidates(lists, levels)|
    ensures var w := Candidates(lists, levels)[First(Candidates(lists, levels), e, diff)];
            && Waits(lists, w) && w.c.level in levels && i < |lists[w.c.level]| && lists[w.c.level][i] == w
            && forall l, j :: l in levels && 0 <= j < |lists[l]| && Compatible(lists[l][j], e, diff) ==>
                 Before(e.c.level, w.c.level, l) || (l == w.c.level && i <= j)
  {
    var own, rest := lists[levels[0]], Candidates(lists, levels[1..]);
    var all := Candidates(lists, levels);
    assert all == own + rest;
    var k := First(all, e, diff);
    FirstConcat(own, rest, e, diff);
    if k < |own| {
      i := k;
      assert own[k] == all[k] && own[k].c.level == levels[0];
    } else {
      i := FirstPlace(lists, levels[1..], e, diff);
      assert all[k] == rest[k - |own|];
    }
  }

  // ---------- the greedy match with need == 2 ----------

  lemma {:induction false} GreedyTakes(h: Hunt, skip: seq<Entry>, e: Entry, rest: seq<Entry>, need: nat, tag: Option<string>, diff: nat)
    requires forall i :: 0 <= i < |skip| ==> !Accepts(h, tag, skip[i])
    requires Accepts(h, tag, e) && |h.picks| != need
    ensures Greedy(h, skip + [e] + rest, need, tag, diff) == Greedy(Take(h, diff, e), rest, need, tag, diff)
  {
    assert skip + [e] + rest == skip + ([e] + rest);
    GreedySkips(h, skip, [e] + rest, need, tag, diff);
    assert ([e] + rest)[1..] == rest;
  }

  /** The candidates of the lists with `e` queued are the old ones with `e` behind its own level. */
  lemma {:induction false} CandidatesFrame(a: Lists, b: Lists, levels: seq<int>)
    requires |a| == |b| && Rows(a, levels)
    requires forall i :: 0 <= i < |levels| ==> a[levels[i]] == b[levels[i]]
    ensures Candidates(a, levels) == Candidates(b, levels)
  {
    if levels == [] {
    } else {
      CandidatesFrame(a, b, levels[1..]);
    }
  }

  ghost predicate AllNear(cands: seq<Entry>, level: int, diff: nat) {
    forall i :: 0 <= i < |cands| ==> Max(0, level - diff) <= cands[i].c.level <= level + diff
  }

  /** The opening hunt, also after the searcher itself was picked, accepts exactly what is compatible. */
  lemma AcceptsCompatible(h: Hunt, e: Entry, f: Entry, diff: nat)
    requires h.lo == Max(0, e.c.level - diff) && h.hi == e.c.level + diff && h.maps == Slots(e.prefs)
    requires Max(0, e.c.level - diff) <= f.c.level <= e.c.level + diff
    ensures Accepts(h, e.tag, f) <==> Compatible(f, e, diff)
  {
  }

  /** Behind the first pick `w` nobody else of its own level is suitable, so the searcher is next. */
  lemma SearcherIsNext(h: Hunt, w: Entry, after: seq<Entry>, e: Entry, rest: seq<Entry>, diff: nat)
    requires h.picks == [] && Accepts(h, e.tag, w) && h.maps == Slots(e.prefs) && 0 <= e.c.level == w.c.level
    requires h.lo == Max(0, e.c.level - diff) && h.hi == e.c.level + diff
    requires forall i :: 0 <= i < |after| ==> after[i].c.level == w.c.level && !Compatible(w, after[i], diff)
    ensures Greedy(Take(h, diff, w), after + [e] + rest, PAIR, e.tag, diff).picks == [w, e]
  {
    var h1 := Take(h, diff, w);
    forall i | 0 <= i < |after|
      ensures !Accepts(h1, e.tag, after[i])
    {
      assert !Compatible(w, after[i], diff);
    }
    GreedyTakes(h1, after, e, rest, PAIR, e.tag, diff);
  }

  lemma Around(own: seq<Entry>, k: nat, e: Entry, rest: seq<Entry>)
    requires k < |own|
    ensures own + [e] + rest == own[..k] + [own[k]] + (own[k + 1..] + [e] + rest)
  {
  }

  /** A waiter on the searcher's own level is found before the searcher, who is then picked second. */
  lemma PairOnOwnLevel(own: seq<Entry>, e: Entry, rest: seq<Entry>, diff: nat)
    requires AllNear(own, e.c.level, diff) && 0 <= e.c.level
    requires forall i :: 0 <= i < |own| ==> own[i].c.level == e.c.level
    requires forall i, j :: 0 <= i < j < |own| ==> !Compatible(own[i], own[j], diff)
    requires First(own, e, diff) < |own|
    ensures Greedy(Opening(e.c.level, e.prefs, diff), own + [e] + rest, PAIR, e.tag, diff).picks
            == [own[First(own, e, diff)], e]
  {
    var h := Opening(e.c.level, e.prefs, diff);
    var k := First(own, e, diff);
    var after := own[k + 1..];
    forall i | 0 <= i <= k
      ensures Accepts(h, e.tag, own[i]) <==> i == k
    {
      AcceptsCompatible(h, e, own[i], diff);
    }
    Around(own, k, e, rest);
    GreedyTakes(h, own[..k], own[k], after + [e] + rest, PAIR, e.tag, diff);
    SearcherIsNext(h, own[k], after, e, rest, diff);
  }

  /** The searcher was picked first; its partner is the first compatible candidate. */
  lemma PartnerIsNext(h: Hunt, e: Entry, rest: seq<Entry>, diff: nat)
    requires h.lo == Max(0, e.c.level - diff) && h.hi == e.c.level + diff && h.maps == Slots(e.prefs) && h.picks == [e]
    requires AllNear(rest, e.c.level, diff)
    ensures var picks := Greedy(h, rest, PAIR, e.tag, diff).picks;
            var k := First(rest, e, diff);
            if k < |rest| then picks == [e, rest[k]] else |picks| < PAIR
  {
    var k := First(rest, e, diff);
    forall i | 0 <= i < |rest| && i <= k
      ensures Accepts(h, e.tag, rest[i]) <==> i == k
    {
      AcceptsCompatible(h, e, rest[i], diff);
    }
    if k < |rest| {
      assert rest == rest[..k] + [rest[k]] + rest[k + 1..];
      GreedyTakes(h, rest[..k], rest[k], rest[k + 1..], PAIR, e.tag, diff);
    } else {
      assert rest == rest + [];
      GreedySkips(h, rest, [], PAIR, e.tag, diff);
    }
  }

  /** Nobody can be picked. */
  lemma NobodyPicked(h: Hunt, own: seq<Entry>, e: Entry, rest: seq<Entry>, diff: nat)
    requires h.picks == [] && !Accepts(h, e.tag, e)
    requires forall i :: 0 <= i < |own| ==> !Accepts(h, e.tag, own[i])
    requires forall i :: 0 <= i < |rest| ==> !Accepts(h, e.tag, rest[i])
    ensures Greedy(h, own + [e] + rest, PAIR, e.tag, diff).picks == []
  {
    var none := own + [e] + rest;
    forall i | 0 <= i < |none|
      ensures !Accepts(h, e.tag, none[i])
    {
      if |own| < i {
        assert none[i] == rest[i - |own| - 1];
      }
    }
    assert none == none + [];
    GreedySkips(h, none, [], PAIR, e.tag, diff);
  }

  /** The searcher cannot be picked exactly when it has no tag or no map, and then it suits nobody. */
  lemma UnpickedSuitsNobody(h: Hunt, e: Entry, f: Entry, diff: nat)
    requires h.lo == Max(0, e.c.level - diff) && h.hi == e.c.level + diff && h.maps == Slots(e.prefs)
    requires 0 <= e.c.level && !Accepts(h, e.tag, e)
    ensures !Accepts(h, e.tag, f) && !Compatible(f, e, diff)
  {
    AcceptsCompatible(h, e, e, diff);
  }

  /** With nobody suitable on its own level the searcher is picked first (if it can be picked at all)
      and then the first compatible candidate of the other levels. */
  lemma PairElsewhere(own: seq<Entry>, e: Entry, rest: seq<Entry>, diff: nat)
    requires AllNear(own, e.c.level, diff) && AllNear(rest, e.c.level, diff) && 0 <= e.c.level
    requires First(own, e, diff) == |own|
    ensures var picks := Greedy(Opening(e.c.level, e.prefs, diff), own + [e] + rest, PAIR, e.tag, diff).picks;
            var k := First(rest, e, diff);
            if k < |rest| then picks == [e, rest[k]] else |picks| < PAIR
  {
    var h := Opening(e.c.level, e.prefs, diff);
    forall i | 0 <= i < |own|
      ensures !Accepts(h, e.tag, own[i])
    {
      AcceptsCompatible(h, e, own[i], diff);
    }
    if Accepts(h, e.tag, e) {
      GreedyTakes(h, own, e, rest, PAIR, e.tag, diff);
      PartnerIsNext(Take(h, diff, e), e, rest, diff);
    } else {
      forall f: Entry
        ensures !Accepts(h, e.tag, f) && !Compatible(f, e, diff)
      {
        UnpickedSuitsNobody(h, e, f, diff);
      }
      NobodyPicked(h, own, e, rest, diff);
    }
  }

  lemma SweepTail(level: int, diff: nat)
    requires 0 <= level && level + diff < MAX_LEVEL
    ensures forall j :: 1 <= j < |SweepLevels(level, diff)| ==> SweepLevels(level, diff)[j] != level
    ensures NoRepeat(SweepLevels(level, diff)[1..])
    ensures forall l :: l in SweepLevels(level, diff)[1..] ==> Max(0, level - diff) <= l <= level + diff
  {
    SweepVisits(level, diff);
    assert forall l :: l in SweepLevels(level, diff)[1..] ==> l in SweepLevels(level, diff);
  }

  lemma CandidatesNear(lists: Lists, levels: seq<int>, level: int, diff: nat)
    requires WellQueued(lists) && Rows(lists, levels) && NoRepeat(levels)
    requires forall l :: l in levels ==> Max(0, level - diff) <= l <= level + diff
    ensures AllNear(Candidates(lists, levels), level, diff)
  {
    CandidatesDistinct(lists, levels);
    var cands := Candidates(lists, levels);
    forall j | 0 <= j < |cands|
      ensures cands[j].c.level in levels
    {
      assert cands[j] in cands;
    }
  }

  /** The candidate order of the old lists, seen from the searcher: its own level, then the rest. */
  lemma SplitCandidates(lists: Lists, c: Conn, prefs: Mask, diff: nat) returns (rest: seq<Entry>)
    requires WellQueued(lists) && 0 <= c.level && c.level + diff < MAX_LEVEL
    ensures Candidates(lists, SweepLevels(c.level, diff)) == lists[c.level] + rest
    ensures Candidates(Enqueued(lists, c, prefs), SweepLevels(c.level, diff))
            == lists[c.level] + [Entry(c, prefs, c.tag)] + rest
    ensures AllNear(rest, c.level, diff)
  {
    var levels := SweepLevels(c.level, diff);
    var tail := levels[1..];
    SweepTail(c.level, diff);
    CandidatesNear(lists, tail, c.level, diff);
    rest := Candidates(lists, tail);
    assert forall j :: 0 <= j < |tail| ==> tail[j] == levels[j + 1];
    CandidatesFrame(lists, Enqueued(lists, c, prefs), tail);
  }

  /** Two entries of one saturated list do not suit each other. */
  lemma OwnLevelSaturated(lists: Lists, level: int, diff: nat)
    requires WellQueued(lists) && Saturated(lists, diff) && 0 <= level < |lists|
    ensures var own := lists[level];
            && AllNear(own, level, diff) && (forall i :: 0 <= i < |own| ==> own[i].c.level == level)
            && forall i, j :: 0 <= i < j < |own| ==> !Compatible(own[i], own[j], diff)
  {
    var own := lists[level];
    forall i, j | 0 <= i < j < |own|
      ensures !Compatible(own[i], own[j], diff)
    {
      assert Waits(lists, own[i]) && Waits(lists, own[j]);
    }
  }

  lemma PairsFirst(own: seq<Entry>, e: Entry, rest: seq<Entry>, diff: nat)
    requires AllNear(own, e.c.level, diff) && AllNear(rest, e.c.level, diff) && 0 <= e.c.level
    requires forall i :: 0 <= i < |own| ==> own[i].c.level == e.c.level
    requires forall i, j :: 0 <= i < j < |own| ==> !Compatible(own[i], own[j], diff)
    ensures var picks := Greedy(Opening(e.c.level, e.prefs, diff), own + [e] + rest, PAIR, e.tag, diff).picks;
            var k := First(own + rest, e, diff);
            if k < |own + rest| then picks == [(own + rest)[k], e] || picks == [e, (own + rest)[k]] else |picks| < PAIR
  {
    FirstConcat(own, rest, e, diff);
    if First(own, e, diff) < |own| {
      PairOnOwnLevel(own, e, rest, diff);
    } else {
      PairElsewhere(own, e, rest, diff);
    }
  }

  /** The first compatible candidate is picked together with the searcher; without one there is no match. */
  lemma SearchPairsFirst(lists: Lists, c: Conn, prefs: Mask, diff: nat)
    requires WellQueued(lists) && Saturated(lists, diff) && 0 <= c.level && c.level + diff < MAX_LEVEL
    ensures var e := Entry(c, prefs, c.tag);
            var picks := HuntAll(Enqueued(lists, c, prefs), c.level, prefs, PAIR, c.tag, diff).picks;
            var cands := Candidates(lists, SweepLevels(c.level, diff));
            var k := First(cands, e, diff);
            if k < |cands| then picks == [cands[k], e] || picks == [e, cands[k]] else |picks| < PAIR
  {
    var rest := SplitCandidates(lists, c, prefs, diff);
    OwnLevelSaturated(lists, c.level, diff);
    PairsFirst(lists[c.level], Entry(c, prefs, c.tag), rest, diff);
  }

  /** The first compatible candidate is the best compatible waiter, and there is one if anyone waits. */
  lemma FirstIsBest(lists: Lists, e: Entry, diff: nat) returns (i: nat)
    requires WellQueued(lists) && 0 <= e.c.level && e.c.level + diff < MAX_LEVEL
    ensures var cands := Candidates(lists, SweepLevels(e.c.level, diff));
            var k := First(cands, e, diff);
            && (k < |cands| ==> Best(lists, e, diff, cands[k], i))
            && (k == |cands| ==> forall f :: Waits(lists, f) ==> !Compatible(f, e, diff))
  {
    var levels := SweepLevels(e.c.level, diff);
    var cands := Candidates(lists, levels);
    var k := First(cands, e, diff);
    SweepVisits(e.c.level, diff);
    i := 0;
    if k < |cands| {
      i := FirstPlace(lists, levels, e, diff);
      forall l, j | 0 <= l < |lists| && 0 <= j < |lists[l]| && Compatible(lists[l][j], e, diff)
        ensures l in levels
      {
        assert InReach(e.c.level, diff, l);
      }
    } else {
      forall f | Waits(lists, f)
        ensures !Compatible(f, e, diff)
      {
        if InReach(e.c.level, diff, f.c.level) {
          InCandidates(lists, levels, f);
          var x :| 0 <= x < |cands| && cands[x] == f;
        }
      }
    }
  }

  /** What a search by `c` does to saturated lists: it is paired with `w`, the best compatible waiter at
      place `i`, exactly when there is a compatible waiter at all. */
  lemma SearchPairsBest(lists: Lists, c: Conn, prefs: Mask, diff: nat) returns (w: Entry, i: nat)
    requires WellQueued(lists) && Saturated(lists, diff) && 0 <= c.level && c.level + diff < MAX_LEVEL
    ensures var e := Entry(c, prefs, c.tag);
            var picks := HuntAll(Enqueued(lists, c, prefs), c.level, prefs, PAIR, c.tag, diff).picks;
            if exists f :: Waits(lists, f) && Compatible(f, e, diff)
            then Best(lists, e, diff, w, i) && (picks == [w, e] || picks == [e, w])
            else |picks| < PAIR
  {
    var e := Entry(c, prefs, c.tag);
    SearchPairsFirst(lists, c, prefs, diff);
    i := FirstIsBest(lists, e, diff);
    var cands := Candidates(lists, SweepLevels(c.level, diff));
    var k := First(cands, e, diff);
    w := if k < |cands| then cands[k] else e;
  }

  lemma {:induction false} InCandidates(lists: Lists, levels: seq<int>, f: Entry)
    requires Rows(lists, levels) && Waits(lists, f) && f.c.level in levels
    ensures f in Candidates(lists, levels)
  {
    if f.c.level != levels[0] {
      InCandidates(lists, levels[1..], f);
    }
  }

  /** The match is complete and nobody but `c` is in it. */
  predicate WithSelf(picks: seq<Entry>, c: Conn) {
    |picks| == PAIR && forall i :: 0 <= i < |picks| ==> picks[i].c == c
  }

  /** The code does not stop a waiting player from searching again. That search matches it with its own old entry,
      the k-th of its level, exactly when the two entries are compatible (the maps may have changed) and nobody
      who is compatible stands before it on that level. */
  lemma RepeatedSearchIff(lists: Lists, c: Conn, prefs: Mask, diff: nat, k: nat)
    requires WellQueued(lists) && Saturated(lists, diff) && 0 <= c.level && c.level + diff < MAX_LEVEL
    requires k < |lists[c.level]| && lists[c.level][k].c == c
    ensures var e, own := Entry(c, prefs, c.tag), lists[c.level];
            var picks := HuntAll(Enqueued(lists, c, prefs), c.level, prefs, PAIR, c.tag, diff).picks;
            WithSelf(picks, c) <==> Compatible(own[k], e, diff) && forall j :: 0 <= j < k ==> !Compatible(own[j], e, diff)
  {
    var e, own := Entry(c, prefs, c.tag), lists[c.level];
    var picks := HuntAll(Enqueued(lists, c, prefs), c.level, prefs, PAIR, c.tag, diff).picks;
    var w, i := SearchPairsBest(lists, c, prefs, diff);
    if exists f :: Waits(lists, f) && Compatible(f, e, diff) {
      assert w == picks[0] || w == picks[1];
      if Compatible(own[k], e, diff) {
        assert Before(c.level, w.c.level, c.level) || (w.c.level == c.level && i <= k);
      }
      if w.c == c {
        assert i == k;
      }
    } else {
      assert Waits(lists, own[k]);
    }
  }

  /** A search with the same tag and maps always does: in saturated lists nobody else is compatible with the old entry. */
  lemma RepeatedSearchPairsWithSelf(lists: Lists, c: Conn, prefs: Mask, diff: nat)
    requires WellQueued(lists) && Saturated(lists, diff) && 0 <= c.level && c.level + diff < MAX_LEVEL
    requires Waits(lists, Entry(c, prefs, c.tag)) && c.tag.Some? && prefs != 0
    ensures WithSelf(HuntAll(Enqueued(lists, c, prefs), c.level, prefs, PAIR, c.tag, diff).picks, c)
  {
    var e, own := Entry(c, prefs, c.tag), lists[c.level];
    var k :| 0 <= k < |own| && own[k] == e;
    forall j | 0 <= j < k
      ensures !Compatible(own[j], e, diff)
    {
      assert own[j].c != own[k].c && Waits(lists, own[j]);
    }
    RepeatedSearchIff(lists, c, prefs, diff, k);
  }

  lemma SearchKeepsSaturated(lists: Lists, c: Conn, prefs: Mask, diff: nat)
    requires WellQueued(lists) && Saturated(lists, diff)
    requires 0 <= c.level && c.level + diff < MAX_LEVEL && !Waiting(lists, c)
    ensures WellQueued(Searched(lists, c, prefs, PAIR, diff))
    ensures Saturated(Searched(lists, c, prefs, PAIR, diff), diff)
  {
    var e := Entry(c, prefs, c.tag);
    var queued := Enqueued(lists, c, prefs);
    var h := HuntAll(queued, c.level, prefs, PAIR, c.tag, diff);
    var after := Searched(lists, c, prefs, PAIR, diff);
    EnqueuedWellQueued(lists, c, prefs);
    MatchLeavesRest(queued, c.level, prefs, PAIR, c.tag, diff);
    var w, i := SearchPairsBest(lists, c, prefs, diff);
    forall f, g | Waits(after, f) && Waits(after, g) && f.c != g.c
      ensures !Compatible(f, g, diff)
    {
      assert Waits(queued, f) && Waits(queued, g);
      assert (Waits(lists, f) || f == e) && (Waits(lists, g) || g == e);
      if |h.picks| == PAIR {
        assert h.picks[0] == e || h.picks[1] == e;
        assert c in Conns(h.picks);
      }
    }
  }

  lemma LeaveKeepsSaturated(lists: Lists, c: Conn, diff: nat)
    requires WellQueued(lists) && Saturated(lists, diff)
    ensures WellQueued(Without(lists, {c})) && Saturated(Without(lists, {c}), diff)
  {
    WithoutWellQueued(lists, {c});
    forall f | Waits(Without(lists, {c}), f)
      ensures Waits(lists, f)
    {
    }
  }

  // ---------- whole runs ----------

  datatype Op = Search(c: Conn, prefs: Mask) | Leave(c: Conn)

  function Apply(lists: Lists, op: Op, diff: nat): (r: Lists)
    requires |lists| == MAX_LEVEL
    requires op.Search? ==> 0 <= op.c.level && op.c.level + diff < MAX_LEVEL
    ensures |r| == MAX_LEVEL
  {
    match op
    case Search(c, prefs) => Searched(lists, c, prefs, PAIR, diff)
    case Leave(c) => Without(lists, {c})
  }

  /** A run in which nobody searches while still queued and every searcher's window fits the array. */
  ghost predicate Legal(lists: Lists, ops: seq<Op>, diff: nat)
    requires |lists| == MAX_LEVEL
    decreases |ops|
  {
    ops != [] ==>
      && (ops[0].Search? ==>
            0 <= ops[0].c.level && ops[0].c.level + diff < MAX_LEVEL && !Waiting(lists, ops[0].c))
      && Legal(Apply(lists, ops[0], diff), ops[1..], diff)
  }

  ghost function Run(lists: Lists, ops: seq<Op>, diff: nat): (r: Lists)
    requires |lists| == MAX_LEVEL && Legal(lists, ops, diff)
    ensures |r| == MAX_LEVEL
    decreases |ops|
  {
    if ops == [] then lists else Run(Apply(lists, ops[0], diff), ops[1..], diff)
  }

  /** Any run may go on with anybody leaving, and with a search exactly when the searcher is not waiting and its window
      fits. */
  lemma {:induction false} LegalExtends(lists: Lists, ops: seq<Op>, op: Op, diff: nat)
    requires |lists| == MAX_LEVEL
    ensures Legal(lists, ops + [op], diff) <==>
            (&& Legal(lists, ops, diff)
             && (op.Search? ==> 0 <= op.c.level && op.c.level + diff < MAX_LEVEL && !Waiting(Run(lists, ops, diff), op.c)))
    ensures Legal(lists, ops + [op], diff) ==> Run(lists, ops + [op], diff) == Apply(Run(lists, ops, diff), op, diff)
    decreases |ops|
  {
    var all := ops + [op];
    if ops == [] {
      assert all[0] == op && all[1..] == [];
    } else {
      assert all[0] == ops[0] && all[1..] == ops[1..] + [op];
      if ops[0].Search? ==> 0 <= ops[0].c.level && ops[0].c.level + diff < MAX_LEVEL && !Waiting(lists, ops[0].c) {
        LegalExtends(Apply(lists, ops[0], diff), ops[1..], op, diff);
      }
    }
  }

  lemma {:induction false} RunStaysSaturated(lists: Lists, ops: seq<Op>, diff: nat)
    requires WellQueued(lists) && Saturated(lists, diff) && Legal(lists, ops, diff)
    ensures WellQueued(Run(lists, ops, diff)) && Saturated(Run(lists, ops, diff), diff)
    decreases |ops|
  {
    if ops == [] {
    } else {
      match ops[0] {
        case Search(c, prefs) => SearchKeepsSaturated(lists, c, prefs, diff);
        case Leave(c) => LeaveKeepsSaturated(lists, c, diff);
      }
      RunStaysSaturated(Apply(lists, ops[0], diff), ops[1..], diff);
    }
  }

  function EmptyLists(): Lists {
    seq(MAX_LEVEL, _ => [])
  }

  /** On every run of searches and leaves from the start of the server, no two waiting players could
      have been matched with each other. */
  lemma NoCompatiblePairEverWaits(ops: seq<Op>, diff: nat, e: Entry, f: Entry)
    requires Legal(EmptyLists(), ops, diff)
    requires Waits(Run(EmptyLists(), ops, diff), e) && Waits(Run(EmptyLists(), ops, diff), f) && e.c != f.c
    ensures !Compatible(e, f, diff)
  {
    RunStaysSaturated(EmptyLists(), ops, diff);
  }
}
