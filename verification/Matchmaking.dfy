/** The anonymous-game waiting lists of one queue and the greedy match a search performs on them
    (src/bnetd/anongame.cpp:516-543, 804-907, 1054-1106), as functions on values. `MatchQueue` holds
    the imperative code and proves it against these. */
module Matchmaking {
  import opened Common
  import opened LevelSweep
  import opened MapMask

  /** A connection as the matchmaker sees it: the level it has in this queue and its version-check tag
      (None when it has not passed the version check). */
  datatype Conn = Conn(id: int, level: int, tag: Option<string>)

  /** t_matchdata: what is queued for a connection. */
  datatype Entry = Entry(c: Conn, prefs: Mask, tag: Option<string>)

  type Lists = seq<seq<Entry>>

  /** Every connection waits in the list of its own level, and at most once. */
  ghost predicate WellQueued(lists: Lists) {
    && |lists| == MAX_LEVEL
    && (forall l, i :: 0 <= l < |lists| && 0 <= i < |lists[l]| ==> lists[l][i].c.level == l)
    && (forall l :: 0 <= l < |lists| ==> DistinctConns(lists[l]))
  }

  ghost predicate DistinctConns(es: seq<Entry>) {
    forall i, j :: 0 <= i < j < |es| ==> es[i].c != es[j].c
  }

  ghost predicate Waiting(lists: Lists, c: Conn) {
    exists l, i :: 0 <= l < |lists| && 0 <= i < |lists[l]| && lists[l][i].c == c
  }

  // ---------- queue and unqueue ----------

  function Enqueued(lists: Lists, c: Conn, prefs: Mask): Lists
    requires 0 <= c.level < |lists|
  {
    lists[c.level := lists[c.level] + [Entry(c, prefs, c.tag)]]
  }

  function Drop(es: seq<Entry>, gone: set<Conn>): (r: seq<Entry>)
    ensures forall e :: e in r <==> e in es && e.c !in gone
    ensures (forall e :: e in es ==> e.c !in gone) ==> r == es
  {
    if es == [] then []
    else if es[0].c in gone then Drop(es[1..], gone)
    else [es[0]] + Drop(es[1..], gone)
  }

  /** The lists without the given connections, the rest in their old order. */
  function Without(lists: Lists, gone: set<Conn>): (r: Lists)
    ensures |r| == |lists|
    ensures forall l :: 0 <= l < |lists| ==> r[l] == Drop(lists[l], gone)
  {
    seq(|lists|, l requires 0 <= l < |lists| => Drop(lists[l], gone))
  }

  lemma {:induction false} DropDrop(es: seq<Entry>, a: set<Conn>, b: set<Conn>)
    ensures Drop(Drop(es, a), b) == Drop(es, a + b)
  {
    if es == [] {
    } else {
      DropDrop(es[1..], a, b);
      if es[0].c !in a {
        assert Drop(es, a)[1..] == Drop(es[1..], a);
      }
    }
  }

  /** The others keep their order. */
  lemma {:induction false} DropConcat(a: seq<Entry>, b: seq<Entry>, gone: set<Conn>)
    ensures Drop(a + b, gone) == Drop(a, gone) + Drop(b, gone)
  {
    if a == [] {
      assert a + b == b;
    } else {
      assert (a + b)[1..] == a[1..] + b;
      DropConcat(a[1..], b, gone);
    }
  }

  lemma WithoutWithout(lists: Lists, a: set<Conn>, b: set<Conn>)
    ensures Without(Without(lists, a), b) == Without(lists, a + b)
  {
    forall l | 0 <= l < |lists|
      ensures Drop(Drop(lists[l], a), b) == Drop(lists[l], a + b)
    {
      DropDrop(lists[l], a, b);
    }
  }

  lemma {:induction false} DropDistinct(es: seq<Entry>, gone: set<Conn>)
    requires DistinctConns(es)
    ensures DistinctConns(Drop(es, gone))
  {
    if es == [] {
    } else {
      DropDistinct(es[1..], gone);
      var rest := Drop(es[1..], gone);
      forall j | 0 <= j < |rest|
        ensures rest[j].c != es[0].c
      {
        assert rest[j] in es[1..];
      }
    }
  }

  lemma WithoutWellQueued(lists: Lists, gone: set<Conn>)
    requires WellQueued(lists)
    ensures WellQueued(Without(lists, gone))
    ensures forall c :: Waiting(Without(lists, gone), c) <==> Waiting(lists, c) && c !in gone
  {
    var r := Without(lists, gone);
    forall l | 0 <= l < |r|
      ensures DistinctConns(r[l])
    {
      DropDistinct(lists[l], gone);
    }
    forall l, i | 0 <= l < |r| && 0 <= i < |r[l]|
      ensures r[l][i] in lists[l] && r[l][i].c.level == l && r[l][i].c !in gone
    {
      assert r[l][i] in Drop(lists[l], gone);
    }
    forall c | Waiting(lists, c) && c !in gone
      ensures Waiting(r, c)
    {
      var l, i :| 0 <= l < |lists| && 0 <= i < |lists[l]| && lists[l][i].c == c;
      assert lists[l][i] in Drop(lists[l], gone);
    }
  }

  lemma EnqueuedWellQueued(lists: Lists, c: Conn, prefs: Mask)
    requires WellQueued(lists) && 0 <= c.level < MAX_LEVEL && !Waiting(lists, c)
    ensures WellQueued(Enqueued(lists, c, prefs))
    ensures forall d :: Waiting(Enqueued(lists, c, prefs), d) <==> Waiting(lists, d) || d == c
  {
    var r := Enqueued(lists, c, prefs);
    forall l, i | 0 <= l < |lists| && 0 <= i < |lists[l]|
      ensures r[l][i] == lists[l][i]
    {
    }
    assert r[c.level][|lists[c.level]|].c == c;
  }

  // ---------- the greedy match ----------

  /** The state of a running match: the level window [lo, hi], the map slots every pick can still
      play (the bits of cur_prefs), and the picked entries. */
  datatype Hunt = Hunt(lo: int, hi: int, maps: set<int>, picks: seq<Entry>)

  predicate Accepts(h: Hunt, tag: Option<string>, e: Entry) {
    h.lo <= e.c.level <= h.hi && e.tag.Some? && tag.Some? && e.tag == tag && h.maps * Slots(e.prefs) != {}
  }

  function Take(h: Hunt, diff: nat, e: Entry): Hunt {
    Hunt(Max(h.lo, e.c.level - diff), Min(h.hi, e.c.level + diff), h.maps * Slots(e.prefs), h.picks + [e])
  }

  /** Offer the candidates in order until `need` of them are picked. */
  function Greedy(h: Hunt, cands: seq<Entry>, need: nat, tag: Option<string>, diff: nat): Hunt
    decreases |cands|
  {
    if |h.picks| == need || cands == [] then h
    else Greedy(if Accepts(h, tag, cands[0]) then Take(h, diff, cands[0]) else h, cands[1..], need, tag, diff)
  }

  lemma {:induction false} GreedySkips(h: Hunt, skip: seq<Entry>, rest: seq<Entry>, need: nat, tag: Option<string>, diff: nat)
    requires forall i :: 0 <= i < |skip| ==> !Accepts(h, tag, skip[i])
    ensures Greedy(h, skip + rest, need, tag, diff) == Greedy(h, rest, need, tag, diff)
  {
    if skip == [] {
      assert skip + rest == rest;
    } else {
      assert (skip + rest)[1..] == skip[1..] + rest;
      GreedySkips(h, skip[1..], rest, need, tag, diff);
    }
  }

  lemma {:induction false} GreedyConcat(h: Hunt, a: seq<Entry>, b: seq<Entry>, need: nat, tag: Option<string>, diff: nat)
    ensures Greedy(h, a + b, need, tag, diff) == Greedy(Greedy(h, a, need, tag, diff), b, need, tag, diff)
    decreases |a|
  {
    if |h.picks| == need {
    } else if a == [] {
      assert a + b == b;
    } else {
      assert (a + b)[1..] == a[1..] + b;
      GreedyConcat(if Accepts(h, tag, a[0]) then Take(h, diff, a[0]) else h, a[1..], b, need, tag, diff);
    }
  }

  ghost predicate Rows(lists: Lists, levels: seq<int>) {
    forall i :: 0 <= i < |levels| ==> 0 <= levels[i] < |lists|
  }

  function Candidates(lists: Lists, levels: seq<int>): (r: seq<Entry>)
    requires Rows(lists, levels)
    ensures forall e :: e in r ==> exists k :: 0 <= k < |levels| && e in lists[levels[k]]
  {
    if levels == [] then []
    else
      assert Rows(lists, levels[1..]);
      lists[levels[0]] + Candidates(lists, levels[1..])
  }

  function SweepLevels(level: int, diff: nat): (s: seq<int>)
    requires 0 <= level && level + diff < MAX_LEVEL
    ensures forall i :: 0 <= i < |s| ==> 0 <= s[i] < MAX_LEVEL
    ensures |s| > 0 && s[0] == level
  {
    SweepInArray(level, diff);
    assert Sweep(level, diff, 0)[0] == level;
    var s := Sweep(level, diff, 0);
    assert forall i :: 0 <= i < |s| ==> s[i] in s;
    s
  }

  function Opening(level: int, prefs: Mask, diff: nat): Hunt {
    Hunt(Max(0, level - diff), level + diff, Slots(prefs), [])
  }

  /** The whole match of one search: `level` and `tag` are the searcher's, `prefs` its map choice. */
  function HuntAll(lists: Lists, level: int, prefs: Mask, need: nat, tag: Option<string>, diff: nat): Hunt
    requires |lists| == MAX_LEVEL && 0 <= level && level + diff < MAX_LEVEL
  {
    Greedy(Opening(level, prefs, diff), Candidates(lists, SweepLevels(level, diff)), need, tag, diff)
  }

  function Conns(es: seq<Entry>): (r: set<Conn>) {
    set i | 0 <= i < |es| :: es[i].c
  }

  function ConnSeq(es: seq<Entry>): (r: seq<Conn>)
    ensures |r| == |es| && forall i :: 0 <= i < |es| ==> r[i] == es[i].c
  {
    seq(|es|, i requires 0 <= i < |es| => es[i].c)
  }

  function Members(cs: seq<Conn>): (r: set<Conn>)
    ensures forall c :: c in r <==> c in cs
  {
    set c | c in cs
  }

  lemma ConnsOfSeq(es: seq<Entry>)
    ensures Conns(es) == Members(ConnSeq(es))
  {
    forall c | c in Conns(es)
      ensures c in ConnSeq(es)
    {
      var i :| 0 <= i < |es| && es[i].c == c;
      assert ConnSeq(es)[i] == c;
    }
  }

  function AfterHunt(lists: Lists, h: Hunt, need: nat): Lists {
    if |h.picks| == need then Without(lists, Conns(h.picks)) else lists
  }

  /** One search on a PG queue: queue the searcher, then try to match (anongame.cpp:503-506). */
  function Searched(lists: Lists, c: Conn, prefs: Mask, need: nat, diff: nat): Lists
    requires |lists| == MAX_LEVEL && 0 <= c.level && c.level + diff < MAX_LEVEL
  {
    var queued := Enqueued(lists, c, prefs);
    AfterHunt(queued, HuntAll(queued, c.level, prefs, need, c.tag, diff), need)
  }

  // ---------- what every match satisfies ----------

  /** The picks carry the searcher's tag and can all play the maps that are left. */
  ghost predicate SameMaps(h: Hunt, prefs: Mask, tag: Option<string>) {
    && h.maps <= Slots(prefs)
    && (h.picks != [] ==> h.maps != {})
    && forall e :: e in h.picks ==> e.tag == tag && tag.Some? && h.maps <= Slots(e.prefs)
  }

  /** The picks are near the searcher and each other, and so is every level the window still admits. */
  ghost predicate NearLevels(h: Hunt, level: int, diff: nat) {
    && level - diff <= h.lo && h.hi <= level + diff
    && (forall e :: e in h.picks ==>
          Abs(e.c.level - level) <= diff && h.hi <= e.c.level + diff && e.c.level - diff <= h.lo)
    && (forall e, f :: e in h.picks && f in h.picks ==> Abs(e.c.level - f.c.level) <= diff)
  }

  ghost predicate Suited(h: Hunt, level: int, prefs: Mask, tag: Option<string>, diff: nat) {
    SameMaps(h, prefs, tag) && NearLevels(h, level, diff)
  }

  lemma TakeSameMaps(h: Hunt, e: Entry, prefs: Mask, tag: Option<string>, diff: nat)
    requires SameMaps(h, prefs, tag) && Accepts(h, tag, e)
    ensures SameMaps(Take(h, diff, e), prefs, tag)
  {
    forall f | f in Take(h, diff, e).picks
      ensures f in h.picks || f == e
    {
    }
  }

  lemma TakeNearLevels(h: Hunt, e: Entry, level: int, tag: Option<string>, diff: nat)
    requires NearLevels(h, level, diff) && Accepts(h, tag, e)
    ensures NearLevels(Take(h, diff, e), level, diff)
  {
    var t := Take(h, diff, e);
    forall f, g | f in t.picks && g in t.picks
      ensures Abs(f.c.level - g.c.level) <= diff
    {
      assert f in h.picks || f == e;
      assert g in h.picks || g == e;
    }
  }

  lemma {:induction false} GreedySuited(h: Hunt, cands: seq<Entry>, need: nat, level: int, prefs: Mask, tag: Option<string>, diff: nat)
    requires Suited(h, level, prefs, tag, diff)
    ensures Suited(Greedy(h, cands, need, tag, diff), level, prefs, tag, diff)
    decreases |cands|
  {
    if |h.picks| == need || cands == [] {
    } else if Accepts(h, tag, cands[0]) {
      TakeSameMaps(h, cands[0], prefs, tag, diff);
      TakeNearLevels(h, cands[0], level, tag, diff);
      GreedySuited(Take(h, diff, cands[0]), cands[1..], need, level, prefs, tag, diff);
    } else {
      GreedySuited(h, cands[1..], need, level, prefs, tag, diff);
    }
  }

  lemma {:induction false} GreedyFrom(h: Hunt, cands: seq<Entry>, need: nat, tag: Option<string>, diff: nat)
    requires |h.picks| <= need
    ensures forall e :: e in Greedy(h, cands, need, tag, diff).picks ==> e in h.picks || e in cands
    ensures |Greedy(h, cands, need, tag, diff).picks| <= need
    decreases |cands|
  {
    if |h.picks| == need || cands == [] {
    } else {
      GreedyFrom(if Accepts(h, tag, cands[0]) then Take(h, diff, cands[0]) else h, cands[1..], need, tag, diff);
    }
  }

  lemma {:induction false} GreedyDistinct(h: Hunt, cands: seq<Entry>, need: nat, tag: Option<string>, diff: nat)
    requires DistinctConns(h.picks + cands) && |h.picks| <= need
    ensures DistinctConns(Greedy(h, cands, need, tag, diff).picks)
    decreases |cands|
  {
    if |h.picks| == need || cands == [] {
      assert h.picks == (h.picks + cands)[..|h.picks|];
    } else if Accepts(h, tag, cands[0]) {
      assert h.picks + cands == Take(h, diff, cands[0]).picks + cands[1..];
      GreedyDistinct(Take(h, diff, cands[0]), cands[1..], need, tag, diff);
    } else {
      var all, rest := h.picks + cands, h.picks + cands[1..];
      forall i, j | 0 <= i < j < |rest|
        ensures rest[i].c != rest[j].c
      {
        assert rest[i] == all[if i < |h.picks| then i else i + 1];
        assert rest[j] == all[if j < |h.picks| then j else j + 1];
      }
      GreedyDistinct(h, cands[1..], need, tag, diff);
    }
  }

  ghost predicate NoRepeat(levels: seq<int>) {
    forall i, j :: 0 <= i < j < |levels| ==> levels[i] != levels[j]
  }

  lemma {:induction false} CandidatesDistinct(lists: Lists, levels: seq<int>)
    requires WellQueued(lists) && Rows(lists, levels) && NoRepeat(levels)
    ensures DistinctConns(Candidates(lists, levels))
    ensures forall e :: e in Candidates(lists, levels) ==> e.c.level in levels
  {
    if levels == [] {
    } else {
      CandidatesDistinct(lists, levels[1..]);
      var own, rest := lists[levels[0]], Candidates(lists, levels[1..]);
      forall i, j | 0 <= i < |own| && 0 <= j < |rest|
        ensures own[i].c != rest[j].c
      {
        assert rest[j] in rest && rest[j].c.level in levels[1..];
      }
    }
  }

  /** Whatever waits in the lists, also a connection twice: the picks are waiting entries, pairwise and with the
      searcher within `diff` levels, all with the searcher's version tag, and as soon as there is one, some map is left
      that every one of them and the searcher asked for. */
  lemma MatchIsSuited(lists: Lists, level: int, prefs: Mask, need: nat, tag: Option<string>, diff: nat)
    requires |lists| == MAX_LEVEL && 0 <= level && level + diff < MAX_LEVEL
    ensures var h := HuntAll(lists, level, prefs, need, tag, diff);
            && Suited(h, level, prefs, tag, diff) && |h.picks| <= need
            && (forall e :: e in h.picks ==> exists l :: 0 <= l < MAX_LEVEL && e in lists[l])
  {
    var start, levels := Opening(level, prefs, diff), SweepLevels(level, diff);
    GreedySuited(start, Candidates(lists, levels), need, level, prefs, tag, diff);
    GreedyFrom(start, Candidates(lists, levels), need, tag, diff);
  }

  /** Every completed match, whatever the queue size: when every connection waits at most once, it is also of as many
      different connections as needed. */
  lemma MatchIsFair(lists: Lists, level: int, prefs: Mask, need: nat, tag: Option<string>, diff: nat)
    requires WellQueued(lists) && 0 <= level && level + diff < MAX_LEVEL && 0 < need
    ensures var h := HuntAll(lists, level, prefs, need, tag, diff);
            && Suited(h, level, prefs, tag, diff)
            && DistinctConns(h.picks) && |h.picks| <= need
            && (forall e :: e in h.picks ==> 0 <= e.c.level < MAX_LEVEL && e in lists[e.c.level])
            && (|h.picks| == need ==> h.maps != {})
  {
    var start, levels := Opening(level, prefs, diff), SweepLevels(level, diff);
    MatchIsSuited(lists, level, prefs, need, tag, diff);
    SweepVisits(level, diff);
    CandidatesDistinct(lists, levels);
    assert start.picks + Candidates(lists, levels) == Candidates(lists, levels);
    GreedyDistinct(start, Candidates(lists, levels), need, tag, diff);
  }

  /** A completed match takes exactly its members out of the lists. */
  lemma MatchLeavesRest(lists: Lists, level: int, prefs: Mask, need: nat, tag: Option<string>, diff: nat)
    requires WellQueued(lists) && 0 <= level && level + diff < MAX_LEVEL && 0 < need
    ensures var h := HuntAll(lists, level, prefs, need, tag, diff);
            var after := AfterHunt(lists, h, need);
            && WellQueued(after)
            && (forall c :: Waiting(after, c) <==>
                  Waiting(lists, c) && !(|h.picks| == need && c in Conns(h.picks)))
  {
    var h := HuntAll(lists, level, prefs, need, tag, diff);
    WithoutWellQueued(lists, Conns(h.picks));
  }
}
