/** Which of the waiting entries a search picks, for every queue size, said without the loop that picks them
    (src/bnetd/anongame.cpp:817-907). */
module Picking {
  import opened Common
  import opened LevelSweep
  import opened MapMask
  import opened Matchmaking
  import opened Unqueueing

  /** A level within `diff` of the searcher's and of every pick's. */
  ghost predicate Near(l: int, picks: seq<Entry>, level: int, diff: nat) {
    Abs(l - level) <= diff && forall p :: p in picks ==> Abs(l - p.c.level) <= diff
  }

  /** A map slot that the searcher and every pick asked for. */
  ghost predicate AskedByAll(slot: int, picks: seq<Entry>, prefs: Mask) {
    slot in Slots(prefs) && forall p :: p in picks ==> slot in Slots(p.prefs)
  }

  /** The entry suits the searcher and all the picks: it has the searcher's tag, it is within `diff` levels of each of
      them, and some map slot is common to all. */
  ghost predicate Suits(e: Entry, picks: seq<Entry>, level: int, prefs: Mask, tag: Option<string>, diff: nat) {
    && tag.Some? && e.tag == tag && Near(e.c.level, picks, level, diff)
    && exists slot :: slot in Slots(e.prefs) && AskedByAll(slot, picks, prefs)
  }

  // ---------- what the narrowed window and mask stand for ----------

  predicate Admits(h: Hunt, l: int) {
    h.lo <= l <= h.hi
  }

  ghost predicate Describes(h: Hunt, level: int, prefs: Mask, diff: nat) {
    && (forall l: int :: 0 <= l ==> (Admits(h, l) <==> Near(l, h.picks, level, diff)))
    && (forall slot: int :: slot in h.maps <==> AskedByAll(slot, h.picks, prefs))
  }

  lemma OpeningDescribes(level: int, prefs: Mask, diff: nat)
    ensures Describes(Opening(level, prefs, diff), level, prefs, diff)
  {
  }

  lemma TakeDescribes(h: Hunt, e: Entry, level: int, prefs: Mask, diff: nat)
    requires Describes(h, level, prefs, diff)
    ensures Describes(Take(h, diff, e), level, prefs, diff)
  {
    var t := Take(h, diff, e);
    forall l: int | 0 <= l
      ensures Admits(t, l) <==> Near(l, t.picks, level, diff)
    {
      assert Admits(h, l) <==> Near(l, h.picks, level, diff);
      NearMore(l, h.picks, e, level, diff);
    }
    forall slot: int
      ensures slot in t.maps <==> AskedByAll(slot, t.picks, prefs)
    {
      AskedMore(slot, h.picks, e, prefs);
    }
  }

  lemma NearMore(l: int, picks: seq<Entry>, e: Entry, level: int, diff: nat)
    ensures Near(l, picks + [e], level, diff) <==> Near(l, picks, level, diff) && Abs(l - e.c.level) <= diff
  {
    assert e in picks + [e];
  }

  lemma AskedMore(slot: int, picks: seq<Entry>, e: Entry, prefs: Mask)
    ensures AskedByAll(slot, picks + [e], prefs) <==> AskedByAll(slot, picks, prefs) && slot in Slots(e.prefs)
  {
    assert e in picks + [e];
  }

  lemma AcceptsSuits(h: Hunt, e: Entry, level: int, prefs: Mask, tag: Option<string>, diff: nat)
    requires Describes(h, level, prefs, diff) && 0 <= e.c.level
    ensures Accepts(h, tag, e) <==> Suits(e, h.picks, level, prefs, tag, diff)
  {
    assert Admits(h, e.c.level) <==> Near(e.c.level, h.picks, level, diff);
    if h.maps * Slots(e.prefs) != {} {
      var slot :| slot in h.maps * Slots(e.prefs);
      assert AskedByAll(slot, h.picks, prefs);
    }
    if slot :| slot in Slots(e.prefs) && AskedByAll(slot, h.picks, prefs) {
      assert slot in h.maps * Slots(e.prefs);
    }
  }

  // ---------- the picks ----------

  ghost predicate Increasing(ks: seq<nat>, n: nat) {
    && (forall i :: 0 <= i < |ks| ==> ks[i] < n)
    && (forall i, j :: 0 <= i < j < |ks| ==> ks[i] < ks[j])
  }

  /** Exactly m of the places stand before j. */
  ghost predicate StandBefore(ks: seq<nat>, j: nat, m: nat) {
    m <= |ks| && (forall i :: 0 <= i < m ==> ks[i] < j) && (forall i :: m <= i < |ks| ==> j <= ks[i])
  }

  /** First come, first served: the picks are the candidates at the places `ks`, and a candidate is among them if and only
      if fewer than `need` were picked before it and it suits the searcher and all of these. */
  ghost predicate FirstServed(cands: seq<Entry>, ks: seq<nat>, picks: seq<Entry>, need: nat,
                              level: int, prefs: Mask, tag: Option<string>, diff: nat) {
    && Increasing(ks, |cands|)
    && |picks| == |ks| && (forall i :: 0 <= i < |ks| ==> picks[i] == cands[ks[i]])
    && forall j: nat, m: nat :: j < |cands| && StandBefore(ks, j, m) ==>
         (j in ks <==> m < need && Suits(cands[j], picks[..m], level, prefs, tag, diff))
  }

  /** One more candidate, picked. */
  lemma OneTaken(cands: seq<Entry>, e: Entry, ks: seq<nat>, picks: seq<Entry>, need: nat,
                 level: int, prefs: Mask, tag: Option<string>, diff: nat)
    requires FirstServed(cands, ks, picks, need, level, prefs, tag, diff)
    requires |picks| < need && Suits(e, picks, level, prefs, tag, diff)
    ensures FirstServed(cands + [e], ks + [|cands|], picks + [e], need, level, prefs, tag, diff)
  {
    var n, all, more, got := |cands|, cands + [e], ks + [|cands|], picks + [e];
    forall j: nat, m: nat | j < |all| && StandBefore(more, j, m)
      ensures j in more <==> m < need && Suits(all[j], got[..m], level, prefs, tag, diff)
    {
      StandInMore(ks, n, j, m);
      Prefix(picks, e, m);
    }
  }

  lemma StandInMore(ks: seq<nat>, n: nat, j: nat, m: nat)
    requires Increasing(ks, n) && j <= n && StandBefore(ks + [n], j, m)
    ensures m <= |ks| && StandBefore(ks, j, m) && (j == n ==> m == |ks|)
    ensures j in ks + [n] <==> j in ks || j == n
  {
    var more := ks + [n];
    assert more[|ks|] == n;
    assert forall i :: 0 <= i < |ks| ==> more[i] == ks[i];
    assert j <= more[m];
  }

  lemma AllStandBefore(ks: seq<nat>, n: nat, m: nat)
    requires Increasing(ks, n) && StandBefore(ks, n, m)
    ensures m == |ks| && n !in ks
  {
    if |ks| > 0 {
      assert ks[|ks| - 1] < n;
    }
  }

  lemma Prefix<T>(s: seq<T>, e: T, m: nat)
    requires m <= |s|
    ensures (s + [e])[..m] == s[..m] && (m == |s| ==> s[..m] == s)
  {
  }

  /** One more candidate, not picked. */
  lemma OneSkipped(cands: seq<Entry>, e: Entry, ks: seq<nat>, picks: seq<Entry>, need: nat,
                   level: int, prefs: Mask, tag: Option<string>, diff: nat)
    requires FirstServed(cands, ks, picks, need, level, prefs, tag, diff)
    requires !(|picks| < need && Suits(e, picks, level, prefs, tag, diff))
    ensures FirstServed(cands + [e], ks, picks, need, level, prefs, tag, diff)
  {
    var all := cands + [e];
    forall j: nat, m: nat | j < |all| && StandBefore(ks, j, m)
      ensures j in ks <==> m < need && Suits(all[j], picks[..m], level, prefs, tag, diff)
    {
      if j == |cands| {
        AllStandBefore(ks, j, m);
        Prefix(picks, e, m);
      }
    }
  }

  ghost predicate LevelsFrom0(cands: seq<Entry>) {
    forall i :: 0 <= i < |cands| ==> 0 <= cands[i].c.level
  }

  lemma {:induction false} GreedyServes(cands: seq<Entry>, need: nat, level: int, prefs: Mask, tag: Option<string>, diff: nat)
    returns (ks: seq<nat>)
    requires LevelsFrom0(cands)
    ensures var g := Greedy(Opening(level, prefs, diff), cands, need, tag, diff);
            && Describes(g, level, prefs, diff) && |g.picks| <= need
            && FirstServed(cands, ks, g.picks, need, level, prefs, tag, diff)
  {
    var h := Opening(level, prefs, diff);
    if cands == [] {
      ks := [];
      OpeningDescribes(level, prefs, diff);
    } else {
      var n := |cands| - 1;
      var init, e := cands[..n], cands[n];
      ks := GreedyServes(init, need, level, prefs, tag, diff);
      assert cands == init + [e];
      GreedyConcat(h, init, [e], need, tag, diff);
      var g := Greedy(h, init, need, tag, diff);
      GreedyOne(g, e, need, tag, diff);
      AcceptsSuits(g, e, level, prefs, tag, diff);
      TakeDescribes(g, e, level, prefs, diff);
      if |g.picks| < need && Suits(e, g.picks, level, prefs, tag, diff) {
        OneTaken(init, e, ks, g.picks, need, level, prefs, tag, diff);
        ks := ks + [n];
      } else {
        OneSkipped(init, e, ks, g.picks, need, level, prefs, tag, diff);
      }
    }
  }

  lemma GreedyOne(g: Hunt, e: Entry, need: nat, tag: Option<string>, diff: nat)
    ensures Greedy(g, [e], need, tag, diff) == if |g.picks| != need && Accepts(g, tag, e) then Take(g, diff, e) else g
  {
    assert [e][1..] == [];
  }

  lemma {:induction false} CandidatesPlaced(lists: Lists, levels: seq<int>)
    requires Placed(lists) && Rows(lists, levels)
    ensures LevelsFrom0(Candidates(lists, levels))
  {
    var cands := Candidates(lists, levels);
    forall i | 0 <= i < |cands|
      ensures 0 <= cands[i].c.level
    {
      assert cands[i] in cands;
    }
  }

  lemma {:induction false} InCandidates(lists: Lists, levels: seq<int>, k: nat, e: Entry)
    requires Rows(lists, levels) && k < |levels| && e in lists[levels[k]]
    ensures e in Candidates(lists, levels)
  {
    if k > 0 {
      InCandidates(lists, levels[1..], k - 1, e);
    }
  }

  // ---------- every search ----------

  /** The picks of a search for `need` entries, in the order of the sweep. */
  lemma SearchServes(lists: Lists, level: int, prefs: Mask, need: nat, tag: Option<string>, diff: nat) returns (ks: seq<nat>)
    requires Placed(lists) && 0 <= level && level + diff < MAX_LEVEL
    ensures FirstServed(Candidates(lists, SweepLevels(level, diff)), ks,
                        HuntAll(lists, level, prefs, need, tag, diff).picks, need, level, prefs, tag, diff)
  {
    CandidatesPlaced(lists, SweepLevels(level, diff));
    ks := GreedyServes(Candidates(lists, SweepLevels(level, diff)), need, level, prefs, tag, diff);
  }

  /** The maps left at the end are those that the searcher and every pick asked for. */
  lemma MapsAskedByAll(lists: Lists, level: int, prefs: Mask, need: nat, tag: Option<string>, diff: nat)
    requires Placed(lists) && 0 <= level && level + diff < MAX_LEVEL
    ensures var h := HuntAll(lists, level, prefs, need, tag, diff);
            forall slot: int :: slot in h.maps <==> AskedByAll(slot, h.picks, prefs)
  {
    CandidatesPlaced(lists, SweepLevels(level, diff));
    var _ := GreedyServes(Candidates(lists, SweepLevels(level, diff)), need, level, prefs, tag, diff);
  }

  lemma {:induction false} SomeStandBefore(ks: seq<nat>, n: nat, j: nat) returns (m: nat)
    requires Increasing(ks, n)
    ensures StandBefore(ks, j, m)
  {
    m := 0;
    while m < |ks| && ks[m] < j
      invariant m <= |ks| && forall i :: 0 <= i < m ==> ks[i] < j
    {
      m := m + 1;
    }
  }

  lemma SuitsFewer(e: Entry, picks: seq<Entry>, m: nat, level: int, prefs: Mask, tag: Option<string>, diff: nat)
    requires m <= |picks| && Suits(e, picks, level, prefs, tag, diff)
    ensures Suits(e, picks[..m], level, prefs, tag, diff)
  {
    var slot :| slot in Slots(e.prefs) && AskedByAll(slot, picks, prefs);
    assert AskedByAll(slot, picks[..m], prefs);
  }

  lemma LeftOver(cands: seq<Entry>, ks: seq<nat>, picks: seq<Entry>, need: nat,
                 level: int, prefs: Mask, tag: Option<string>, diff: nat, e: Entry)
    requires FirstServed(cands, ks, picks, need, level, prefs, tag, diff) && |picks| < need && e in cands
    ensures e in picks || !Suits(e, picks, level, prefs, tag, diff)
  {
    var j: nat :| j < |cands| && cands[j] == e;
    if j in ks {
      var i :| 0 <= i < |ks| && ks[i] == j;
      assert picks[i] == e;
    } else if Suits(e, picks, level, prefs, tag, diff) {
      var m := SomeStandBefore(ks, |cands|, j);
      SuitsFewer(e, picks, m, level, prefs, tag, diff);
    }
  }

  /** A search that ends without a match leaves nobody behind who would have suited: every waiting entry was picked, or
      does not suit the searcher and the picks. */
  lemma NoMatchNobodySuits(lists: Lists, level: int, prefs: Mask, need: nat, tag: Option<string>, diff: nat, l: nat, e: Entry)
    requires Placed(lists) && 0 <= level && level + diff < MAX_LEVEL && l < MAX_LEVEL && e in lists[l]
    requires |HuntAll(lists, level, prefs, need, tag, diff).picks| < need
    ensures var picks := HuntAll(lists, level, prefs, need, tag, diff).picks;
            e in picks || !Suits(e, picks, level, prefs, tag, diff)
  {
    var levels := SweepLevels(level, diff);
    var cands, picks := Candidates(lists, levels), HuntAll(lists, level, prefs, need, tag, diff).picks;
    var ks := SearchServes(lists, level, prefs, need, tag, diff);
    SweepVisits(level, diff);
    if Abs(l - level) <= diff {
      assert l in levels;
      var k :| 0 <= k < |levels| && levels[k] == l;
      InCandidates(lists, levels, k, e);
      LeftOver(cands, ks, picks, need, level, prefs, tag, diff, e);
    }
  }
}
