/** Unqueueing one connection after the other (src/bnetd/anongame.cpp:1054-1106): each call removes the first entry of
    its connection, of which a repeated search may have left several. */
module Unqueueing {
  import opened LevelSweep
  import opened MapMask
  import opened Matchmaking

  /** Every entry is in the list of its connection's level. */
  ghost predicate Placed(lists: Lists) {
    |lists| == MAX_LEVEL && forall l, i :: 0 <= l < |lists| && 0 <= i < |lists[l]| ==> lists[l][i].c.level == l
  }

  function RemoveFirst(es: seq<Entry>, c: Conn): (r: seq<Entry>)
    ensures forall e :: e in r ==> e in es
  {
    if es == [] then [] else if es[0].c == c then es[1..] else [es[0]] + RemoveFirst(es[1..], c)
  }

  function Unqueued(lists: Lists, c: Conn): (r: Lists)
    ensures |r| == |lists|
  {
    if 0 <= c.level < |lists| then lists[c.level := RemoveFirst(lists[c.level], c)] else lists
  }

  function UnqueuedAll(lists: Lists, cs: seq<Conn>): (r: Lists)
    ensures |r| == |lists|
  {
    if cs == [] then lists else Unqueued(UnqueuedAll(lists, cs[..|cs| - 1]), cs[|cs| - 1])
  }

  /** A completed match takes its picks out one by one. */
  function TakenOut(lists: Lists, h: Hunt, need: nat): Lists {
    if |h.picks| == need then UnqueuedAll(lists, ConnSeq(h.picks)) else lists
  }

  lemma EnqueuedPlaced(lists: Lists, c: Conn, prefs: Mask)
    requires Placed(lists) && 0 <= c.level < MAX_LEVEL
    ensures Placed(Enqueued(lists, c, prefs))
  {
  }

  lemma UnqueuedPlaced(lists: Lists, c: Conn)
    requires Placed(lists)
    ensures Placed(Unqueued(lists, c))
    ensures forall l, e :: 0 <= l < |lists| && e in Unqueued(lists, c)[l] ==> e in lists[l]
  {
    var r: Lists := Unqueued(lists, c);
    forall l, i | 0 <= l < |r| && 0 <= i < |r[l]|
      ensures r[l][i].c.level == l
    {
      assert r[l][i] in lists[l];
    }
  }

  // ---------- where the first entry stands ----------

  lemma HeadKept(es: seq<Entry>, tail: seq<Entry>, k: nat)
    requires 0 < k < |es| && tail == es[1..]
    ensures es[..k] + es[k + 1..] == [es[0]] + (tail[..k - 1] + tail[k..])
  {
  }

  lemma {:induction false} RemoveFirstAt(es: seq<Entry>, k: nat)
    requires k < |es| && forall j :: 0 <= j < k ==> es[j].c != es[k].c
    ensures RemoveFirst(es, es[k].c) == es[..k] + es[k + 1..]
  {
    if k > 0 {
      RemoveFirstAt(es[1..], k - 1);
      HeadKept(es, es[1..], k);
    }
  }

  lemma {:induction false} RemoveFirstNone(es: seq<Entry>, c: Conn)
    requires forall i :: 0 <= i < |es| ==> es[i].c != c
    ensures RemoveFirst(es, c) == es
  {
    if es != [] {
      RemoveFirstNone(es[1..], c);
    }
  }

  lemma UnqueuedAt(lists: Lists, l: nat, k: nat)
    requires Placed(lists) && l < |lists| && k < |lists[l]|
    requires forall j :: 0 <= j < k ==> lists[l][j].c != lists[l][k].c
    ensures Unqueued(lists, lists[l][k].c) == lists[l := lists[l][..k] + lists[l][k + 1..]]
  {
    RemoveFirstAt(lists[l], k);
  }

  lemma UnqueuedNone(lists: Lists, c: Conn)
    requires forall l, i :: 0 <= l < |lists| && 0 <= i < |lists[l]| ==> lists[l][i].c != c
    ensures Unqueued(lists, c) == lists && !Waiting(lists, c)
  {
    if 0 <= c.level < |lists| {
      RemoveFirstNone(lists[c.level], c);
    }
  }

  // ---------- the order of the calls does not matter ----------

  lemma {:induction false} RemoveFirstSwap(es: seq<Entry>, c: Conn, d: Conn)
    ensures RemoveFirst(RemoveFirst(es, c), d) == RemoveFirst(RemoveFirst(es, d), c)
  {
    if es != [] && es[0].c != c && es[0].c != d {
      var t := es[1..];
      RemoveFirstSwap(t, c, d);
      RemoveSecond(es[0], RemoveFirst(t, c), d);
      RemoveSecond(es[0], RemoveFirst(t, d), c);
    } else if es != [] && c != d {
      RemoveSecond(es[0], RemoveFirst(es[1..], if es[0].c == c then d else c), es[0].c);
    }
  }

  lemma RemoveSecond(e: Entry, t: seq<Entry>, c: Conn)
    ensures RemoveFirst([e] + t, c) == if e.c == c then t else [e] + RemoveFirst(t, c)
  {
    assert ([e] + t)[1..] == t;
  }

  lemma UnqueuedSwap(lists: Lists, c: Conn, d: Conn)
    ensures Unqueued(Unqueued(lists, c), d) == Unqueued(Unqueued(lists, d), c)
  {
    if c.level == d.level && 0 <= c.level < |lists| {
      RemoveFirstSwap(lists[c.level], c, d);
    }
  }

  function Omit<T>(s: seq<T>, k: nat): seq<T>
    requires k < |s|
  {
    s[..k] + s[k + 1..]
  }

  lemma OmitLast<T>(s: seq<T>, k: nat)
    requires k < |s| - 1
    ensures var n := |s| - 1;
      && Omit(s, k) != [] && Omit(s, k)[n - 1] == s[n]
      && Omit(s, k)[..n - 1] == Omit(s[..n], k)
  {
  }

  lemma {:induction false} CalledLast(lists: Lists, cs: seq<Conn>, k: nat)
    requires k < |cs|
    ensures UnqueuedAll(lists, cs) == Unqueued(UnqueuedAll(lists, Omit(cs, k)), cs[k])
    decreases |cs|
  {
    var n := |cs| - 1;
    if k == n {
      assert Omit(cs, k) == cs[..n];
    } else {
      CalledLast(lists, cs[..n], k);
      OmitLast(cs, k);
      UnqueuedSwap(UnqueuedAll(lists, Omit(cs[..n], k)), cs[k], cs[n]);
    }
  }

  lemma OmitMultiset<T>(s: seq<T>, k: nat)
    requires k < |s|
    ensures multiset(Omit(s, k)) == multiset(s) - multiset{s[k]}
  {
    assert s == s[..k] + [s[k]] + s[k + 1..];
  }

  lemma {:induction false} OrderIsFree(lists: Lists, a: seq<Conn>, b: seq<Conn>)
    requires multiset(a) == multiset(b)
    ensures UnqueuedAll(lists, a) == UnqueuedAll(lists, b)
    decreases |a|
  {
    if a == [] {
      assert |multiset(b)| == 0;
    } else {
      var n := |a| - 1;
      assert a[n] in multiset(b);
      var k :| 0 <= k < |b| && b[k] == a[n];
      OmitMultiset(a, n);
      OmitMultiset(b, k);
      assert Omit(a, n) == a[..n];
      OrderIsFree(lists, a[..n], Omit(b, k));
      CalledLast(lists, b, k);
    }
  }

  // ---------- without repeated searches ----------

  lemma {:induction false} DropOne(es: seq<Entry>, c: Conn)
    requires DistinctConns(es)
    ensures RemoveFirst(es, c) == Drop(es, {c})
  {
    if es != [] {
      if es[0].c == c {
        assert forall e :: e in es[1..] ==> e.c !in {c};
      } else {
        DropOne(es[1..], c);
      }
    }
  }

  lemma UnqueuedIsWithout(lists: Lists, c: Conn)
    requires WellQueued(lists)
    ensures Unqueued(lists, c) == Without(lists, {c})
  {
    forall l | 0 <= l < |lists|
      ensures Unqueued(lists, c)[l] == Drop(lists[l], {c})
    {
      if l == c.level {
        DropOne(lists[l], c);
      } else {
        assert forall e :: e in lists[l] ==> e.c.level == l;
      }
    }
  }

  lemma NoneDropped(lists: Lists)
    ensures Without(lists, {}) == lists
  {
  }

  /** When every connection waits at most once, exactly the named ones are gone. */
  lemma {:induction false} UnqueuedAllIsWithout(lists: Lists, cs: seq<Conn>)
    requires WellQueued(lists)
    ensures UnqueuedAll(lists, cs) == Without(lists, Members(cs))
    decreases |cs|
  {
    if cs == [] {
      NoneDropped(lists);
    } else {
      var n := |cs| - 1;
      UnqueuedAllIsWithout(lists, cs[..n]);
      WithoutWellQueued(lists, Members(cs[..n]));
      UnqueuedIsWithout(Without(lists, Members(cs[..n])), cs[n]);
      WithoutWithout(lists, Members(cs[..n]), {cs[n]});
      assert cs == cs[..n] + [cs[n]];
      assert Members(cs) == Members(cs[..n]) + {cs[n]};
    }
  }

  lemma TakenOutIsAfterHunt(lists: Lists, h: Hunt, need: nat)
    requires WellQueued(lists)
    ensures TakenOut(lists, h, need) == AfterHunt(lists, h, need)
  {
    if |h.picks| == need {
      UnqueuedAllIsWithout(lists, ConnSeq(h.picks));
      ConnsOfSeq(h.picks);
    }
  }

  /** A connection that a repeated search matched with itself is gone altogether. */
  lemma TwiceQueuedGone(lists: Lists, c: Conn, prefs: Mask)
    requires WellQueued(lists) && 0 <= c.level < MAX_LEVEL && Waiting(lists, c)
    ensures UnqueuedAll(Enqueued(lists, c, prefs), [c, c]) == Without(lists, {c})
  {
    var own, e, queued := lists[c.level], Entry(c, prefs, c.tag), Enqueued(lists, c, prefs);
    var l, i :| 0 <= l < |lists| && 0 <= i < |lists[l]| && lists[l][i].c == c;
    RemoveOfTwo(own, e, i);
    UnqueuedIsWithout(lists, c);
    UnqueuedTwice(queued, c);
    assert Unqueued(Unqueued(queued, c), c) == Unqueued(lists, c);
  }

  lemma UnqueuedTwice(lists: Lists, c: Conn)
    ensures UnqueuedAll(lists, [c, c]) == Unqueued(Unqueued(lists, c), c)
  {
    assert [c, c][..1] == [c] && [c][..0] == [];
    assert UnqueuedAll(lists, [c]) == Unqueued(UnqueuedAll(lists, []), c);
  }

  lemma {:induction false} RemoveEarlier(es: seq<Entry>, e: Entry, i: nat)
    requires i < |es| && es[i].c == e.c
    ensures RemoveFirst(es + [e], e.c) == RemoveFirst(es, e.c) + [e]
  {
    assert (es + [e])[1..] == es[1..] + [e];
    if es[0].c != e.c {
      RemoveEarlier(es[1..], e, i - 1);
    }
  }

  lemma {:induction false} RemoveLast(es: seq<Entry>, e: Entry)
    requires forall x :: x in es ==> x.c != e.c
    ensures RemoveFirst(es + [e], e.c) == es
  {
    if es != [] {
      assert (es + [e])[1..] == es[1..] + [e];
      RemoveLast(es[1..], e);
    }
  }

  lemma RemoveOfTwo(own: seq<Entry>, e: Entry, i: nat)
    requires i < |own| && own[i].c == e.c && DistinctConns(own)
    ensures RemoveFirst(RemoveFirst(own + [e], e.c), e.c) == RemoveFirst(own, e.c)
  {
    RemoveEarlier(own, e, i);
    DropOne(own, e.c);
    RemoveLast(RemoveFirst(own, e.c), e);
  }
}
