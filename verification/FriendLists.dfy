/** Friend lists as values: the stored slots of an account and its list in memory (src/bnetd/friends.cpp). */
module FriendLists {
  import opened Common

  datatype Mutual = Unloaded | NotMutual | IsMutual

  datatype Friend = Friend(uid: nat, mutual: Mutual)

  /**
   * One account: the attributes friend\i\uid (0 when never set) and friend\count, the list in memory, if there is
   * one, and the flag that says whether it is up to date.
   */
  datatype Record = Record(slots: seq<nat>, count: nat, friends: Option<seq<Friend>>, loaded: bool)

  type Lists = map<nat, seq<nat>>

  function Uids(fs: seq<Friend>): (r: seq<nat>)
    ensures |r| == |fs| && forall i :: 0 <= i < |fs| ==> r[i] == fs[i].uid
  {
    if fs == [] then [] else [fs[0].uid] + Uids(fs[1..])
  }

  ghost predicate Distinct(s: seq<nat>) {
    forall i, j :: 0 <= i < j < |s| ==> s[i] != s[j]
  }

  /** Every uid names an account. */
  ghost predicate Resolves(s: seq<nat>, lists: Lists) {
    forall u :: u in s ==> u in lists
  }

  function Flag(listed: bool): Mutual {
    if listed then IsMutual else NotMutual
  }

  /** Among the first `n`, an entry of account `a` is flagged mutual exactly when the other account lists `a`. */
  ghost predicate FlagsTo(fs: seq<Friend>, n: nat, a: nat, lists: Lists) {
    forall i :: 0 <= i < |fs| && i < n ==> fs[i].uid in lists && fs[i].mutual == Flag(a in lists[fs[i].uid])
  }

  ghost predicate FlagsRight(fs: seq<Friend>, a: nat, lists: Lists) {
    FlagsTo(fs, |fs|, a, lists)
  }

  /** The stored uids: no duplicates, not the account itself, never 0. */
  ghost predicate GoodList(s: seq<nat>, a: nat, max: nat) {
    |s| <= max && Distinct(s) && a !in s && 0 !in s
  }

  /** The stored slots, the list in memory and its flags agree with `lists`. */
  ghost predicate Good(r: Record, a: nat, lists: Lists, max: nat) {
    && |r.slots| == max && r.count <= max
    && a in lists && lists[a] == r.slots[..r.count] && GoodList(lists[a], a, max)
    && (r.loaded ==> r.friends.Some?)
    && (r.friends.Some? ==> Uids(r.friends.value) == lists[a] && Resolves(lists[a], lists))
    && (r.loaded ==> FlagsRight(r.friends.value, a, lists))
  }

  /** The records of all accounts but `a`. */
  ghost predicate AllGood(recs: map<nat, Record>, a: nat, lists: Lists, max: nat) {
    forall c :: c in recs && c != a ==> Good(recs[c], c, lists, max)
  }

  /** The first `i` of the `n` stored uids of `a` have been looked up. */
  ghost predicate LookedUp(recs: map<nat, Record>, lists: Lists, max: nat, a: nat, i: nat, n: nat, newlist: bool,
                           fs: seq<Friend>) {
    && AllGood(recs, a, lists, max) && a in recs && a in lists && i <= n && n == recs[a].count <= max
    && |recs[a].slots| == max && lists[a] == recs[a].slots[..n] && GoodList(lists[a], a, max)
    && (newlist ==> Uids(fs) == lists[a][..i])
    && (!newlist ==> Uids(fs) == lists[a] && Resolves(lists[a], lists))
    && FlagsTo(fs, i, a, lists)
  }

  // ---------- one list ----------

  function Without(s: seq<nat>, i: nat): seq<nat>
    requires i < |s|
  {
    s[..i] + s[i + 1..]
  }

  /** The uids that name an account, in order. */
  function Resolved(s: seq<nat>, lists: Lists): seq<nat> {
    if s == [] then []
    else if s[0] in lists then [s[0]] + Resolved(s[1..], lists)
    else Resolved(s[1..], lists)
  }

  function IndexOf(s: seq<nat>, u: nat): (i: nat)
    ensures i <= |s|
    ensures i < |s| ==> s[i] == u
    ensures forall k :: 0 <= k < i ==> s[k] != u
    ensures i < |s| <==> u in s
  {
    if s == [] then 0 else if s[0] == u then 0 else IndexOf(s[1..], u) + 1
  }

  lemma {:induction false} ResolvedSame(s: seq<nat>, lists: Lists)
    requires Resolves(s, lists)
    ensures Resolved(s, lists) == s
  {
    if s != [] {
      assert s[0] in s;
      ResolvedSame(s[1..], lists);
    }
  }

  lemma {:induction false} ResolvedShorter(s: seq<nat>, lists: Lists)
    ensures |Resolved(s, lists)| <= |s|
    ensures |Resolved(s, lists)| == |s| <==> Resolves(s, lists)
  {
    if s != [] {
      ResolvedShorter(s[1..], lists);
      assert s == [s[0]] + s[1..];
    }
  }

  lemma {:induction false} ResolvedHolds(s: seq<nat>, lists: Lists, u: nat)
    ensures u in Resolved(s, lists) <==> u in s && u in lists
  {
    if s != [] {
      ResolvedHolds(s[1..], lists, u);
    }
  }

  lemma {:induction false} ResolvedDrop(s: seq<nat>, i: nat, lists: Lists)
    requires i < |s| && s[i] !in lists
    ensures Resolved(Without(s, i), lists) == Resolved(s, lists)
  {
    if i == 0 {
      assert Without(s, 0) == s[1..];
    } else {
      ResolvedDrop(s[1..], i - 1, lists);
      assert Without(s, i)[1..] == Without(s[1..], i - 1);
    }
  }

  /** One after the other: a uid that names an account stays where it is among the others. */
  lemma {:induction false} ResolvedConcat(s: seq<nat>, t: seq<nat>, lists: Lists)
    ensures Resolved(s + t, lists) == Resolved(s, lists) + Resolved(t, lists)
  {
    if s == [] {
      assert s + t == t;
    } else {
      assert (s + t)[1..] == s[1..] + t;
      ResolvedConcat(s[1..], t, lists);
    }
  }

  /** The others move up by one place. */
  lemma WithoutAt(s: seq<nat>, i: nat, k: nat)
    requires i < |s| && k < |s| - 1
    ensures |Without(s, i)| == |s| - 1 && Without(s, i)[k] == s[if k < i then k else k + 1]
  {
  }

  lemma ResolvedOnlyKeys(s: seq<nat>, lists: Lists, other: Lists)
    requires forall u :: u in lists <==> u in other
    ensures Resolved(s, lists) == Resolved(s, other)
  {
  }

  lemma WithoutGood(s: seq<nat>, i: nat, a: nat, max: nat)
    requires i < |s| && GoodList(s, a, max)
    ensures GoodList(Without(s, i), a, max)
    ensures forall u :: u in Without(s, i) <==> u in s && u != s[i]
  {
    var t := Without(s, i);
    forall k | 0 <= k < |t|
      ensures t[k] == s[if k < i then k else k + 1]
    {
    }
    forall u | u in s && u != s[i]
      ensures u in t
    {
      var k :| 0 <= k < |s| && s[k] == u;
      assert t[if k < i then k else k - 1] == u;
    }
  }

  lemma AppendGood(s: seq<nat>, b: nat, a: nat, max: nat)
    requires GoodList(s, a, max) && |s| < max && b != a && b != 0 && b !in s
    ensures GoodList(s + [b], a, max)
  {
  }

  /** The flags of `a` do not depend on its own list. */
  lemma FlagsElsewhere(fs: seq<Friend>, n: nat, a: nat, lists: Lists, s: seq<nat>)
    requires FlagsTo(fs, n, a, lists) && a !in Uids(fs)
    ensures FlagsTo(fs, n, a, lists[a := s])
  {
    assert forall i :: 0 <= i < |fs| ==> fs[i].uid == Uids(fs)[i];
  }

  /** A uid that names no account leaves the list of `a`. */
  lemma DroppedList(s: seq<nat>, i: nat, a: nat, lists: Lists, max: nat)
    requires i < |s| && s[i] !in lists && a in lists && GoodList(s, a, max)
    ensures var t := Without(s, i);
      && GoodList(t, a, max) && t[..i] == s[..i] && (forall u :: u in t <==> u in s && u != s[i])
      && Resolved(t, lists[a := t]) == Resolved(s, lists)
  {
    var t := Without(s, i);
    WithoutGood(s, i, a, max);
    ResolvedDrop(s, i, lists);
    ResolvedOnlyKeys(t, lists[a := t], lists);
  }

  lemma UpdateTwice<T>(m: map<nat, T>, a: nat, x: T, y: T)
    ensures m[a := x][a := y] == m[a := y]
  {
  }

  // ---------- one list in memory ----------

  /** friend_set_mutual on the entry that friendlist_find_uid finds. */
  function SetFlag(fs: seq<Friend>, u: nat, m: Mutual): (r: seq<Friend>)
    ensures |r| == |fs|
  {
    if fs == [] then []
    else if fs[0].uid == u then [Friend(u, m)] + fs[1..]
    else [fs[0]] + SetFlag(fs[1..], u, m)
  }

  lemma {:induction false} SetFlagUids(fs: seq<Friend>, u: nat, m: Mutual)
    ensures Uids(SetFlag(fs, u, m)) == Uids(fs)
  {
    if fs == [] {
    } else if fs[0].uid == u {
      var r := SetFlag(fs, u, m);
      assert r[1..] == fs[1..];
    } else {
      SetFlagUids(fs[1..], u, m);
      assert SetFlag(fs, u, m)[1..] == SetFlag(fs[1..], u, m);
    }
  }

  /** The position of the first entry of `u`. */
  function Position(fs: seq<Friend>, u: nat): nat {
    if fs == [] then 0 else if fs[0].uid == u then 0 else Position(fs[1..], u) + 1
  }

  lemma {:induction false} PositionIs(fs: seq<Friend>, u: nat)
    ensures Position(fs, u) == IndexOf(Uids(fs), u)
  {
    if fs != [] {
      PositionIs(fs[1..], u);
      assert Uids(fs) == [fs[0].uid] + Uids(fs[1..]);
    }
  }

  lemma {:induction false} SetFlagEntry(fs: seq<Friend>, u: nat, m: Mutual, i: nat)
    requires i < |fs|
    ensures SetFlag(fs, u, m)[i] == if i == Position(fs, u) then Friend(u, m) else fs[i]
  {
    if i > 0 {
      var t := fs[1..];
      assert t[i - 1] == fs[i];
      if fs[0].uid != u {
        SetFlagEntry(t, u, m, i - 1);
        assert SetFlag(fs, u, m)[i] == SetFlag(t, u, m)[i - 1];
      }
    }
  }

  /** Exactly the first entry of `u` changes. */
  lemma SetFlagAt(fs: seq<Friend>, u: nat, m: Mutual)
    ensures Uids(SetFlag(fs, u, m)) == Uids(fs)
    ensures forall i :: 0 <= i < |fs| ==>
      SetFlag(fs, u, m)[i] == if i == IndexOf(Uids(fs), u) then Friend(u, m) else fs[i]
  {
    SetFlagUids(fs, u, m);
    PositionIs(fs, u);
    forall i | 0 <= i < |fs|
      ensures SetFlag(fs, u, m)[i] == if i == IndexOf(Uids(fs), u) then Friend(u, m) else fs[i]
    {
      SetFlagEntry(fs, u, m, i);
    }
  }

  lemma {:induction false} SetFlagAbsent(fs: seq<Friend>, u: nat, m: Mutual)
    requires u !in Uids(fs)
    ensures SetFlag(fs, u, m) == fs
  {
    if fs != [] {
      assert Uids(fs)[0] == fs[0].uid;
      SetFlagAbsent(fs[1..], u, m);
    }
  }

  function RemoveAt(fs: seq<Friend>, i: nat): seq<Friend>
    requires i < |fs|
  {
    fs[..i] + fs[i + 1..]
  }

  lemma {:induction false} RemoveAtUids(fs: seq<Friend>, i: nat)
    requires i < |fs|
    ensures Uids(RemoveAt(fs, i)) == Without(Uids(fs), i)
  {
    if i == 0 {
      assert RemoveAt(fs, 0) == fs[1..];
      WithoutFirst(fs[0].uid, Uids(fs[1..]));
    } else {
      RemoveAtUids(fs[1..], i - 1);
      RemoveAtLater(fs, i);
      WithoutLater(fs[0].uid, Uids(fs[1..]), i);
    }
  }

  lemma RemoveAtLater(fs: seq<Friend>, i: nat)
    requires 0 < i < |fs|
    ensures var r := RemoveAt(fs, i); r != [] && r[0] == fs[0] && r[1..] == RemoveAt(fs[1..], i - 1)
  {
  }

  lemma WithoutFirst(u: nat, s: seq<nat>)
    ensures Without([u] + s, 0) == s
  {
  }

  lemma WithoutLater(u: nat, s: seq<nat>, i: nat)
    requires 0 < i <= |s|
    ensures Without([u] + s, i) == [u] + Without(s, i - 1)
  {
  }

  lemma AppendUids(fs: seq<Friend>, f: Friend)
    ensures Uids(fs + [f]) == Uids(fs) + [f.uid]
  {
  }

  /** friendlist_purge. */
  function Purged(fs: seq<Friend>): seq<Friend> {
    if fs == [] then []
    else if fs[0].mutual.Unloaded? then Purged(fs[1..])
    else [fs[0]] + Purged(fs[1..])
  }

  lemma {:induction false} PurgeKeeps(fs: seq<Friend>, a: nat, lists: Lists)
    requires FlagsRight(fs, a, lists)
    ensures Purged(fs) == fs
  {
    if fs != [] {
      var t := fs[1..];
      assert forall i :: 0 <= i < |t| ==> t[i] == fs[i + 1];
      PurgeKeeps(t, a, lists);
    }
  }

  /** friendlist_unload. */
  function Stale(fs: seq<Friend>): (r: seq<Friend>)
    ensures Uids(r) == Uids(fs)
    ensures |r| == |fs| && forall i :: 0 <= i < |fs| ==> r[i].mutual == Unloaded
  {
    if fs == [] then [] else [Friend(fs[0].uid, Unloaded)] + Stale(fs[1..])
  }

  lemma IndexAt(s: seq<nat>, i: nat)
    requires i < |s| && Distinct(s)
    ensures IndexOf(s, s[i]) == i
  {
  }

  /** Flagging the i-th entry anew extends the part that is right. */
  lemma FlagsUpdated(fs: seq<Friend>, uids: seq<nat>, i: nat, a: nat, lists: Lists)
    requires i < |fs| && FlagsTo(fs, i, a, lists) && uids == Uids(fs) && Distinct(uids) && fs[i].uid in lists
    ensures var r := SetFlag(fs, fs[i].uid, Flag(a in lists[fs[i].uid]));
      Uids(r) == uids && FlagsTo(r, i + 1, a, lists)
  {
    SetFlagAt(fs, fs[i].uid, Flag(a in lists[fs[i].uid]));
    IndexAt(uids, i);
  }

  lemma FlagsAppended(fs: seq<Friend>, u: nat, a: nat, lists: Lists)
    requires FlagsRight(fs, a, lists) && u in lists
    ensures var r := fs + [Friend(u, Flag(a in lists[u]))];
      Uids(r) == Uids(fs) + [u] && FlagsRight(r, a, lists)
  {
    AppendUids(fs, Friend(u, Flag(a in lists[u])));
  }

  /** `r` is `s` but for the flags of the list in memory. */
  predicate OnlyFlags(r: Record, s: Record) {
    r.slots == s.slots && r.count == s.count && r.loaded == s.loaded && (r.friends.Some? <==> s.friends.Some?)
  }

  /** Of the accounts other than `a`, at most the flags in their lists in memory change; none appears or goes. */
  ghost predicate Kept(recs: map<nat, Record>, was: map<nat, Record>, a: nat) {
    && (forall c :: c in recs <==> c in was)
    && forall c :: c in recs && c != a ==> OnlyFlags(recs[c], was[c])
  }

  lemma KeptTrans(recs: map<nat, Record>, mid: map<nat, Record>, was: map<nat, Record>, a: nat)
    requires Kept(recs, mid, a) && Kept(mid, was, a)
    ensures Kept(recs, was, a)
  {
  }

  /** account_unload_friends. */
  function Unloading(r: Record): Record {
    r.(friends := if r.friends.Some? then Some(Stale(r.friends.value)) else None, loaded := false)
  }

  // ---------- one account's list changes, the others look on ----------

  /** Nothing changes for account `c` unless it enters or leaves the list of `x`. */
  lemma GoodFrame(r: Record, c: nat, lists: Lists, x: nat, s: seq<nat>, max: nat)
    requires Good(r, c, lists, max) && c != x && x in lists && (c in s <==> c in lists[x])
    ensures Good(r, c, lists[x := s], max)
  {
  }

  lemma AllGoodFrame(recs: map<nat, Record>, r: Record, a: nat, lists: Lists, s: seq<nat>, max: nat)
    requires AllGood(recs, a, lists, max) && a in lists && forall c :: c in recs && c != a ==> (c in s <==> c in lists[a])
    ensures AllGood(recs[a := r], a, lists[a := s], max)
  {
    forall c | c in recs && c != a
      ensures Good(recs[c], c, lists[a := s], max)
    {
      GoodFrame(recs[c], c, lists, a, s, max);
    }
  }

  lemma AllGoodUpdate(recs: map<nat, Record>, a: nat, lists: Lists, b: nat, r: Record, max: nat)
    requires AllGood(recs, a, lists, max) && Good(r, b, lists, max)
    ensures AllGood(recs[b := r], a, lists, max)
  {
  }

  lemma FlagsReset(fs: seq<Friend>, c: nat, lists: Lists, x: nat, s: seq<nat>)
    requires FlagsRight(fs, c, lists) && x in lists && Distinct(Uids(fs))
    ensures FlagsRight(SetFlag(fs, x, Flag(c in s)), c, lists[x := s])
  {
    var t, k := SetFlag(fs, x, Flag(c in s)), IndexOf(Uids(fs), x);
    SetFlagAt(fs, x, Flag(c in s));
    forall i | 0 <= i < |fs|
      ensures t[i].uid in lists && t[i].mutual == Flag(c in lists[x := s][t[i].uid])
    {
      assert i == k || Uids(fs)[i] != x;
    }
  }

  /** ... or it has no entry for `x` that could become wrong. */
  lemma GoodUnlisted(r: Record, c: nat, lists: Lists, x: nat, s: seq<nat>, max: nat)
    requires Good(r, c, lists, max) && c != x && x in lists && (r.friends.None? || x !in lists[c])
    ensures Good(r, c, lists[x := s], max)
  {
    if r.loaded {
      var fs := r.friends.value;
      assert forall i :: 0 <= i < |fs| ==> fs[i].uid == Uids(fs)[i] && Uids(fs)[i] in lists[c];
    }
  }

  /** When it does, its entry for `x` must be flagged anew. */
  lemma GoodFlagged(r: Record, c: nat, lists: Lists, x: nat, s: seq<nat>, max: nat)
    requires Good(r, c, lists, max) && c != x && x in lists && r.friends.Some?
    ensures Good(r.(friends := Some(SetFlag(r.friends.value, x, Flag(c in s)))), c, lists[x := s], max)
  {
    SetFlagAt(r.friends.value, x, Flag(c in s));
    if r.loaded {
      FlagsReset(r.friends.value, c, lists, x, s);
    }
  }

  /** A list whose flags are all right is complete; purging it removes nothing. */
  lemma GoodLoaded(r: Record, a: nat, fs: seq<Friend>, lists: Lists, max: nat)
    requires |r.slots| == max && r.count <= max && a in lists && lists[a] == r.slots[..r.count]
    requires GoodList(lists[a], a, max) && Uids(fs) == lists[a] && FlagsRight(fs, a, lists)
    ensures Purged(fs) == fs && Resolved(lists[a], lists) == lists[a]
    ensures Good(r.(friends := Some(fs), loaded := true), a, lists, max)
  {
    forall u | u in lists[a]
      ensures u in lists
    {
      var k :| 0 <= k < |fs| && Uids(fs)[k] == u;
      assert fs[k].uid == u;
    }
    ResolvedSame(lists[a], lists);
    PurgeKeeps(fs, a, lists);
  }

  /** The record after account_load_friends. */
  function Finished(r: Record, newlist: bool, fs: seq<Friend>): Record {
    r.(friends := Some(if newlist then fs else Purged(fs)), loaded := true)
  }

  /** What account_check_mutual leaves of the record it searches for `x`. */
  function Checked(r: Record, x: nat): Record
    requires r.count <= |r.slots|
  {
    if x in r.slots[..r.count] && r.friends.Some? then r.(friends := Some(SetFlag(r.friends.value, x, IsMutual))) else r
  }

  lemma GoodChecked(r: Record, c: nat, lists: Lists, x: nat, s: seq<nat>, max: nat)
    requires Good(r, c, lists, max) && c != x && x in lists && c in s
    ensures Good(Checked(r, x), c, lists[x := s], max)
  {
    if x in lists[c] && r.friends.Some? {
      GoodFlagged(r, c, lists, x, s, max);
    } else {
      GoodUnlisted(r, c, lists, x, s, max);
    }
  }

  /** An entry flagged mutual truthfully may be flagged mutual again. */
  lemma GoodConfirmed(r: Record, c: nat, lists: Lists, x: nat, max: nat)
    requires Good(r, c, lists, max) && c != x && x in lists && c in lists[x]
    ensures Good(Checked(r, x), c, lists, max)
  {
    assert lists[x := lists[x]] == lists;
    GoodChecked(r, c, lists, x, lists[x], max);
  }

  /** The record after the writes of account_add_friend into slot `nf`. */
  function Appended(r: Record, nf: nat, b: nat, listed: bool): Record
    requires nf < |r.slots| && r.friends.Some?
  {
    Record(r.slots[nf := b], nf + 1, Some(r.friends.value + [Friend(b, Flag(listed))]), r.loaded)
  }

  /** A friend is appended to the slots and to the list in memory. */
  lemma GoodAppended(r: Record, a: nat, lists: Lists, b: nat, max: nat)
    requires Good(r, a, lists, max) && r.loaded && r.count < max && b != a && b != 0 && b in lists && b !in lists[a]
    ensures Good(Appended(r, r.count, b, a in lists[b]), a, lists[a := lists[a] + [b]], max)
  {
    AppendGood(lists[a], b, a, max);
    AppendUids(r.friends.value, Friend(b, Flag(a in lists[b])));
    assert r.slots[r.count := b][..r.count + 1] == r.slots[..r.count] + [b];
    assert forall i :: 0 <= i < r.count ==> r.friends.value[i].uid == lists[a][i];
  }

  /** account_remove_friend: the later slots move up and the count goes down. */
  function SlotRemoved(r: Record, i: nat): Record
    requires i < r.count <= |r.slots|
  {
    r.(slots := Shifted(r.slots, i, r.count), count := r.count - 1)
  }

  function Removed(r: Record, i: nat): Record
    requires i < r.count <= |r.slots| && r.friends.Some? && r.count == |r.friends.value|
  {
    SlotRemoved(r, i).(friends := Some(RemoveAt(r.friends.value, i)))
  }

  /** The record of an account that `x` no longer lists. */
  function Unlinked(r: Record, x: nat): Record
    requires r.friends.Some?
  {
    r.(friends := Some(SetFlag(r.friends.value, x, NotMutual)))
  }

  lemma KeptByAppend(recs: map<nat, Record>, a: nat, b: nat, nf: nat, listed: bool)
    requires a in recs && b in recs && nf < |recs[a].slots| && recs[a].friends.Some? && recs[b].count <= |recs[b].slots|
    ensures Kept(recs[b := Checked(recs[b], a)][a := Appended(recs[a], nf, b, listed)], recs, a)
  {
  }

  /** The i-th friend leaves both. */
  lemma GoodRemoved(r: Record, a: nat, lists: Lists, i: nat, max: nat)
    requires Good(r, a, lists, max) && r.loaded && i < r.count
    ensures |r.friends.value| == r.count
    ensures Good(Removed(r, i), a, lists[a := Without(lists[a], i)], max)
  {
    var fs := r.friends.value;
    assert |Uids(fs)| == |lists[a]| == r.count;
    ShiftedWithout(r.slots, i, r.count);
    WithoutGood(lists[a], i, a, max);
    RemoveAtUids(fs, i);
    RemoveAtFlags(fs, a, lists, i, Without(lists[a], i));
  }

  lemma RemoveAtFlags(fs: seq<Friend>, a: nat, lists: Lists, i: nat, s: seq<nat>)
    requires FlagsRight(fs, a, lists) && a !in Uids(fs) && i < |fs|
    ensures FlagsRight(RemoveAt(fs, i), a, lists[a := s])
  {
    FlagsElsewhere(fs, |fs|, a, lists, s);
    PartOfFlags(fs, RemoveAt(fs, i), a, lists[a := s], i);
  }

  lemma PartOfFlags(fs: seq<Friend>, r: seq<Friend>, a: nat, lists: Lists, i: nat)
    requires FlagsRight(fs, a, lists) && i < |fs| && r == RemoveAt(fs, i)
    ensures FlagsRight(r, a, lists)
  {
    forall k | 0 <= k < |r|
      ensures r[k].uid in lists && r[k].mutual == Flag(a in lists[r[k].uid])
    {
      var j := if k < i then k else k + 1;
      assert r[k] == fs[j];
    }
  }

  /** A uid without an account leaves the slots while they are looked up. */
  lemma LookedUpDropped(recs: map<nat, Record>, lists: Lists, max: nat, a: nat, i: nat, n: nat, fs: seq<Friend>)
    requires LookedUp(recs, lists, max, a, i, n, true, fs) && i < n && lists[a][i] !in lists
    requires forall c :: c in recs ==> c in lists
    ensures var t := Without(lists[a], i);
      && LookedUp(recs[a := SlotRemoved(recs[a], i)], lists[a := t], max, a, i, n - 1, true, fs)
      && Resolved(t, lists[a := t]) == Resolved(lists[a], lists)
  {
    var s, t := lists[a], Without(lists[a], i);
    DroppedList(s, i, a, lists, max);
    AllGoodFrame(recs, SlotRemoved(recs[a], i), a, lists, t, max);
    FlagsElsewhere(fs, i, a, lists, t);
    ShiftedWithout(recs[a].slots, i, n);
  }

  /** The list of `a` changes, `a` and one more account have new records, and nobody else notices. */
  lemma TwoChange(recs: map<nat, Record>, lists: Lists, a: nat, ra: Record, b: nat, rb: Record, s: seq<nat>, max: nat)
    requires a in recs && b in recs && a in lists && forall c :: c in recs ==> Good(recs[c], c, lists, max)
    requires forall c :: c != b ==> (c in s <==> c in lists[a])
    requires Good(ra, a, lists[a := s], max) && Good(rb, b, lists[a := s], max)
    ensures var after := recs[b := rb][a := ra];
      forall c :: c in after ==> Good(after[c], c, lists[a := s], max)
  {
    forall c | c in recs && c != a && c != b
      ensures Good(recs[c], c, lists[a := s], max)
    {
      GoodFrame(recs[c], c, lists, a, s, max);
    }
  }

  /** Two loaded accounts that list each other see each other as mutual. */
  lemma MutualIsSymmetric(ra: Record, a: nat, rb: Record, b: nat, lists: Lists, max: nat, i: nat, j: nat)
    requires Good(ra, a, lists, max) && Good(rb, b, lists, max) && ra.loaded && rb.loaded
    requires i < |lists[a]| && lists[a][i] == b && j < |lists[b]| && lists[b][j] == a
    ensures ra.friends.value[i] == Friend(b, IsMutual) && rb.friends.value[j] == Friend(a, IsMutual)
  {
    assert Uids(ra.friends.value)[i] == b && Uids(rb.friends.value)[j] == a;
  }

  /** After loading, an entry is flagged mutual if and only if that friend lists the account. */
  lemma MutualIff(r: Record, a: nat, lists: Lists, max: nat, i: nat)
    requires Good(r, a, lists, max) && r.loaded && i < r.count
    ensures r.friends.value[i].uid == lists[a][i] && lists[a][i] in lists
    ensures r.friends.value[i].mutual == if a in lists[lists[a][i]] then IsMutual else NotMutual
  {
    assert Uids(r.friends.value)[i] == r.friends.value[i].uid;
  }

  /** The slots after the removal of one of the first `n`: the freed last slot keeps its old value. */
  function Shifted(slots: seq<nat>, i: nat, n: nat): (r: seq<nat>)
    requires i < n <= |slots|
    ensures |r| == |slots|
  {
    slots[..i] + slots[i + 1..n] + slots[n - 1..]
  }

  /** The first n slots lose their i-th, and the place that gets free keeps its value. */
  lemma ShiftedWithout(slots: seq<nat>, i: nat, n: nat)
    requires i < n <= |slots|
    ensures Shifted(slots, i, n)[..n - 1] == Without(slots[..n], i)
    ensures Shifted(slots, i, n)[n - 1..] == slots[n - 1..]
  {
  }

  /** The slots have moved up to `n`. */
  function Moved(r: Record, f: nat, n: nat): Record
    requires f < n <= |r.slots|
  {
    r.(slots := Shifted(r.slots, f, n))
  }

  lemma ShiftedStart(slots: seq<nat>, f: nat)
    requires f < |slots|
    ensures Shifted(slots, f, f + 1) == slots
  {
  }

  lemma ShiftedStep(slots: seq<nat>, f: nat, i: nat)
    requires f <= i && i + 1 < |slots|
    ensures Shifted(slots, f, i + 1)[i + 1] == slots[i + 1]
    ensures Shifted(slots, f, i + 1)[i := slots[i + 1]] == Shifted(slots, f, i + 2)
  {
  }
}
