/** Friend lists of all accounts, updated in place (src/bnetd/account_wrap.cpp, src/bnetd/account.cpp). */
module FriendBook {
  import opened Common
  import opened FriendLists

  class Book {
    const maxFriends: nat
    var recs: map<nat, Record>
    /** The stored uids of every account. */
    ghost var lists: Lists

    ghost predicate Known()
      reads this
    {
      0 !in recs && forall c :: c in recs <==> c in lists
    }

    ghost predicate GoodExcept(a: nat)
      reads this
    {
      Known() && AllGood(recs, a, lists, maxFriends)
    }

    ghost predicate Valid()
      reads this
    {
      Known() && forall c :: c in recs ==> Good(recs[c], c, lists, maxFriends)
    }

    // ---------- slots ----------

    method SetFriend(a: nat, num: int, uid: nat) returns (code: int)
      requires a in recs && |recs[a].slots| == maxFriends
      modifies this`recs
      ensures code == if uid == 0 || !(0 <= num < maxFriends) then -1 else 0
      ensures recs == if code == 0 then old(recs)[a := old(recs)[a].(slots := old(recs)[a].slots[num := uid])] else old(recs)
    {
      if uid == 0 || num < 0 || num >= maxFriends {
        return -1;
      }
      recs := recs[a := recs[a].(slots := recs[a].slots[num := uid])];
      code := 0;
    }

    method GetFriend(a: nat, num: int) returns (uid: nat)
      requires a in recs && |recs[a].slots| == maxFriends
      ensures uid == if 0 <= num < maxFriends then recs[a].slots[num] else 0
    {
      if num < 0 || num >= maxFriends {
        return 0;
      }
      uid := recs[a].slots[num];
    }

    method SetFriendCount(a: nat, count: int) returns (code: int)
      requires a in recs
      modifies this`recs
      ensures code == if 0 <= count <= maxFriends then 0 else -1
      ensures recs == if code == 0 then old(recs)[a := old(recs)[a].(count := count)] else old(recs)
    {
      if count < 0 || count > maxFriends {
        return -1;
      }
      recs := recs[a := recs[a].(count := count)];
      code := 0;
    }

    /** account_remove_friend: the later slots move up in order; writing 0 to the last one is refused. */
    method RemoveFriend(a: nat, friendnum: int) returns (code: int)
      requires a in recs && |recs[a].slots| == maxFriends && recs[a].count <= maxFriends
      requires 0 !in recs[a].slots[..recs[a].count]
      modifies this`recs
      ensures code == if 0 <= friendnum < old(recs)[a].count then 0 else -1
      ensures code == 0 ==> recs == old(recs)[a := SlotRemoved(old(recs)[a], friendnum)]
      ensures code != 0 ==> recs == old(recs)
    {
      var n := recs[a].count;
      if friendnum < 0 || friendnum >= n {
        return -1;
      }
      ShiftDown(a, friendnum, n);
      var _ := SetFriend(a, n - 1, 0);
      code := SetFriendCount(a, n - 1);
    }

    /** The loop of account_remove_friend. */
    method ShiftDown(a: nat, f: nat, n: nat)
      requires a in recs && |recs[a].slots| == maxFriends && f < n <= maxFriends
      requires 0 !in recs[a].slots[..n]
      modifies this`recs
      ensures recs == old(recs)[a := Moved(old(recs)[a], f, n)]
    {
      ghost var was: map<nat, Record> := recs;
      var i := f;
      ShiftedStart(recs[a].slots, f);
      while i < n - 1
        invariant f <= i <= n - 1
        invariant recs == was[a := Moved(was[a], f, i + 1)]
      {
        assert was[a].slots[i + 1] == was[a].slots[..n][i + 1];
        ShiftOne(a, f, i, was);
        i := i + 1;
      }
    }

    method ShiftOne(a: nat, f: nat, i: nat, ghost was: map<nat, Record>)
      requires a in was && |was[a].slots| == maxFriends && f <= i && i + 1 < maxFriends && was[a].slots[i + 1] != 0
      requires recs == was[a := Moved(was[a], f, i + 1)]
      modifies this`recs
      ensures recs == was[a := Moved(was[a], f, i + 2)]
    {
      ShiftedStep(was[a].slots, f, i);
      var next := GetFriend(a, i + 1);
      var _ := SetFriend(a, i, next);
    }

    // ---------- lists in memory ----------

    /** friendlist_find_uid, by position; |fs| when there is no such entry. */
    method FindUid(fs: seq<Friend>, uid: nat) returns (i: nat)
      ensures i == IndexOf(Uids(fs), uid)
    {
      i := 0;
      while i < |fs| && fs[i].uid != uid
        invariant i <= |fs| && forall k :: 0 <= k < i ==> fs[k].uid != uid
      {
        i := i + 1;
      }
      assert forall k :: 0 <= k < |fs| ==> Uids(fs)[k] == fs[k].uid;
    }

    /** account_check_mutual: whether `b` lists `a`; an entry found in memory is flagged mutual on the way. */
    method CheckMutual(b: nat, a: nat) returns (listed: bool)
      requires b in recs && |recs[b].slots| == maxFriends && recs[b].count <= maxFriends && a != 0
      requires 0 !in recs[b].slots[..recs[b].count]
      requires recs[b].friends.Some? ==> Uids(recs[b].friends.value) == recs[b].slots[..recs[b].count]
      modifies this`recs
      ensures listed <==> a in old(recs)[b].slots[..old(recs)[b].count]
      ensures recs == old(recs)[b := Checked(old(recs)[b], a)]
    {
      if recs[b].friends.Some? {
        var fs := recs[b].friends.value;
        var k := FindUid(fs, a);
        if k < |fs| {
          recs := recs[b := recs[b].(friends := Some(SetFlag(fs, a, IsMutual)))];
          return true;
        }
      } else {
        var n: nat := recs[b].count;
        var i := 0;
        ghost var stored := recs[b].slots[..n];
        while i < n
          invariant 0 <= i <= n && recs == old(recs) && a !in stored[..i]
        {
          assert stored[i] == recs[b].slots[i] && stored[..i + 1] == stored[..i] + [stored[i]];
          var uid := GetFriend(b, i);
          if uid == a {
            return true;
          }
          i := i + 1;
        }
        assert stored[..n] == stored;
      }
      listed := false;
    }

    /** CheckMutual while `b` is on the list of `a`: no flag becomes wrong. */
    method CheckListed(b: nat, a: nat) returns (listed: bool)
      requires GoodExcept(a) && a in recs && b in recs && b != a && b in lists[a]
      modifies this`recs
      ensures GoodExcept(a) && recs[a] == old(recs)[a] && Kept(recs, old(recs), a)
      ensures listed <==> a in lists[b]
    {
      ghost var r := recs[b];
      GoodConfirmed(r, b, lists, a, maxFriends);
      AllGoodUpdate(recs, a, lists, b, Checked(r, a), maxFriends);
      listed := CheckMutual(b, a);
    }

    // ---------- loading ----------

    /** The first `i` of the `n` stored uids of `a` have been looked up. */
    ghost predicate Loading(a: nat, i: nat, n: nat, newlist: bool, flist: seq<Friend>)
      reads this
    {
      Known() && LookedUp(recs, lists, maxFriends, a, i, n, newlist, flist)
    }

    /** A uid without an account leaves the slots; no list in memory ever held it. */
    method DropSlot(a: nat, i: nat, n: nat, flist: seq<Friend>)
      requires Loading(a, i, n, true, flist) && i < n && lists[a][i] !in recs
      modifies this
      ensures Loading(a, i, n - 1, true, flist) && Kept(recs, old(recs), a)
      ensures lists == old(lists)[a := lists[a]]
      ensures Resolved(lists[a], lists) == Resolved(old(lists)[a], old(lists))
    {
      LookedUpDropped(recs, lists, maxFriends, a, i, n, flist);
      var _ := RemoveFriend(a, i);
      lists := lists[a := Without(lists[a], i)];
    }

    /** An account that is not on the list in memory yet is appended. */
    method AppendLoaded(a: nat, i: nat, n: nat, uid: nat, flist: seq<Friend>) returns (r: seq<Friend>)
      requires Loading(a, i, n, true, flist) && i < n && lists[a][i] == uid && uid in recs
      modifies this`recs
      ensures Loading(a, i + 1, n, true, r) && Kept(recs, old(recs), a) && recs[a] == old(recs)[a]
    {
      ghost var s := lists[a];
      var listed := CheckListed(uid, a);
      r := flist + [Friend(uid, Flag(listed))];
      assert |Uids(flist)| == i && s[..i + 1] == s[..i] + [uid];
      FlagsAppended(flist, uid, a, lists);
    }

    /** An account that is on it is flagged anew; a list that was unloaded still holds every stored uid. */
    method UpdateLoaded(a: nat, i: nat, n: nat, uid: nat, flist: seq<Friend>) returns (r: seq<Friend>)
      requires Loading(a, i, n, false, flist) && i < n && lists[a][i] == uid
      modifies this`recs
      ensures Loading(a, i + 1, n, false, r) && Kept(recs, old(recs), a) && recs[a] == old(recs)[a]
    {
      assert Uids(flist)[i] == flist[i].uid == uid && uid in lists[a];
      var k := FindUid(flist, uid);
      var listed := CheckListed(flist[k].uid, a);
      r := SetFlag(flist, uid, Flag(listed));
      FlagsUpdated(flist, lists[a], i, a, lists);
    }

    /** account_load_friends: afterwards the slots hold the uids that name an account, in their old order. */
    method LoadFriends(a: nat)
      requires Valid() && a in recs
      modifies this
      ensures Valid() && Kept(recs, old(recs), a) && recs[a].loaded
      ensures lists == old(lists)[a := Resolved(old(lists)[a], old(lists))]
    {
      if recs[a].loaded {
        ResolvedSame(lists[a], lists);
        return;
      }
      LoadSlots(a);
    }

    method LoadSlots(a: nat)
      requires Valid() && a in recs && !recs[a].loaded
      modifies this
      ensures Valid() && Kept(recs, old(recs), a) && recs[a].loaded
      ensures lists == old(lists)[a := Resolved(old(lists)[a], old(lists))]
    {
      ghost var base, was := lists, recs;
      var n, newlist, flist := LookUpSlots(a);
      ghost var mid := recs;
      FinishLoading(a, n, newlist, flist);
      KeptTrans(recs, mid, was, a);
      UpdateTwice(base, a, lists[a], lists[a]);
    }

    /** The loop of account_load_friends. */
    method LookUpSlots(a: nat) returns (n: nat, newlist: bool, flist: seq<Friend>)
      requires Valid() && a in recs && !recs[a].loaded
      modifies this
      ensures Loading(a, n, n, newlist, flist) && Kept(recs, old(recs), a) && OnlyLoses(old(lists), a)
    {
      newlist := recs[a].friends.None?;
      flist := if newlist then [] else recs[a].friends.value;
      n := recs[a].count;
      var i: nat := 0;
      ghost var base: Lists, was: map<nat, Record> := lists, recs;
      while i < n
        invariant Loading(a, i, n, newlist, flist) && Kept(recs, was, a) && OnlyLoses(base, a)
        decreases n - i
      {
        i, n, flist := LoadOne(a, i, n, newlist, flist, base, was);
      }
    }

    /** So far only uids without an account have left the list of `a`. */
    ghost predicate OnlyLoses(base: Lists, a: nat)
      reads this
    {
      a in lists && a in base && lists == base[a := lists[a]] && Resolved(lists[a], lists) == Resolved(base[a], base)
    }

    method LoadOne(a: nat, i: nat, n: nat, newlist: bool, flist: seq<Friend>,
                   ghost base: Lists, ghost was: map<nat, Record>)
      returns (i': nat, n': nat, flist': seq<Friend>)
      requires Loading(a, i, n, newlist, flist) && i < n && Kept(recs, was, a) && OnlyLoses(base, a)
      modifies this
      ensures Loading(a, i', n', newlist, flist') && Kept(recs, was, a) && OnlyLoses(base, a)
      ensures n' - i' < n - i
    {
      i', n', flist' := i + 1, n, flist;
      var uid := GetFriend(a, i);
      assert uid == lists[a][i];
      if !newlist {
        flist' := UpdateLoaded(a, i, n, uid, flist);
      } else if uid in recs {
        flist' := AppendLoaded(a, i, n, uid, flist);
      } else {
        ghost var s := lists[a];
        DropSlot(a, i, n, flist);
        UpdateTwice(base, a, s, lists[a]);
        i', n' := i, n - 1;
      }
      KeptTrans(recs, old(recs), was, a);
    }

    method FinishLoading(a: nat, n: nat, newlist: bool, flist: seq<Friend>)
      requires Loading(a, n, n, newlist, flist)
      modifies this`recs
      ensures Valid() && recs == old(recs)[a := recs[a]] && Kept(recs, old(recs), a) && recs[a].loaded
      ensures lists[a] == Resolved(lists[a], lists)
    {
      LoadingDone(a, n, newlist, flist);
      recs := recs[a := Finished(recs[a], newlist, flist)];
    }

    lemma LoadingDone(a: nat, n: nat, newlist: bool, flist: seq<Friend>)
      requires Loading(a, n, n, newlist, flist)
      ensures Good(Finished(recs[a], newlist, flist), a, lists, maxFriends) && lists[a] == Resolved(lists[a], lists)
    {
      assert lists[a][..n] == lists[a] && |Uids(flist)| == n;
      GoodLoaded(recs[a], a, flist, lists, maxFriends);
    }

    /** account_unload_friends. */
    method UnloadFriends(a: nat)
      requires Valid() && a in recs
      modifies this`recs
      ensures Valid() && !recs[a].loaded
      ensures recs == old(recs)[a := Unloading(old(recs)[a])]
    {
      var r := recs[a];
      recs := recs[a := r.(friends := if r.friends.Some? then Some(Stale(r.friends.value)) else None, loaded := false)];
    }

    // ---------- adding and removing ----------

    /** The list in memory of `a`, loaded when it is not. */
    method GetFriends(a: nat) returns (flist: seq<Friend>)
      requires Valid() && a in recs
      modifies this
      ensures Valid() && Kept(recs, old(recs), a) && recs[a].loaded && flist == recs[a].friends.value
      ensures lists == old(lists)[a := Resolved(old(lists)[a], old(lists))]
    {
      LoadFriends(a);
      flist := recs[a].friends.value;
    }

    /**
     * account_add_friend: the new friend joins the end of the stored uids and of the list in memory, and both sides'
     * flags become right. Loading may drop stored uids after their number was read: then, and only then, the slots
     * and the list no longer agree.
     */
    method AddFriend(a: nat, b: nat) returns (code: int)
      requires Valid() && a in recs && b in recs
      modifies this
      ensures code == if a == b then -2 else if old(|lists[a]|) >= maxFriends then -3
                      else if b in old(lists[a]) then -4 else 0
      ensures code == -2 || code == -3 ==> recs == old(recs) && lists == old(lists)
      ensures code == -4 ==> Valid() && lists == old(lists)[a := Resolved(old(lists)[a], old(lists))]
      ensures Kept(recs, old(recs), a) && (code == -4 || code == 0 ==> recs[a].loaded)
      ensures code == 0 && Resolves(old(lists)[a], old(lists)) ==>
        Valid() && lists == old(lists)[a := old(lists)[a] + [b]]
      ensures code == 0 && !Resolves(old(lists)[a], old(lists)) ==>
        a in recs && recs[a].friends.Some? && |recs[a].friends.value| < recs[a].count
    {
      if a == b {
        return -2;
      }
      var nf := recs[a].count;
      if nf >= maxFriends {
        return -3;
      }
      code := AddToList(a, b, nf);
    }

    /** account_add_friend with the list in hand. */
    method AddToList(a: nat, b: nat, nf: nat) returns (code: int)
      requires Valid() && a in recs && b in recs && a != b && nf == |lists[a]| < maxFriends
      modifies this
      ensures code == if b in old(lists)[a] then -4 else 0
      ensures Kept(recs, old(recs), a) && recs[a].loaded
      ensures code == -4 ==> Valid() && lists == old(lists)[a := Resolved(old(lists)[a], old(lists))]
      ensures code == 0 && Resolves(old(lists)[a], old(lists)) ==>
        Valid() && lists == old(lists)[a := old(lists)[a] + [b]]
      ensures code == 0 && !Resolves(old(lists)[a], old(lists)) ==>
        recs[a].friends.Some? && |recs[a].friends.value| < recs[a].count
    {
      ghost var was := recs;
      var n, k := FindFriend(a, b);
      if k < n {
        return -4;
      }
      ghost var mid := recs;
      AppendFriend(a, b, nf);
      KeptTrans(recs, mid, was, a);
      code := 0;
    }

    /** The new friend is right behind the last stored one, unless loading has dropped some since `nf` was read. */
    method AppendFriend(a: nat, b: nat, nf: nat)
      requires Valid() && a in recs && b in recs && a != b && recs[a].loaded
      requires recs[a].count <= nf < maxFriends && b !in lists[a]
      modifies this
      ensures Kept(recs, old(recs), a) && recs[a].loaded && recs[a].friends.Some?
      ensures nf == old(recs)[a].count ==> Valid() && lists == old(lists)[a := old(lists)[a] + [b]]
      ensures nf > old(recs)[a].count ==> |recs[a].friends.value| < recs[a].count
    {
      ghost var n := recs[a].count;
      ghost var s := lists[a] + [b];
      if nf == n {
        AppendKeeps(a, b);
      }
      assert |Uids(recs[a].friends.value)| == n;
      KeptByAppend(recs, a, b, nf, a in lists[b]);
      AppendRecord(a, b, nf);
      if nf == n {
        lists := lists[a := s];
      }
    }

    /** The position of `b` in the list in memory of `a`, and the length of that list. */
    method FindFriend(a: nat, b: nat) returns (n: nat, k: nat)
      requires Valid() && a in recs && b in recs
      modifies this
      ensures Valid() && Kept(recs, old(recs), a) && recs[a].loaded && n == recs[a].count
      ensures k < n <==> b in lists[a]
      ensures k < n <==> b in old(lists)[a]
      ensures lists == old(lists)[a := Resolved(old(lists)[a], old(lists))]
      ensures n <= |old(lists)[a]|
      ensures if Resolves(old(lists)[a], old(lists)) then lists == old(lists) else n < |old(lists)[a]|
    {
      ghost var was := lists;
      ResolvedShorter(was[a], was);
      ResolvedHolds(was[a], was, b);
      if Resolves(was[a], was) {
        ResolvedSame(was[a], was);
        assert was[a := was[a]] == was;
      }
      var flist := GetFriends(a);
      assert Uids(flist) == lists[a];
      k := FindUid(flist, b);
      n := |flist|;
    }

    lemma AppendKeeps(a: nat, b: nat)
      requires Valid() && a in recs && b in recs && a != b && recs[a].loaded
      requires recs[a].count < maxFriends && b !in lists[a]
      ensures var after: map<nat, Record> := recs[b := Checked(recs[b], a)];
        var both := after[a := Appended(recs[a], recs[a].count, b, a in lists[b])];
        forall c :: c in both ==> Good(both[c], c, lists[a := lists[a] + [b]], maxFriends)
    {
      var s := lists[a] + [b];
      GoodAppended(recs[a], a, lists, b, maxFriends);
      GoodChecked(recs[b], b, lists, a, s, maxFriends);
      TwoChange(recs, lists, a, Appended(recs[a], recs[a].count, b, a in lists[b]), b, Checked(recs[b], a), s, maxFriends);
    }

    method WriteSlot(a: nat, nf: nat, b: nat)
      requires a in recs && |recs[a].slots| == maxFriends && nf < maxFriends && b != 0
      modifies this`recs
      ensures recs == old(recs)[a := old(recs)[a].(slots := old(recs)[a].slots[nf := b], count := nf + 1)]
    {
      var _ := SetFriend(a, nf, b);
      var _ := SetFriendCount(a, nf + 1);
    }

    /** The writes of account_add_friend, the slot number having been read before the list was loaded. */
    method AppendRecord(a: nat, b: nat, nf: nat)
      requires Valid() && a in recs && b in recs && a != b && recs[a].friends.Some? && nf < maxFriends
      modifies this`recs
      ensures recs == old(recs)[b := Checked(old(recs)[b], a)][a := Appended(old(recs)[a], nf, b, a in lists[b])]
    {
      WriteSlot(a, nf, b);
      var listed := CheckMutual(b, a);
      recs := recs[a := recs[a].(friends := Some(recs[a].friends.value + [Friend(b, Flag(listed))]))];
    }

    /** The slot that holds `uid`. */
    method FindSlot(a: nat, uid: nat) returns (i: nat)
      requires Valid() && a in recs
      ensures i == IndexOf(lists[a], uid)
    {
      i := 0;
      var n: nat := recs[a].count;
      while i < n
        invariant i <= n && uid !in lists[a][..i]
      {
        assert lists[a][i] == recs[a].slots[i] && lists[a][..i + 1] == lists[a][..i] + [lists[a][i]];
        var u := GetFriend(a, i);
        if u == uid {
          assert forall k :: 0 <= k < i ==> lists[a][k] in lists[a][..i];
          return;
        }
        i := i + 1;
      }
      assert lists[a][..n] == lists[a];
    }

    /**
     * account_remove_friend2: one position leaves the stored uids and the list in memory, the order of the others
     * stays, and the former friend's entry for this account is no longer mutual.
     */
    method RemoveFriend2(a: nat, b: nat) returns (code: int)
      requires Valid() && a in recs
      modifies this
      ensures Valid()
      ensures var s := Resolved(old(lists)[a], old(lists)); var i := IndexOf(s, b);
        if i == |s| then code == -2 && lists == old(lists)[a := s]
        else code == i && b in old(lists) &&
             lists == old(lists)[a := s][b := Resolved(old(lists)[b], old(lists))][a := Without(s, i)]
    {
      ghost var was := lists;
      var flist := GetFriends(a);
      var k := FindUid(flist, b);
      if k == |flist| {
        return -2;
      }
      assert b in lists[a];
      var i := FindSlot(a, b);
      ghost var one := lists;
      LoadFriends(b);
      ResolvedOnlyKeys(one[b], one, was);
      DeleteFriend(a, b, i);
      code := i;
    }

    /** The writes of account_remove_friend2. */
    method DeleteFriend(a: nat, b: nat, i: nat)
      requires Valid() && a in recs && b in recs && a != b && recs[a].loaded && recs[b].loaded
      requires i < |lists[a]| && lists[a][i] == b
      modifies this
      ensures Valid() && lists == old(lists)[a := Without(old(lists)[a], i)]
    {
      ghost var was: map<nat, Record> := recs;
      ghost var ra, rb, s := recs[a], recs[b], Without(lists[a], i);
      WithoutGood(lists[a], i, a, maxFriends);
      GoodRemoved(ra, a, lists, i, maxFriends);
      GoodFlagged(rb, b, lists, a, s, maxFriends);
      TwoChange(was, lists, a, Removed(ra, i), b, Unlinked(rb, a), s, maxFriends);
      DeleteRecord(a, b, i);
      lists := lists[a := s];
    }

    method DeleteRecord(a: nat, b: nat, i: nat)
      requires Valid() && a in recs && b in recs && a != b && recs[a].friends.Some? && recs[b].friends.Some?
      requires i < recs[a].count == |recs[a].friends.value|
      modifies this`recs
      ensures recs == old(recs)[b := Unlinked(old(recs)[b], a)][a := Removed(old(recs)[a], i)]
    {
      var _ := RemoveFriend(a, i);
      ClearMutual(b, a);
      recs := recs[a := recs[a].(friends := Some(RemoveAt(recs[a].friends.value, i)))];
    }

    method ClearMutual(b: nat, a: nat)
      requires b in recs && recs[b].friends.Some?
      modifies this`recs
      ensures recs == old(recs)[b := Unlinked(old(recs)[b], a)]
    {
      var fflist := recs[b].friends.value;
      var k := FindUid(fflist, a);
      if k < |fflist| {
        recs := recs[b := recs[b].(friends := Some(SetFlag(fflist, a, NotMutual)))];
      } else {
        SetFlagAbsent(fflist, a, NotMutual);
      }
    }

    // ---------- the accounts ----------

    constructor (maxFriends: nat)
      ensures Valid() && this.maxFriends == maxFriends && lists == map[]
    {
      this.maxFriends := maxFriends;
      recs := map[];
      lists := map[];
    }

    /** An account enters memory with its stored slots, of which nothing is loaded yet. */
    method Register(a: nat, slots: seq<nat>, count: nat)
      requires Valid() && a !in recs && a != 0
      requires |slots| == maxFriends && count <= maxFriends && GoodList(slots[..count], a, maxFriends)
      modifies this
      ensures Valid() && lists == old(lists)[a := slots[..count]]
    {
      recs := recs[a := Record(slots, count, None, false)];
      lists := lists[a := slots[..count]];
    }
  }
}
