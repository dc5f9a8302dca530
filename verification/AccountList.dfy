/** The account list and its two hash tables, updated in place (src/bnetd/account.cpp, src/common/hashtable.cpp). */
module AccountList {
  import opened Common
  import opened FixedWidth
  import opened DecimalText
  import opened AccountHash
  import opened StrToUint
  import opened AccountNames
  import opened AccountIndex

  class HashTable {
    const rows: array<seq<Account>>
    var len: nat

    constructor (numRows: nat)
      requires numRows > 0
      ensures fresh(rows) && rows.Length == numRows && len == 0
      ensures forall r :: 0 <= r < numRows ==> rows[r] == []
    {
      rows := new seq<Account>[numRows](_ => []);
      len := 0;
    }

    /** The rows are those of the list `accounts`, which holds `len` accounts. */
    ghost predicate Holds(accounts: seq<Account>, key: Key)
      reads this, rows
    {
      && rows.Length > 0
      && len == |accounts|
      && forall r :: 0 <= r < rows.Length ==> rows[r] == Bucket(accounts, key, r, rows.Length)
    }

    /** hashtable_insert_data: the new entry becomes the head of its row. */
    method Insert(a: Account, key: Key, ghost accounts: seq<Account>)
      requires Holds(accounts, key)
      modifies this, rows
      ensures Holds([a] + accounts, key)
    {
      var row := RowOf(KeyOf(a, key), rows.Length);
      ghost var was := rows[..];
      rows[row] := [a] + rows[row];
      len := len + 1;
      ghost var now := [a] + accounts;
      forall r | 0 <= r < rows.Length
        ensures rows[r] == Bucket(now, key, r, rows.Length)
      {
        assert now[0] == a && now[1..] == accounts;
        BucketStep(now, key, r, rows.Length);
        assert was[r] == Bucket(accounts, key, r, rows.Length);
      }
    }

    /** The traversal of one row with strcasecmp. */
    method FindName(name: string, namehash: nat, ghost accounts: seq<Account>) returns (r: Option<Account>)
      requires Holds(accounts, ByName) && namehash == NameHash(name)
      requires forall a :: a in accounts ==> a.namehash == NameHash(a.name)
      ensures r == ScanName(accounts, name)
    {
      var row := rows[RowOf(namehash, rows.Length)];
      BucketFindsName(accounts, name, rows.Length);
      var i := 0;
      while i < |row|
        invariant 0 <= i <= |row| && ScanName(row[i..], name) == ScanName(accounts, name)
      {
        assert row[i..][1..] == row[i + 1..];
        if Lower(row[i].name) == Lower(name) {
          return Some(row[i]);
        }
        i := i + 1;
      }
      r := None;
    }

    method FindUid(uid: nat, ghost accounts: seq<Account>) returns (r: Option<Account>)
      requires Holds(accounts, ByUid)
      ensures r == ScanUid(accounts, uid)
    {
      var row := rows[RowOf(uid, rows.Length)];
      BucketFindsUid(accounts, uid, rows.Length);
      var i := 0;
      while i < |row|
        invariant 0 <= i <= |row| && ScanUid(row[i..], uid) == ScanUid(accounts, uid)
      {
        assert row[i..][1..] == row[i + 1..];
        if row[i].uid == uid {
          return Some(row[i]);
        }
        i := i + 1;
      }
      r := None;
    }
  }

  class Accounts {
    const names: HashTable
    const uids: HashTable
    var maxuserid: uint32
    ghost var accounts: seq<Account>

    ghost function Contents(): State
      reads this
    {
      State(accounts, maxuserid as nat)
    }

    /** Both tables hold the same accounts, and these are consistent. */
    ghost predicate Valid()
      reads this, names, names.rows, uids, uids.rows
    {
      && names != uids && names.rows != uids.rows
      && names.Holds(accounts, ByName)
      && uids.Holds(accounts, ByUid)
      && Consistent(Contents())
    }

    constructor (numRows: nat)
      requires numRows > 0
      ensures Valid() && Contents() == State([], 0)
      ensures fresh(names) && fresh(uids) && fresh(names.rows) && fresh(uids.rows)
    {
      names := new HashTable(numRows);
      uids := new HashTable(numRows);
      maxuserid := 0;
      accounts := [];
    }

    /** accountlist_create takes the counter over from the storage, which knows at least the accounts loaded. */
    method SetMaxUserid(m: uint32)
      requires Valid() && forall a :: a in accounts ==> a.uid <= m as nat
      modifies this`maxuserid
      ensures Valid() && Contents() == State(old(accounts), m as nat)
    {
      maxuserid := m;
    }

    /** accountlist_allow_add, unless the addition is forced. */
    method AllowAdd(limit: nat, forced: bool) returns (ok: bool)
      requires Valid()
      ensures ok <==> forced || Allowed(limit, |accounts|)
      ensures ok <==> forced || limit == 0 || |accounts| < limit
    {
      if forced {
        return true;
      }
      if limit == 0 {
        return true;
      }
      if limit <= names.len {
        return false;
      }
      ok := true;
    }

    /** Whether the name or the uid is taken; the uid is looked up only up to maxuserid. */
    method Duplicate(name: string, namehash: nat, uid: uint32) returns (dup: bool)
      requires Valid() && namehash == NameHash(name)
      ensures dup <==> ScanUid(accounts, uid as nat).Some? || ScanName(accounts, name).Some?
    {
      if uid <= maxuserid {
        var u := uids.FindUid(uid as nat, accounts);
        if u.Some? {
          return true;
        }
      } else {
        AboveMaxIsFree(Contents(), uid as nat);
      }
      var n := names.FindName(name, namehash, accounts);
      dup := n.Some?;
    }

    method InsertBoth(a: Account)
      requires Valid() && Consistent(State([a] + accounts, if a.uid > maxuserid as nat then a.uid else maxuserid as nat))
      modifies this, names, names.rows, uids, uids.rows
      ensures Valid() && Contents() == State([a] + old(accounts), if a.uid > old(maxuserid) as nat then a.uid else old(maxuserid) as nat)
    {
      assert a in [a] + accounts;
      names.Insert(a, ByName, accounts);
      uids.Insert(a, ByUid, accounts);
      accounts := [a] + accounts;
      if a.uid > maxuserid as nat {
        maxuserid := a.uid as uint32;
      }
    }

    /** accountlist_add_account. */
    method AddAccount(name: string, uid: uint32, limit: nat, forced: bool) returns (r: Option<Account>)
      requires Valid()
      modifies this, names, names.rows, uids, uids.rows
      ensures Valid()
      ensures Contents() == Added(old(Contents()), name, uid as nat, forced || Allowed(limit, |old(accounts)|))
      ensures r == if Contents() == old(Contents()) then None else Some(accounts[0])
    {
      r := None;
      if |name| < 1 {
        return;
      }
      if uid < 1 {
        return;
      }
      var ok := AllowAdd(limit, forced);
      if !ok {
        return;
      }
      var namehash := Hash(name);
      var dup := Duplicate(name, namehash as nat, uid);
      if dup {
        return;
      }
      var a := Account(name, uid as nat, namehash as nat);
      AddedConsistent(Contents(), name, uid as nat, true);
      InsertBoth(a);
      r := Some(a);
    }

    /** account_load_new, given what the storage answers. */
    method LoadNew(answer: Option<Record>) returns (r: Option<Account>)
      requires Valid() && Fits(answer)
      modifies this, names, names.rows, uids, uids.rows
      ensures Valid() && (Contents(), r) == Loaded(old(Contents()), answer)
    {
      if answer.None? {
        return None;
      }
      r := AddAccount(answer.value.name, answer.value.uid as uint32, 0, true);
    }

    /** accountlist_find_account_by_uid. */
    method FindAccountByUid(uid: uint32, byUid: Option<Record>) returns (r: Option<Account>)
      requires Valid() && Fits(byUid)
      modifies this, names, names.rows, uids, uids.rows
      ensures Valid() && (Contents(), r) == FoundUid(old(Contents()), uid as nat, byUid)
    {
      if uid > 0 {
        r := uids.FindUid(uid as nat, accounts);
        if r.Some? {
          return;
        }
      }
      r := LoadNew(byUid);
    }

    /** The uid in a user name, 0 when there is none. */
    method ReadUid(name: string, prefs: Prefs) returns (uid: uint32)
      ensures uid as nat == UidIn(name, prefs)
    {
      var r := None;
      if name != [] && name[0] == '#' {
        r := Parse(name[1..]);
      } else if !prefs.saveByName {
        r := Parse(name);
      }
      uid := if r.Some? then r.value else 0;
    }

    /** The second half of accountlist_find_account: the memory, if it is searched by name, then the storage. */
    method FindAccountByName(name: string, searched: bool, symbols: string, byName: Option<Record>) returns (r: Option<Account>)
      requires Valid() && Fits(byName)
      modifies this, names, names.rows, uids, uids.rows
      ensures Valid() && (Contents(), r) == FoundName(old(Contents()), name, searched, symbols, byName)
    {
      if searched {
        var namehash := Hash(name);
        r := names.FindName(name, namehash as nat, accounts);
        if r.Some? {
          return;
        }
      }
      var code := CheckName(name, symbols);
      if code != 0 {
        return None;
      }
      r := LoadNew(byName);
    }

    /** accountlist_find_account. */
    method FindAccount(name: string, prefs: Prefs, byUid: Option<Record>, byName: Option<Record>)
      returns (r: Option<Account>)
      requires Valid() && Fits(byUid) && Fits(byName)
      modifies this, names, names.rows, uids, uids.rows
      ensures Valid() && (Contents(), r) == Found(old(Contents()), name, prefs, byUid, byName)
      ensures forall a :: a in old(accounts) && Lower(a.name) == Lower(name) && UidIn(name, prefs) == 0 ==>
        r == Some(a) && Contents() == old(Contents())
      ensures forall a :: a in old(accounts) && (a.uid == UidIn(name, prefs) || name == ['#'] + Decimal(a.uid)) ==>
        r == Some(a) && Contents() == old(Contents())
    {
      KnownIsReturned(Contents(), name, prefs, byUid, byName);
      var uid := ReadUid(name, prefs);
      if uid > 0 {
        r := FindAccountByUid(uid, byUid);
        if r.Some? {
          return;
        }
      }
      r := FindAccountByName(name, uid == 0 || (name != [] && (name[0] == '#' || IsDigit(name[0]))), prefs.symbols, byName);
    }

    /** accountlist_create_account: the uid is the 32-bit sum maxuserid + 1. */
    method CreateAccount(name: string, prefs: Prefs, byUid: Option<Record>, byName: Option<Record>)
      returns (r: Option<Account>)
      requires Valid() && Fits(byUid) && Fits(byName)
      modifies this, names, names.rows, uids, uids.rows
      ensures Valid() && Contents() == Created(old(Contents()), name, prefs, byUid, byName)
      ensures !Acceptable(name, prefs.symbols) ==> r == None
      ensures Acceptable(name, prefs.symbols) ==>
        var (t, found) := Found(old(Contents()), name, prefs, byUid, byName);
        r == if found.Some? || Contents() == t then None else Some(accounts[0])
    {
      var code := CheckName(name, prefs.symbols);
      if code != 0 {
        return None;
      }
      var found := FindAccount(name, prefs, byUid, byName);
      if found.Some? {
        return None;
      }
      var uid := NextUid(maxuserid as nat) as uint32;
      r := AddAccount(name, uid, prefs.limit, false);
    }
  }
}
