/** Accounts in memory as one list, and what the two hash indexes of src/bnetd/account.cpp must make of it. */
module AccountIndex {
  import opened Common
  import opened DecimalText
  import opened AccountHash
  import opened StrToUint
  import opened AccountNames

  datatype Account = Account(name: string, uid: nat, namehash: nat)

  /** All accounts, the newest first, and the largest uid given out. */
  datatype State = State(accounts: seq<Account>, maxuserid: nat)

  ghost predicate Consistent(s: State) {
    && s.maxuserid <= UINT_MAX
    && (forall a :: a in s.accounts ==> a.name != [] && 0 < a.uid <= s.maxuserid && a.namehash == NameHash(a.name))
    && Unique(s.accounts)
  }

  /** Names are unique up to case, and so are uids. */
  ghost predicate Unique(accounts: seq<Account>) {
    forall i, j :: 0 <= i < j < |accounts| ==>
      accounts[i].uid != accounts[j].uid && Lower(accounts[i].name) != Lower(accounts[j].name)
  }

  // ---------- full scans ----------

  function ScanName(accounts: seq<Account>, name: string): (r: Option<Account>)
    ensures r.Some? ==> r.value in accounts && Lower(r.value.name) == Lower(name)
    ensures r.None? ==> forall a :: a in accounts ==> Lower(a.name) != Lower(name)
  {
    if accounts == [] then None
    else if Lower(accounts[0].name) == Lower(name) then Some(accounts[0])
    else ScanName(accounts[1..], name)
  }

  function ScanUid(accounts: seq<Account>, uid: nat): (r: Option<Account>)
    ensures r.Some? ==> r.value in accounts && r.value.uid == uid
    ensures r.None? ==> forall a :: a in accounts ==> a.uid != uid
  {
    if accounts == [] then None
    else if accounts[0].uid == uid then Some(accounts[0])
    else ScanUid(accounts[1..], uid)
  }

  // ---------- rows of a hash table ----------

  datatype Key = ByName | ByUid

  function KeyOf(a: Account, key: Key): nat {
    if key.ByName? then a.namehash else a.uid
  }

  /** The row that a hash selects. */
  function RowOf(hash: nat, n: nat): (r: nat)
    requires n > 0
    ensures r < n
  {
    hash % n
  }

  /** The accounts of one row, in list order. */
  function Bucket(accounts: seq<Account>, key: Key, row: nat, n: nat): seq<Account>
    requires n > 0
  {
    if accounts == [] then []
    else if RowOf(KeyOf(accounts[0], key), n) == row then [accounts[0]] + Bucket(accounts[1..], key, row, n)
    else Bucket(accounts[1..], key, row, n)
  }

  lemma {:induction false} BucketHolds(accounts: seq<Account>, key: Key, row: nat, n: nat, a: Account)
    requires n > 0
    ensures a in Bucket(accounts, key, row, n) <==> a in accounts && RowOf(KeyOf(a, key), n) == row
  {
    if accounts != [] {
      BucketHolds(accounts[1..], key, row, n, a);
    }
  }

  /** The row of a name finds what a scan of all accounts finds: the hash agrees on names that compare equal. */
  lemma {:induction false} BucketFindsName(accounts: seq<Account>, name: string, n: nat)
    requires n > 0
    requires forall a :: a in accounts ==> a.namehash == NameHash(a.name)
    ensures ScanName(Bucket(accounts, ByName, RowOf(NameHash(name), n), n), name) == ScanName(accounts, name)
  {
    if accounts != [] {
      var a, row := accounts[0], RowOf(NameHash(name), n);
      assert a in accounts;
      BucketFindsName(accounts[1..], name, n);
      if Lower(a.name) == Lower(name) {
        HashAgrees(a.name, name);
      }
      BucketStep(accounts, ByName, row, n);
      var rest := Bucket(accounts[1..], ByName, row, n);
      assert ([a] + rest)[1..] == rest;
    }
  }

  lemma BucketStep(accounts: seq<Account>, key: Key, row: nat, n: nat)
    requires n > 0 && accounts != []
    ensures Bucket(accounts, key, row, n)
         == if RowOf(KeyOf(accounts[0], key), n) == row then [accounts[0]] + Bucket(accounts[1..], key, row, n)
            else Bucket(accounts[1..], key, row, n)
  {
  }

  lemma {:induction false} BucketFindsUid(accounts: seq<Account>, uid: nat, n: nat)
    requires n > 0
    ensures ScanUid(Bucket(accounts, ByUid, RowOf(uid, n), n), uid) == ScanUid(accounts, uid)
  {
    if accounts != [] {
      BucketFindsUid(accounts[1..], uid, n);
      BucketStep(accounts, ByUid, RowOf(uid, n), n);
      var rest := Bucket(accounts[1..], ByUid, RowOf(uid, n), n);
      assert ([accounts[0]] + rest)[1..] == rest;
    }
  }

  // ---------- adding ----------

  /** Adding refuses an unusable or already used name or uid; the uid is always looked up. */
  function Added(s: State, name: string, uid: nat, allowed: bool): State {
    if name == [] || uid < 1 || !allowed || ScanUid(s.accounts, uid).Some? || ScanName(s.accounts, name).Some? then s
    else State([Account(name, uid, NameHash(name))] + s.accounts, if uid > s.maxuserid then uid else s.maxuserid)
  }

  /** Above maxuserid no uid is in use, so that the look-up may be skipped there. */
  lemma AboveMaxIsFree(s: State, uid: nat)
    requires Consistent(s) && uid > s.maxuserid
    ensures ScanUid(s.accounts, uid) == None
  {
  }

  lemma AddedConsistent(s: State, name: string, uid: nat, allowed: bool)
    requires Consistent(s) && uid <= UINT_MAX
    ensures Consistent(Added(s, name, uid, allowed))
  {
    var t := Added(s, name, uid, allowed);
    if t != s {
      forall i, j | 0 <= i < j < |t.accounts|
        ensures t.accounts[i].uid != t.accounts[j].uid && Lower(t.accounts[i].name) != Lower(t.accounts[j].name)
      {
        assert t.accounts[j] == s.accounts[j - 1] && t.accounts[j] in s.accounts;
        if i > 0 {
          assert t.accounts[i] == s.accounts[i - 1];
        }
      }
    }
  }

  // ---------- looking up ----------

  /** The configuration: whether names identify account files, the symbols allowed in names, and the account limit. */
  datatype Prefs = Prefs(saveByName: bool, symbols: string, limit: nat)

  /** A record of the account storage. */
  datatype Record = Record(name: string, uid: nat)

  /** account_load_new: the storage's answer, if any, becomes an account unless adding refuses it. */
  function Loaded(s: State, answer: Option<Record>): (State, Option<Account>) {
    if answer.None? then (s, None)
    else
      var t := Added(s, answer.value.name, answer.value.uid, true);
      (t, if t == s then None else Some(t.accounts[0]))
  }

  function FoundUid(s: State, uid: nat, byUid: Option<Record>): (State, Option<Account>) {
    var r := if uid > 0 then ScanUid(s.accounts, uid) else None;
    if r.Some? then (s, r) else Loaded(s, byUid)
  }

  /** The storage is only asked for acceptable names. */
  function LoadedName(s: State, name: string, symbols: string, byName: Option<Record>): (State, Option<Account>) {
    if Acceptable(name, symbols) then Loaded(s, byName) else (s, None)
  }

  function FoundName(s: State, name: string, searched: bool, symbols: string, byName: Option<Record>)
    : (State, Option<Account>)
  {
    var r := if searched then ScanName(s.accounts, name) else None;
    if r.Some? then (s, r) else LoadedName(s, name, symbols, byName)
  }

  /** The uid that a user name may stand for: "#uid", or any number when names do not identify files. */
  function UidIn(name: string, prefs: Prefs): (uid: nat)
    ensures uid <= UINT_MAX
  {
    var r := if name != [] && name[0] == '#' then UintOf(name[1..])
      else if !prefs.saveByName then UintOf(name)
      else None;
    if r.Some? then r.value else 0
  }

  /** Whether the memory is searched by name at all. */
  predicate NameSearched(name: string, prefs: Prefs) {
    UidIn(name, prefs) == 0 || (name != [] && (name[0] == '#' || IsDigit(name[0])))
  }

  /** It is, except for numbers written with a leading blank or plus sign. */
  lemma NameSearchedIff(name: string, prefs: Prefs)
    ensures NameSearched(name, prefs) <==>
            !(!prefs.saveByName && UintOf(name).Some? && UintOf(name).value > 0 && name[0] in [' ', '\t', '+'])
  {
    if name == [] {
      assert UintOf(name) == Some(0) || UintOf(name) == None;
    } else if !prefs.saveByName && name[0] != '#' && UintOf(name).Some? && DigitsStart(name) == 0 {
      assert name[0..][0] == name[0];
    }
  }

  /** An acceptable name always is, unless the configuration allows blanks or plus signs in names. */
  lemma AcceptableIsSearched(name: string, prefs: Prefs)
    requires Acceptable(name, prefs.symbols)
    requires ' ' !in prefs.symbols && '\t' !in prefs.symbols && '+' !in prefs.symbols
    ensures NameSearched(name, prefs)
  {
    NameSearchedIff(name, prefs);
    assert AcceptableChar(name[0], prefs.symbols);
  }

  /** accountlist_find_account; `byUid` and `byName` are what the storage answers if asked. */
  function Found(s: State, name: string, prefs: Prefs, byUid: Option<Record>, byName: Option<Record>)
    : (State, Option<Account>)
  {
    var uid := UidIn(name, prefs);
    var (t, r) := if uid > 0 then FoundUid(s, uid, byUid) else (s, None);
    if r.Some? then (t, r) else FoundName(t, name, NameSearched(name, prefs), prefs.symbols, byName)
  }

  /** The uid of the next account, in 32 bits. */
  function NextUid(maxuserid: nat): nat {
    (maxuserid + 1) % 0x1_0000_0000
  }

  /** A limit of 0 allows any number of accounts. */
  predicate Allowed(limit: nat, count: nat) {
    limit == 0 || count < limit
  }

  /** accountlist_create_account. */
  function Created(s: State, name: string, prefs: Prefs, byUid: Option<Record>, byName: Option<Record>)
    : State
  {
    if !Acceptable(name, prefs.symbols) then s
    else
      var (t, r) := Found(s, name, prefs, byUid, byName);
      if r.Some? then t else Added(t, name, NextUid(t.maxuserid), Allowed(prefs.limit, |t.accounts|))
  }

  // ---------- whole runs ----------

  datatype Op =
    | Add(name: string, uid: nat)
    | Find(name: string, prefs: Prefs, byUid: Option<Record>, byName: Option<Record>)
    | Create(name: string, prefs: Prefs, byUid: Option<Record>, byName: Option<Record>)

  /** Uids are unsigned ints. */
  predicate Fits(answer: Option<Record>) {
    answer.Some? ==> answer.value.uid <= UINT_MAX
  }

  predicate WellTyped(op: Op) {
    match op
    case Add(_, uid) => uid <= UINT_MAX
    case Find(_, _, byUid, byName) => Fits(byUid) && Fits(byName)
    case Create(_, _, byUid, byName) => Fits(byUid) && Fits(byName)
  }

  function Apply(s: State, op: Op): State {
    match op
    case Add(name, uid) => Added(s, name, uid, true)
    case Find(name, prefs, byUid, byName) => Found(s, name, prefs, byUid, byName).0
    case Create(name, prefs, byUid, byName) => Created(s, name, prefs, byUid, byName)
  }

  function Run(s: State, ops: seq<Op>): State
    decreases |ops|
  {
    if ops == [] then s else Run(Apply(s, ops[0]), ops[1..])
  }

  /** What a step keeps: consistency, and every account under its name and uid. */
  ghost predicate Grows(s: State, t: State) {
    Consistent(t) && s.maxuserid <= t.maxuserid && forall a :: a in s.accounts ==> a in t.accounts
  }

  lemma AddedGrows(s: State, name: string, uid: nat, allowed: bool)
    requires Consistent(s) && uid <= UINT_MAX
    ensures Grows(s, Added(s, name, uid, allowed))
  {
    AddedConsistent(s, name, uid, allowed);
  }

  lemma LoadedGrows(s: State, answer: Option<Record>)
    requires Consistent(s) && Fits(answer)
    ensures Grows(s, Loaded(s, answer).0)
  {
    if answer.Some? {
      AddedGrows(s, answer.value.name, answer.value.uid, true);
    }
  }

  lemma FoundGrows(s: State, name: string, prefs: Prefs, byUid: Option<Record>, byName: Option<Record>)
    requires Consistent(s) && Fits(byUid) && Fits(byName)
    ensures Grows(s, Found(s, name, prefs, byUid, byName).0)
  {
    LoadedGrows(s, byUid);
    var uid := UidIn(name, prefs);
    var t := if uid > 0 then FoundUid(s, uid, byUid).0 else s;
    LoadedGrows(t, byName);
  }

  lemma ApplyGrows(s: State, op: Op)
    requires Consistent(s) && WellTyped(op)
    ensures Grows(s, Apply(s, op))
  {
    match op
    case Add(name, uid) => AddedGrows(s, name, uid, true);
    case Find(name, prefs, byUid, byName) => FoundGrows(s, name, prefs, byUid, byName);
    case Create(name, prefs, byUid, byName) =>
      FoundGrows(s, name, prefs, byUid, byName);
      var t := Found(s, name, prefs, byUid, byName).0;
      AddedGrows(t, name, NextUid(t.maxuserid), Allowed(prefs.limit, |t.accounts|));
  }

  /** Over every run: names stay unique up to case, uids stay unique and at most maxuserid, and no account is lost. */
  lemma {:induction false} RunGrows(s: State, ops: seq<Op>)
    requires Consistent(s) && forall op :: op in ops ==> WellTyped(op)
    ensures Grows(s, Run(s, ops))
    decreases |ops|
  {
    if ops != [] {
      assert ops[0] in ops;
      ApplyGrows(s, ops[0]);
      RunGrows(Apply(s, ops[0]), ops[1..]);
    }
  }

  lemma {:induction false} UniqueScanUid(accounts: seq<Account>, a: Account)
    requires Unique(accounts) && a in accounts
    ensures ScanUid(accounts, a.uid) == Some(a)
  {
    if accounts[0] != a {
      var j :| 0 <= j < |accounts| && accounts[j] == a;
      assert accounts[1..][j - 1] == a;
      UniqueScanUid(accounts[1..], a);
    }
  }

  lemma {:induction false} UniqueScanName(accounts: seq<Account>, a: Account, name: string)
    requires Unique(accounts) && a in accounts && Lower(name) == Lower(a.name)
    ensures ScanName(accounts, name) == Some(a)
  {
    if accounts[0] != a {
      var j :| 0 <= j < |accounts| && accounts[j] == a;
      assert accounts[1..][j - 1] == a;
      UniqueScanName(accounts[1..], a, name);
    }
  }

  /** Both look-ups keep leading to an account through every later run, in any spelling of its name. */
  lemma StaysFindable(s: State, a: Account, name: string, ops: seq<Op>)
    requires Consistent(s) && a in s.accounts && Lower(name) == Lower(a.name)
    requires forall op :: op in ops ==> WellTyped(op)
    ensures ScanUid(Run(s, ops).accounts, a.uid) == Some(a)
    ensures ScanName(Run(s, ops).accounts, name) == Some(a)
  {
    RunGrows(s, ops);
    UniqueScanUid(Run(s, ops).accounts, a);
    UniqueScanName(Run(s, ops).accounts, a, name);
  }

  // ---------- what a look-up returns ----------

  /** A name that starts with '#' stands for the number behind it; any other stands for itself, and only if accounts are
      not saved by name. */
  lemma UidInIs(name: string, prefs: Prefs, u: nat)
    requires 0 < u <= UINT_MAX
    ensures UidIn(['#'] + Decimal(u), prefs) == u
    ensures UidIn(Decimal(u), prefs) == if prefs.saveByName then 0 else u
    ensures (prefs.saveByName && (name == [] || name[0] != '#')) ==> UidIn(name, prefs) == 0
  {
    UintOfPrinted(u);
    ValueOfDecimal(u);
    assert (['#'] + Decimal(u))[1..] == Decimal(u);
    assert IsDigit(Decimal(u)[0]);
  }

  /** A name with any character that is no digit, blank or plus sign, and none at its beginning, stands for no uid. */
  lemma LettersHoldNoUid(name: string, prefs: Prefs, i: nat)
    requires i < |name| && !IsDigit(name[i]) && name[i] !in [' ', '\t', '+'] && name[0] != '#'
    ensures UidIn(name, prefs) == 0
  {
    OnlyNumbers(name, i);
  }

  /** A uid in the name wins over the name: the account with that uid is returned, whatever it is called, and nothing
      changes. */
  lemma UidWins(s: State, a: Account, name: string, prefs: Prefs, byUid: Option<Record>, byName: Option<Record>)
    requires Consistent(s) && a in s.accounts && UidIn(name, prefs) == a.uid
    ensures Found(s, name, prefs, byUid, byName) == (s, Some(a))
  {
    UniqueScanUid(s.accounts, a);
  }

  /** With no uid in the name, or none that memory or storage knows, the account of that name is returned, in any spelling,
      provided that the memory is searched by name. */
  lemma NameFinds(s: State, a: Account, name: string, prefs: Prefs, byUid: Option<Record>, byName: Option<Record>)
    requires Consistent(s) && a in s.accounts && Lower(name) == Lower(a.name)
    requires UidIn(name, prefs) == 0
          || (NameSearched(name, prefs) && byUid == None && forall b :: b in s.accounts ==> b.uid != UidIn(name, prefs))
    ensures Found(s, name, prefs, byUid, byName) == (s, Some(a))
  {
    UniqueScanName(s.accounts, a, name);
  }

  /** Over every later run an account in memory is what a look-up returns, by any spelling of its name that holds no uid and
      by "#" followed by its uid, and the look-up changes nothing. */
  lemma StaysReturned(s: State, a: Account, name: string, ops: seq<Op>, prefs: Prefs, byUid: Option<Record>, byName: Option<Record>)
    requires Consistent(s) && a in s.accounts && forall op :: op in ops ==> WellTyped(op)
    ensures var t := Run(s, ops);
      && (Lower(name) == Lower(a.name) && UidIn(name, prefs) == 0 ==> Found(t, name, prefs, byUid, byName) == (t, Some(a)))
      && Found(t, ['#'] + Decimal(a.uid), prefs, byUid, byName) == (t, Some(a))
  {
    RunGrows(s, ops);
    var t := Run(s, ops);
    if Lower(name) == Lower(a.name) && UidIn(name, prefs) == 0 {
      NameFinds(t, a, name, prefs, byUid, byName);
    }
    UidInIs(name, prefs, a.uid);
    UidWins(t, a, ['#'] + Decimal(a.uid), prefs, byUid, byName);
  }

  lemma KnownIsReturned(s: State, name: string, prefs: Prefs, byUid: Option<Record>, byName: Option<Record>)
    requires Consistent(s)
    ensures forall a :: a in s.accounts && Lower(a.name) == Lower(name) && UidIn(name, prefs) == 0 ==>
      Found(s, name, prefs, byUid, byName) == (s, Some(a))
    ensures forall a :: a in s.accounts && (a.uid == UidIn(name, prefs) || name == ['#'] + Decimal(a.uid)) ==>
      Found(s, name, prefs, byUid, byName) == (s, Some(a))
  {
    forall a | a in s.accounts && Lower(a.name) == Lower(name) && UidIn(name, prefs) == 0
      ensures Found(s, name, prefs, byUid, byName) == (s, Some(a))
    {
      NameFinds(s, a, name, prefs, byUid, byName);
    }
    forall a | a in s.accounts && (a.uid == UidIn(name, prefs) || name == ['#'] + Decimal(a.uid))
      ensures Found(s, name, prefs, byUid, byName) == (s, Some(a))
    {
      UidInIs(name, prefs, a.uid);
      UidWins(s, a, name, prefs, byUid, byName);
    }
  }

  /** What the storage knows and the memory does not is loaded: a record whose uid and name are free becomes an account with
      these and is returned. */
  lemma LoadedFromStorage(s: State, name: string, prefs: Prefs, byUid: Option<Record>, byName: Option<Record>, r: Record)
    requires Consistent(s) && r.name != [] && 0 < r.uid
    requires forall a :: a in s.accounts ==> a.uid != r.uid && Lower(a.name) != Lower(r.name)
    requires if UidIn(name, prefs) > 0
             then byUid == Some(r) && forall a :: a in s.accounts ==> a.uid != UidIn(name, prefs)
             else byName == Some(r) && Acceptable(name, prefs.symbols) && forall a :: a in s.accounts ==> Lower(a.name) != Lower(name)
    ensures var a := Account(r.name, r.uid, NameHash(r.name));
      Found(s, name, prefs, byUid, byName)
      == (State([a] + s.accounts, if r.uid > s.maxuserid then r.uid else s.maxuserid), Some(a))
  {
  }

  /** What neither knows is not found, and nothing changes. */
  lemma UnknownIsNone(s: State, name: string, prefs: Prefs)
    requires forall a :: a in s.accounts ==> a.uid != UidIn(name, prefs) && Lower(a.name) != Lower(name)
    ensures Found(s, name, prefs, None, None) == (s, None)
  {
  }

  lemma NextUidIs(maxuserid: nat)
    requires maxuserid <= UINT_MAX
    ensures NextUid(maxuserid) == if maxuserid < UINT_MAX then maxuserid + 1 else 0
  {
  }

  lemma AddedAbove(s: State, name: string, uid: nat, allowed: bool)
    requires uid > s.maxuserid && ScanUid(s.accounts, uid) == None
    ensures Added(s, name, uid, allowed)
         == if name != [] && allowed && ScanName(s.accounts, name).None?
            then State([Account(name, uid, NameHash(name))] + s.accounts, uid)
            else s
  {
  }

  lemma NextIsFree(s: State, name: string, allowed: bool)
    requires Consistent(s)
    ensures Added(s, name, NextUid(s.maxuserid), allowed)
         == if name != [] && s.maxuserid < UINT_MAX && allowed && ScanName(s.accounts, name).None?
            then State([Account(name, s.maxuserid + 1, NameHash(name))] + s.accounts, s.maxuserid + 1)
            else s
  {
    NextUidIs(s.maxuserid);
    AboveMaxIsFree(s, s.maxuserid + 1);
    AddedAbove(s, name, s.maxuserid + 1, allowed);
  }

  lemma CreatedFrom(t: State, r: Option<Account>, name: string, limit: nat)
    requires Consistent(t)
    ensures (if r.Some? then t else Added(t, name, NextUid(t.maxuserid), Allowed(limit, |t.accounts|)))
         == (if r.None? && name != [] && t.maxuserid < UINT_MAX && Allowed(limit, |t.accounts|)
                && ScanName(t.accounts, name).None?
             then State([Account(name, t.maxuserid + 1, NameHash(name))] + t.accounts, t.maxuserid + 1)
             else t)
  {
    NextIsFree(t, name, Allowed(limit, |t.accounts|));
  }

  /** When the look-up leaves `t` and finds `r`: exactly the acceptable names are created that nobody has, below the
      limit and while the 32-bit uid counter does not wrap to 0. */
  lemma CreatedIff(s: State, name: string, prefs: Prefs, byUid: Option<Record>, byName: Option<Record>,
                   t: State, r: Option<Account>)
    requires Consistent(s) && Fits(byUid) && Fits(byName)
    requires Found(s, name, prefs, byUid, byName) == (t, r)
    ensures Created(s, name, prefs, byUid, byName)
         == (if !Acceptable(name, prefs.symbols) then s
             else if r.None? && t.maxuserid < UINT_MAX && (prefs.limit == 0 || |t.accounts| < prefs.limit)
                && (forall a :: a in t.accounts ==> Lower(a.name) != Lower(name))
             then State([Account(name, t.maxuserid + 1, NameHash(name))] + t.accounts, t.maxuserid + 1)
             else t)
  {
    FoundGrows(s, name, prefs, byUid, byName);
    CreatedFrom(t, r, name, prefs.limit);
  }
}
