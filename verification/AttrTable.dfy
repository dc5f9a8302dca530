/** Attribute keys, the lines of an account file and the list of cached attributes, as values, each with
    the plain map it stands for (src/bnetd/attrgroup.cpp:364-398; src/bnetd/attr.h:31-92). */
module AttrTable {
  import opened Common

  // ---------- keys ----------

  predicate StartsWith(s: string, prefix: string) {
    |prefix| <= |s| && s[..|prefix|] == prefix
  }

  /** attrgroup_escape_key over a storage whose own escape_key changes nothing. */
  function EscapeKey(key: string): string {
    if StartsWith(Lower(key), "dynkey") then "Record" + key[6..]
    else if StartsWith(key, "Star") then "STAR" + key[4..]
    else key
  }

  /** What two keys must share to name the same attribute. */
  function Canon(key: string): string {
    Lower(EscapeKey(key))
  }

  lemma {:induction false} LowerConcat(a: string, b: string)
    ensures Lower(a + b) == Lower(a) + Lower(b)
  {
    if a == [] {
      assert a + b == b;
    } else {
      assert (a + b)[1..] == a[1..] + b;
      LowerConcat(a[1..], b);
    }
  }

  lemma LowerAt(s: string, i: nat)
    requires i < |s|
    ensures Lower(s)[i] == LowerChar(s[i])
  {
    if i > 0 {
      LowerAt(s[1..], i - 1);
    }
  }

  lemma ConcatSplit(a: string, b: string, n: nat)
    requires |a| == n
    ensures (a + b)[..n] == a && (a + b)[n..] == b
  {
  }

  lemma LowerParts(s: string, a: string, b: string)
    requires s == a + b
    ensures Lower(s)[..|a|] == Lower(a) && Lower(s)[|a|..] == Lower(b)
  {
    LowerConcat(a, b);
    ConcatSplit(Lower(a), Lower(b), |a|);
  }

  lemma TakeDrop(s: string, n: nat)
    requires n <= |s|
    ensures s == s[..n] + s[n..]
  {
  }

  lemma LowerSplit(s: string, n: nat)
    requires n <= |s|
    ensures Lower(s)[..n] == Lower(s[..n]) && Lower(s)[n..] == Lower(s[n..])
  {
    TakeDrop(s, n);
    LowerParts(s, s[..n], s[n..]);
  }

  lemma Literals()
    ensures Lower("Record") == "record" && Lower("STAR") == "star" && Lower("Star") == "star"
  {
    forall i: nat | i < 6
      ensures Lower("Record")[i] == "record"[i]
    {
      LowerAt("Record", i);
    }
    forall i: nat | i < 4
      ensures Lower("STAR")[i] == "star"[i] == Lower("Star")[i]
    {
      LowerAt("STAR", i);
      LowerAt("Star", i);
    }
  }

  lemma LowerStar(rest: string)
    ensures Lower("STAR" + rest) == Lower("Star" + rest) == "star" + Lower(rest)
  {
    Literals();
    LowerConcat("STAR", rest);
    LowerConcat("Star", rest);
  }

  lemma LowerRecord(rest: string)
    ensures Lower("Record" + rest) == "record" + Lower(rest)
  {
    Literals();
    LowerConcat("Record", rest);
  }

  lemma EscapeTwice(key: string)
    ensures EscapeKey(EscapeKey(key)) == EscapeKey(key)
  {
    var e := EscapeKey(key);
    if StartsWith(Lower(key), "dynkey") {
      LowerRecord(key[6..]);
      assert Lower(e)[..6] == "record" && e[..4] == "Reco";
    } else if StartsWith(key, "Star") {
      LowerStar(key[4..]);
      assert Lower(e)[0] == 's' && e[..4] == "STAR";
      if 6 <= |e| {
        assert Lower(e)[..6][0] == 's';
      }
    }
  }

  /** The key in lower case, with a leading DynKey turned into record. */
  function Folded(key: string): string {
    if StartsWith(Lower(key), "dynkey") then "record" + Lower(key)[6..] else Lower(key)
  }

  /** Case does not matter, neither in the key itself nor in what is escaped; of the escapes only the
      DynKey one changes the name. */
  lemma CanonIs(key: string)
    ensures Canon(key) == Folded(key)
  {
    if StartsWith(Lower(key), "dynkey") {
      LowerRecord(key[6..]);
      LowerSplit(key, 6);
    } else if StartsWith(key, "Star") {
      LowerStar(key[4..]);
      assert key == "Star" + key[4..];
    }
  }

  /** An escaped key: its text, as it is written to storage, and its name, the text with its letters folded,
      which is all that the strcasecmp of a lookup sees of it. */
  datatype Key = Key(text: string, name: string)

  function KeyOf(raw: string): Key {
    Key(EscapeKey(raw), Canon(raw))
  }

  /** What becomes of a key. DynKey, in any case, is written as Record and Star as STAR; nothing else is rewritten, and the
      name is what is written, in lower case. */
  lemma KeyIs(raw: string, rest: string)
    ensures KeyOf("DynKey" + rest) == Key("Record" + rest, "record" + Lower(rest))
    ensures KeyOf("Star" + rest) == Key("STAR" + rest, "star" + Lower(rest))
    ensures !StartsWith(Lower(raw), "dynkey") && !StartsWith(raw, "Star") ==> KeyOf(raw) == Key(raw, Lower(raw))
    ensures StartsWith(Lower(raw), "dynkey") ==> KeyOf(raw) == Key("Record" + raw[6..], "record" + Lower(raw[6..]))
  {
    DynKeyLower(rest);
    LowerRecord(rest);
    StarLower(rest);
    LowerStar(rest);
    assert ("Star" + rest)[..4] == "Star" && ("Star" + rest)[4..] == rest;
    if StartsWith(Lower(raw), "dynkey") {
      LowerRecord(raw[6..]);
    }
  }

  lemma DynKeyLower(rest: string)
    ensures StartsWith(Lower("DynKey" + rest), "dynkey") && ("DynKey" + rest)[6..] == rest
  {
    var s := "DynKey" + rest;
    forall i: nat | i < 6
      ensures Lower(s)[i] == "dynkey"[i]
    {
      LowerAt(s, i);
      assert s[i] == "DynKey"[i];
    }
  }

  lemma StarLower(rest: string)
    ensures !StartsWith(Lower("Star" + rest), "dynkey")
  {
    LowerAt("Star" + rest, 0);
    if |rest| >= 2 {
      assert Lower("Star" + rest)[..6][0] == 's';
    }
  }

  /** Two raw keys name the same attribute exactly when they are equal up to case once a leading DynKey, in
      any case, counts as record. */
  lemma SameName(a: string, b: string)
    ensures KeyOf(a).name == KeyOf(b).name <==> Folded(a) == Folded(b)
  {
    CanonIs(a);
    CanonIs(b);
  }

  /** A key written to storage escaped is the same key when it is loaded and escaped again. */
  lemma KeySurvivesStorage(raw: string)
    ensures KeyOf(KeyOf(raw).text) == KeyOf(raw)
  {
    EscapeTwice(raw);
  }

  // ---------- storage ----------

  datatype Line = Line(key: Key, val: string)

  /** What a storage holds: the last line of a name counts. */
  function Stored(lines: seq<Line>): map<string, string> {
    if lines == [] then map[]
    else Stored(lines[..|lines| - 1])[lines[|lines| - 1].key.name := lines[|lines| - 1].val]
  }

  // ---------- the cached list ----------

  /** t_attr; a NULL value is None. */
  datatype Attr = Attr(key: Key, val: Option<string>, dirty: bool) {
    function Name(): string { key.name }
  }

  datatype Cell = Cell(val: Option<string>, dirty: bool)

  type Table = map<string, Cell>

  /** No two attributes of a list share a name. */
  ghost predicate WellKeyed(list: seq<Attr>) {
    forall i, j :: 0 <= i < j < |list| ==> list[i].Name() != list[j].Name()
  }

  ghost predicate HasKey(list: seq<Attr>, k: string) {
    exists i :: 0 <= i < |list| && list[i].Name() == k
  }

  ghost predicate Holds(t: Table, a: Attr) {
    a.Name() in t && t[a.Name()] == Cell(a.val, a.dirty)
  }

  /** The list, in whatever order, stands for the map `t`. */
  ghost predicate Means(list: seq<Attr>, t: Table) {
    && WellKeyed(list)
    && (forall i :: 0 <= i < |list| ==> Holds(t, list[i]))
    && (forall k :: k in t ==> HasKey(list, k))
  }

  /** hlist_promote of the i-th element: it swaps with its predecessor, if it has one. */
  function Promote(list: seq<Attr>, i: nat): (r: seq<Attr>)
    requires i < |list|
    ensures |r| == |list|
  {
    if i == 0 then list else list[i - 1 := list[i]][i := list[i - 1]]
  }

  lemma PromoteKeeps(list: seq<Attr>, t: Table, i: nat)
    requires Means(list, t) && i < |list|
    ensures Means(Promote(list, i), t)
  {
    var r := Promote(list, i);
    forall k | k in t
      ensures HasKey(r, k)
    {
      var j :| 0 <= j < |list| && list[j].Name() == k;
      var j' := if i > 0 && j == i then i - 1 else if i > 0 && j == i - 1 then i else j;
      assert r[j'] == list[j];
    }
  }

  lemma AddWellKeyed(list: seq<Attr>, t: Table, a: Attr)
    requires Means(list, t) && a.Name() !in t
    ensures WellKeyed([a] + list)
  {
    var r := [a] + list;
    forall i, j | 0 <= i < j < |r|
      ensures r[i].Name() != r[j].Name()
    {
      assert r[j] == list[j - 1] && Holds(t, list[j - 1]);
      assert i > 0 ==> r[i] == list[i - 1];
    }
  }

  /** hlist_add puts a new attribute at the front. */
  lemma AddKeeps(list: seq<Attr>, t: Table, a: Attr, t': Table)
    requires Means(list, t) && a.Name() !in t && t' == t[a.Name() := Cell(a.val, a.dirty)]
    ensures Means([a] + list, t')
  {
    AddWellKeyed(list, t, a);
    var r := [a] + list;
    forall i | 0 <= i < |r|
      ensures Holds(t', r[i])
    {
      assert i > 0 ==> r[i] == list[i - 1] && Holds(t, list[i - 1]);
    }
    forall k | k in t'
      ensures HasKey(r, k)
    {
      if k == a.Name() {
        assert r[0].Name() == k;
      } else {
        var i :| 0 <= i < |list| && list[i].Name() == k;
        assert r[i + 1].Name() == k;
      }
    }
  }

  lemma UpdateKeeps(list: seq<Attr>, t: Table, i: nat, val: Option<string>, dirty: bool)
    requires Means(list, t) && i < |list|
    ensures Means(list[i := Attr(list[i].key, val, dirty)], t[list[i].Name() := Cell(val, dirty)])
  {
    var r := list[i := Attr(list[i].key, val, dirty)];
    assert forall j :: 0 <= j < |list| ==> r[j].Name() == list[j].Name();
    assert Holds(t, list[i]);
    forall k | k in t
      ensures HasKey(r, k)
    {
      var j :| 0 <= j < |list| && list[j].Name() == k;
      assert r[j].Name() == list[j].Name();
    }
  }

  // ---------- views ----------

  /** The visible attributes of a table: those with a value. */
  ghost function ViewOf(t: Table): map<string, string> {
    map k | k in t && t[k].val.Some? :: t[k].val.value
  }

  /** The plain map operation that a set stands for; a NULL value removes the attribute. */
  function Updated(m: map<string, string>, k: string, val: Option<string>): map<string, string> {
    match val case Some(v) => m[k := v] case None => m - {k}
  }

  /** The plain map operation that a get stands for. */
  function Visible(own: map<string, string>, default: map<string, string>, k: string): Option<string> {
    if k in own then Some(own[k]) else Lookup(default, k)
  }

  datatype Change = Change(k: string, val: Option<string>)

  function Changed(m: map<string, string>, changes: seq<Change>): map<string, string> {
    if changes == [] then m
    else
      var c := changes[|changes| - 1];
      Updated(Changed(m, changes[..|changes| - 1]), c.k, c.val)
  }

  /** The index of the last change of `k`, or the number of changes. */
  function LastOf(changes: seq<Change>, k: string): (i: nat)
    ensures i <= |changes|
    ensures i < |changes| ==> changes[i].k == k && forall j :: i < j < |changes| ==> changes[j].k != k
    ensures i == |changes| ==> forall j :: 0 <= j < |changes| ==> changes[j].k != k
  {
    if changes == [] then 0
    else
      var n := |changes| - 1;
      if changes[n].k == k then n
      else
        var i := LastOf(changes[..n], k);
        if i < n then i else n + 1
  }

  lemma UpdatedShows(m: map<string, string>, k': string, val: Option<string>, default: map<string, string>, k: string)
    ensures Visible(Updated(m, k', val), default, k)
         == if k' != k then Visible(m, default, k) else if val.Some? then val else Lookup(default, k)
  {
  }

  /** After any run of sets a get shows the last value set for the name; if none was set, what was stored,
      and if there is no such value, the default group's. */
  lemma {:induction false} GetShowsLastSet(own: map<string, string>, changes: seq<Change>, default: map<string, string>, k: string)
    ensures var i := LastOf(changes, k);
            Visible(Changed(own, changes), default, k)
            == if i < |changes| then (if changes[i].val.Some? then changes[i].val else Lookup(default, k))
               else Visible(own, default, k)
  {
    if changes == [] {
    } else {
      var n := |changes| - 1;
      var init, c := changes[..n], changes[n];
      GetShowsLastSet(own, init, default, k);
      UpdatedShows(Changed(own, init), c.k, c.val, default, k);
      assert LastOf(init, k) < n ==> init[LastOf(init, k)] == changes[LastOf(init, k)];
    }
  }

  /** The table right after loading: every stored attribute, clean. */
  ghost function Loaded(lines: seq<Line>): Table {
    map k | k in Stored(lines) :: Cell(Some(Stored(lines)[k]), false)
  }

  function Lookup(m: map<string, string>, k: string): Option<string> {
    if k in m then Some(m[k]) else None
  }

  /** A table after the lookup of name `k`, which may bring in the attribute from an indexed storage. */
  ghost function Fetched(t: Table, k: string, indexed: bool, lines: seq<Line>): Table {
    if k in t || !indexed || k !in Stored(lines) then t else t[k := Cell(Some(Stored(lines)[k]), false)]
  }

  /** A table after setting `k`. */
  ghost function Put(t: Table, k: string, val: Option<string>, setDirty: bool): Table {
    if k in t && t[k].val == val then t
    else t[k := Cell(val, setDirty || (k in t && t[k].dirty))]
  }

  /** write_attrs: one line per attribute with a value, in list order. */
  function Written(list: seq<Attr>): seq<Line> {
    if list == [] then []
    else
      var a := list[|list| - 1];
      Written(list[..|list| - 1]) + match a.val { case Some(v) => [Line(a.key, v)] case None => [] }
  }

  lemma ViewStep(t: Table, k: string)
    requires k in t
    ensures ViewOf(t) == if t[k].val.Some? then ViewOf(t - {k})[k := t[k].val.value] else ViewOf(t - {k})
  {
  }

  /** What one more attribute in the list adds to the written storage. */
  lemma WrittenStep(init: seq<Attr>, a: Attr)
    ensures Stored(Written(init + [a]))
            == if a.val.Some? then Stored(Written(init))[a.Name() := a.val.value] else Stored(Written(init))
  {
    var list := init + [a];
    assert list[..|list| - 1] == init && list[|list| - 1] == a;
    if a.val.Some? {
      assert Written(list) == Written(init) + [Line(a.key, a.val.value)];
      StoredAppend(Written(init), Line(a.key, a.val.value));
    } else {
      assert Written(list) == Written(init) + [] == Written(init);
    }
  }

  /** Writing a list that stands for `t` leaves the storage with exactly the visible attributes of `t`. */
  lemma {:induction false} WrittenHolds(list: seq<Attr>, t: Table)
    requires Means(list, t)
    ensures Stored(Written(list)) == ViewOf(t)
  {
    if list == [] {
      assert t == map[];
    } else {
      var n := |list| - 1;
      var init, a := list[..n], list[n];
      assert list == init + [a];
      assert Holds(t, a);
      LastKeeps(list, t);
      WrittenHolds(init, t - {a.Name()});
      ViewStep(t, a.Name());
      WrittenStep(init, a);
    }
  }

  lemma StoredAppend(lines: seq<Line>, l: Line)
    ensures Stored(lines + [l]) == Stored(lines)[l.key.name := l.val]
  {
    var w := lines + [l];
    assert w[..|w| - 1] == lines;
  }

  lemma LastKeeps(list: seq<Attr>, t: Table)
    requires Means(list, t) && list != []
    ensures Means(list[..|list| - 1], t - {list[|list| - 1].Name()})
  {
    var n := |list| - 1;
    var init, k := list[..n], list[n].Name();
    forall i | 0 <= i < n
      ensures Holds(t - {k}, init[i])
    {
      assert init[i] == list[i] && Holds(t, list[i]) && list[i].Name() != k;
    }
    forall m | m in t - {k}
      ensures HasKey(init, m)
    {
      var i :| 0 <= i < |list| && list[i].Name() == m;
      assert init[i] == list[i];
    }
  }
}
