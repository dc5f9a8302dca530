/** The write-back attribute cache (src/bnetd/attrgroup.cpp:42-113, 190-331, 400-529;
    src/bnetd/attrlayer.cpp:200-260): groups of attributes that are loaded on first use, kept in a
    self-organising list, saved when dirty and unloaded again. The storage is the line sequence of each
    group; reads and writes of it succeed. */
module AttrCache {
  import opened Common
  import opened AttrTable

  class AttrGroup {
    var list: seq<Attr>
    var stored: seq<Line>
    const indexed: bool
    var loaded: bool
    var accessed: bool
    var dirty: bool
    var lastaccess: int
    var dirtytime: int
    ghost var table: Table

    /** A group with an account file; a new account is born loaded with an empty one. */
    constructor (stored: seq<Line>, indexed: bool, newUser: bool)
      requires newUser ==> stored == []
      ensures this.stored == stored && this.indexed == indexed && loaded == newUser
      ensures !dirty && Shape() && Complete()
    {
      this.stored, this.indexed := stored, indexed;
      list, table := [], map[];
      loaded, accessed, dirty := newUser, false, false;
      lastaccess, dirtytime := 0, 0;
    }

    /** Also true in the middle of loading. */
    ghost predicate Shape()
      reads this
    {
      && Means(list, table)
      && (dirty ==> loaded)
      && (!loaded ==> list == [])
      && (forall k :: k in table && table[k].dirty ==> dirty)
    }

    /** A loaded group caches every stored attribute, and what is not dirty equals the storage. */
    ghost predicate Complete()
      reads this
    {
      loaded ==>
        && Stored(stored).Keys <= table.Keys
        && forall k :: k in table && !table[k].dirty ==> Lookup(Stored(stored), k) == table[k].val
    }

    /** The attributes as a table, loaded or not. */
    ghost function Base(): Table
      reads this
    {
      if loaded then table else Loaded(stored)
    }

    /** The plain map that the group presents to its users. */
    ghost function View(): map<string, string>
      reads this
    {
      ViewOf(Base())
    }

    /** The list traversal of attrgroup_find_attr, with what follows it. */
    method Search(key: Key) returns (pos: Option<nat>)
      requires Means(list, table)
      modifies this`list, this`table
      ensures Means(list, table)
      ensures table == Fetched(old(table), key.name, indexed, stored)
      ensures pos.Some? <==> key.name in table
      ensures pos.Some? ==> pos.value < |list| && list[pos.value].Name() == key.name
    {
      var i := 0;
      while i < |list| && list[i].Name() != key.name
        invariant 0 <= i <= |list|
        invariant forall j :: 0 <= j < i ==> list[j].Name() != key.name
      {
        i := i + 1;
      }
      if i < |list| {
        assert Holds(table, list[i]);
        var at := PromoteAt(i);
        pos := Some(at);
      } else {
        pos := ReadAttr(key);
      }
    }

    /** The key is found: promote it so that it is found faster next time. */
    method PromoteAt(i: nat) returns (at: nat)
      requires Means(list, table) && i < |list|
      modifies this`list
      ensures Means(list, table) && list == Promote(old(list), i)
      ensures at < |list| && list[at] == old(list[i])
      ensures i > 0 ==> at == i - 1 && list == old(list)[i - 1 := old(list)[i]][i := old(list)[i - 1]]
      ensures i == 0 ==> list == old(list)
    {
      PromoteKeeps(list, table, i);
      list := Promote(list, i);
      at := if i == 0 then 0 else i - 1;
    }

    /** The key is not cached: an indexed storage may know it. */
    method ReadAttr(key: Key) returns (pos: Option<nat>)
      requires Means(list, table) && key.name !in table
      modifies this`list, this`table
      ensures Means(list, table)
      ensures table == Fetched(old(table), key.name, indexed, stored)
      ensures pos.Some? <==> key.name in table
      ensures pos.Some? ==> pos.value < |list| && list[pos.value].Name() == key.name
    {
      if indexed && key.name in Stored(stored) {
        Append(key, Some(Stored(stored)[key.name]), false);
        pos := Some(0);
      } else {
        pos := None;
      }
    }

    /** attrgroup_set_attr once the attribute was looked up: nothing happens if the value is the same. */
    method Store(pos: Option<nat>, key: Key, val: Option<string>, mark: bool) returns (changed: bool)
      requires Means(list, table) && (pos.Some? <==> key.name in table)
      requires pos.Some? ==> pos.value < |list| && list[pos.value].Name() == key.name
      modifies this`list, this`table
      ensures Means(list, table) && table == Put(old(table), key.name, val, mark)
      ensures changed <==> !(key.name in old(table) && old(table)[key.name].val == val)
    {
      if pos.Some? {
        var i := pos.value;
        assert Holds(table, list[i]);
        if list[i].val == val {
          return false;
        }
        Overwrite(i, val, mark);
      } else {
        Append(key, val, mark);
      }
      changed := true;
    }

    /** attr_create and hlist_add. */
    method Append(key: Key, val: Option<string>, mark: bool)
      requires Means(list, table) && key.name !in table
      modifies this`list, this`table
      ensures Means(list, table) && table == old(table)[key.name := Cell(val, mark)]
      ensures list == [Attr(key, val, mark)] + old(list)
    {
      var a := Attr(key, val, mark);
      ghost var t := table[key.name := Cell(val, mark)];
      AddKeeps(list, table, a, t);
      table := t;
      list := [a] + list;
    }

    /** attr_set_val, and attr_set_dirty if `mark`. */
    method Overwrite(i: nat, val: Option<string>, mark: bool)
      requires Means(list, table) && i < |list|
      modifies this`list, this`table
      ensures Means(list, table)
      ensures var k := old(list[i].Name());
              k in old(table) && table == old(table)[k := Cell(val, mark || old(table)[k].dirty)]
    {
      var a := list[i];
      var b := Attr(a.key, val, mark || a.dirty);
      assert Holds(table, a);
      UpdateKeeps(list, table, i, val, b.dirty);
      table := table[a.Name() := Cell(val, b.dirty)];
      list := list[i := b];
    }
  }

  lemma EmptyMeans(list: seq<Attr>, t: Table)
    requires Means(list, t) && list == []
    ensures t == map[]
  {
    assert forall k :: k in t ==> HasKey(list, k);
  }

  // ---------- the global lists ----------

  ghost predicate Once(s: seq<AttrGroup>) {
    forall i, j :: 0 <= i < j < |s| ==> s[i] != s[j]
  }

  function Unlink(s: seq<AttrGroup>, g: AttrGroup): (r: seq<AttrGroup>)
    ensures forall x | x in r :: x in s && x != g
    ensures forall x | x in s :: x != g ==> x in r
    ensures g !in s ==> r == s
  {
    if s == [] then [] else (if s[0] == g then [] else [s[0]]) + Unlink(s[1..], g)
  }

  /** The others keep their order. */
  lemma {:induction false} UnlinkConcat(s: seq<AttrGroup>, t: seq<AttrGroup>, g: AttrGroup)
    ensures Unlink(s + t, g) == Unlink(s, g) + Unlink(t, g)
  {
    if s == [] {
      assert s + t == t;
    } else {
      assert (s + t)[1..] == s[1..] + t;
      UnlinkConcat(s[1..], t, g);
    }
  }

  lemma UnlinkStep(s: seq<AttrGroup>, g: AttrGroup)
    requires s != [] && s[0] != g
    ensures Unlink(s, g) == [s[0]] + Unlink(s[1..], g)
  {
  }

  lemma {:induction false} UnlinkOnce(s: seq<AttrGroup>, g: AttrGroup)
    requires Once(s)
    ensures Once(Unlink(s, g)) && Once(Unlink(s, g) + [g])
  {
    if s == [] {
    } else {
      UnlinkOnce(s[1..], g);
      var rest := Unlink(s[1..], g);
      forall i | 0 <= i < |rest|
        ensures rest[i] != s[0]
      {
        assert rest[i] in s[1..];
      }
      var r := Unlink(s, g);
      forall i | 0 <= i < |r|
        ensures r[i] != g
      {
        assert r[i] in r;
      }
    }
  }

  /** One more loaded line does to the table what the callback's set does. */
  lemma LoadStep(done: seq<Line>, l: Line, indexed: bool, lines: seq<Line>)
    ensures Put(Fetched(Loaded(done), l.key.name, indexed, lines), l.key.name, Some(l.val), false)
            == Loaded(done + [l])
  {
    StoredAppend(done, l);
  }

  lemma FetchComplete(t: Table, k: string, indexed: bool, lines: seq<Line>)
    requires Stored(lines).Keys <= t.Keys
    ensures Fetched(t, k, indexed, lines) == t
  {
  }

  class AttrLayer {
    var loadedlist: seq<AttrGroup>
    var dirtylist: seq<AttrGroup>
    var defattrs: AttrGroup
    var now: int
    ghost var groups: set<AttrGroup>

    /** Each flag matches membership of its global list, and every group is well formed. */
    ghost predicate Linked()
      reads this, groups
    {
      && defattrs in groups
      && Once(loadedlist) && Once(dirtylist)
      && (forall g :: g in loadedlist ==> g in groups)
      && (forall g :: g in dirtylist ==> g in groups)
      && (forall g {:trigger g in groups} :: g in groups ==> g.Shape() && (g in loadedlist <==> g.loaded) && (g in dirtylist <==> g.dirty))
    }

    ghost predicate Inv()
      reads this, groups
    {
      Linked() && forall g :: g in groups ==> g.Complete()
    }

    constructor (defacct: AttrGroup)
      requires defacct.Shape() && defacct.Complete() && !defacct.loaded
      ensures Inv() && defattrs == defacct && groups == {defacct}
    {
      loadedlist, dirtylist, now := [], [], 0;
      defattrs := defacct;
      groups := {defacct};
    }

    /** Time passes; it only decides when saves and flushes happen. */
    method Tick(time: int)
      requires Inv()
      modifies this`now
      ensures Inv() && now == time
    {
      now := time;
    }

    /** attrgroup_create_storage and attrgroup_create_newuser. */
    method Create(stored: seq<Line>, indexed: bool, newUser: bool) returns (g: AttrGroup)
      requires Inv() && (newUser ==> stored == [])
      modifies this`loadedlist, this`groups
      ensures Inv() && fresh(g) && groups == old(groups) + {g}
      ensures g.View() == Stored(stored) && g.indexed == indexed
    {
      g := new AttrGroup(stored, indexed, newUser);
      if newUser {
        loadedlist := loadedlist + [g];
      }
      groups := groups + {g};
    }

    /** attrgroup_set_accessed: the group also moves to the end of the loaded list. */
    method SetAccessed(g: AttrGroup)
      requires Linked() && g in groups && g.loaded
      modifies this`loadedlist, g`accessed, g`lastaccess
      ensures Linked() && g.accessed && g.lastaccess == now
      ensures loadedlist == Unlink(old(loadedlist), g) + [g]
    {
      g.accessed := true;
      g.lastaccess := now;
      UnlinkOnce(loadedlist, g);
      loadedlist := Unlink(loadedlist, g) + [g];
    }

    /** attrgroup_load. Loading sets each stored line through SetAttr, which re-enters FindAttr and this
        method; the LOADED flag set beforehand ends the recursion. */
    method Load(g: AttrGroup) returns (r: int)
      requires Linked() && g in groups
      modifies this`loadedlist, this`dirtylist, g
      ensures Linked() && r == 0 && g.loaded
      ensures g.table == old(g.Base()) && g.stored == old(g.stored)
      ensures g.dirty == old(g.dirty) && g.dirtytime == old(g.dirtytime)
      ensures dirtylist == old(dirtylist)
      ensures old(g.loaded) ==> g.list == old(g.list)
      ensures loadedlist == if old(g.loaded) then old(loadedlist) else old(loadedlist) + [g]
      decreases if g.loaded then 0 else 1, 0
    {
      if g.loaded {
        return 0;
      }
      if g.dirty {
        return -1;
      }
      g.loaded := true;
      loadedlist := loadedlist + [g];
      EmptyMeans(g.list, g.table);
      assert old(loadedlist) + [g] == loadedlist;
      LoadLines(g, old(loadedlist));
      r := 0;
    }

    /** Every stored line is set, clean; `before` is the loaded list without the group. */
    method LoadLines(g: AttrGroup, ghost before: seq<AttrGroup>)
      requires Linked() && g in groups && g.loaded && !g.dirty && g.table == map[]
      requires loadedlist == before + [g] && g !in before
      modifies this`loadedlist, this`dirtylist, g
      ensures Linked() && g.loaded && !g.dirty && g.dirtytime == old(g.dirtytime)
      ensures g.table == Loaded(g.stored) && g.stored == old(g.stored)
      ensures loadedlist == old(loadedlist) && dirtylist == old(dirtylist)
      decreases 0, 3
    {
      var lines := g.stored;
      assert Loaded(lines[..0]) == map[];
      UnlinkLast(before, g);
      var i := 0;
      while i < |lines|
        invariant 0 <= i <= |lines| && lines == g.stored == old(g.stored)
        invariant Linked() && g in groups && g.loaded && !g.dirty && g.dirtytime == old(g.dirtytime)
        invariant loadedlist == before + [g] && dirtylist == old(dirtylist)
        invariant g.table == Loaded(lines[..i])
      {
        LoadStep(lines[..i], lines[i], g.indexed, lines);
        assert lines[..i + 1] == lines[..i] + [lines[i]];
        SetAttr(g, lines[i].key, Some(lines[i].val), false);
        i := i + 1;
      }
      assert lines[..i] == lines;
    }

    lemma UnlinkLast(s: seq<AttrGroup>, g: AttrGroup)
      requires g !in s
      ensures Unlink(s + [g], g) == s
      decreases |s|
    {
      if s == [] {
        assert Unlink([g][1..], g) == [];
      } else {
        assert (s + [g])[1..] == s[1..] + [g];
        UnlinkLast(s[1..], g);
        UnlinkStep(s + [g], g);
      }
    }

    /** attrgroup_find_attr: the position of the attribute in the list, after promoting it there or
        bringing it in from an indexed storage. */
    method FindAttr(g: AttrGroup, key: Key) returns (pos: Option<nat>)
      requires Linked() && g in groups
      modifies this`loadedlist, this`dirtylist, g
      ensures Linked() && g.loaded
      ensures g.table == Fetched(old(g.Base()), key.name, g.indexed, g.stored) && g.stored == old(g.stored)
      ensures g.dirty == old(g.dirty) && g.dirtytime == old(g.dirtytime)
      ensures dirtylist == old(dirtylist)
      ensures loadedlist == Unlink(old(loadedlist), g) + [g]
      ensures pos.Some? <==> key.name in g.table
      ensures pos.Some? ==> pos.value < |g.list| && g.list[pos.value].Name() == key.name
      decreases if g.loaded then 0 else 1, 1, 1
    {
      Touch(g);
      pos := g.Search(key);
    }

    /** Loading on first use, and the mark of the access. */
    method Touch(g: AttrGroup)
      requires Linked() && g in groups
      modifies this`loadedlist, this`dirtylist, g
      ensures Linked() && g.loaded
      ensures g.table == old(g.Base()) && g.stored == old(g.stored)
      ensures g.dirty == old(g.dirty) && g.dirtytime == old(g.dirtytime)
      ensures dirtylist == old(dirtylist)
      ensures loadedlist == Unlink(old(loadedlist), g) + [g]
      decreases if g.loaded then 0 else 1, 1, 0
    {
      ghost var before := loadedlist;
      var r := Load(g);
      if before != loadedlist {
        UnlinkLast(before, g);
      }
      SetAccessed(g);
    }

    /** attrgroup_set_attr. */
    method SetAttr(g: AttrGroup, key: Key, val: Option<string>, setDirty: bool)
      requires Linked() && g in groups
      modifies this`loadedlist, this`dirtylist, g
      ensures Linked() && g.loaded && g.stored == old(g.stored)
      ensures g.table == Put(Fetched(old(g.Base()), key.name, g.indexed, g.stored), key.name, val, setDirty)
      ensures loadedlist == Unlink(old(loadedlist), g) + [g]
      ensures var t := Fetched(old(g.Base()), key.name, g.indexed, g.stored);
        if setDirty && !(key.name in t && t[key.name].val == val) then g.dirty
        else g.dirty == old(g.dirty) && g.dirtytime == old(g.dirtytime) && dirtylist == old(dirtylist)
      decreases if g.loaded then 0 else 1, 2
    {
      var pos := FindAttr(g, key);
      StoreIn(g, pos, key, val, setDirty);
    }

    /** The attribute was looked up: store the value, and note the change. */
    method StoreIn(g: AttrGroup, pos: Option<nat>, key: Key, val: Option<string>, setDirty: bool)
      requires Linked() && g in groups && g.loaded && (pos.Some? <==> key.name in g.table)
      requires pos.Some? ==> pos.value < |g.list| && g.list[pos.value].Name() == key.name
      modifies this`dirtylist, g`list, g`table, g`dirty, g`dirtytime
      ensures Linked() && g.table == Put(old(g.table), key.name, val, setDirty)
      ensures var same := key.name in old(g.table) && old(g.table)[key.name].val == val;
        if setDirty && !same then g.dirty
        else g.dirty == old(g.dirty) && g.dirtytime == old(g.dirtytime) && dirtylist == old(dirtylist)
    {
      var changed := g.Store(pos, key, val, setDirty);
      if changed && setDirty {
        SetDirty(g);
      }
    }

    /** As Linked(), but `g` may have got a dirty attribute without being dirty itself. */
    ghost predicate LinkedBut(g: AttrGroup)
      reads this, groups
    {
      && defattrs in groups && Once(loadedlist) && Once(dirtylist)
      && (forall h :: h in loadedlist ==> h in groups)
      && (forall h :: h in dirtylist ==> h in groups)
      && (forall h :: h in groups ==> (h in loadedlist <==> h.loaded) && (h in dirtylist <==> h.dirty))
      && (forall h :: h in groups && h != g ==> h.Shape())
      && g in groups && Means(g.list, g.table) && g.loaded
    }

    /** attrgroup_set_dirty. The group may just have got a dirty attribute. */
    method SetDirty(g: AttrGroup)
      requires LinkedBut(g)
      modifies this`dirtylist, g`dirty, g`dirtytime
      ensures Linked() && g.dirty
      ensures dirtylist == if old(g.dirty) then old(dirtylist) else old(dirtylist) + [g]
      ensures g.dirtytime == if old(g.dirty) then old(g.dirtytime) else now
    {
      if g.dirty {
        return;
      }
      g.dirtytime := now;
      g.dirty := true;
      dirtylist := dirtylist + [g];
    }

    // ---------- the public operations ----------

    /** attrgroup_set_attr as callers use it: exactly one attribute of the group's map changes. */
    method Set(g: AttrGroup, key: string, val: Option<string>)
      requires Inv() && g in groups
      modifies this`loadedlist, this`dirtylist, g
      ensures Inv()
      ensures g.View() == Updated(old(g.View()), KeyOf(key).name, val)
      ensures g.stored == old(g.stored)
      ensures val.Some? && Lookup(old(g.View()), KeyOf(key).name) == val ==>
                g.dirty == old(g.dirty) && g.dirtytime == old(g.dirtytime) && dirtylist == old(dirtylist)
      ensures val.Some? && Lookup(old(g.View()), KeyOf(key).name) != val ==> g.dirty
    {
      BaseComplete(g);
      FetchComplete(g.Base(), KeyOf(key).name, g.indexed, g.stored);
      PutView(g.Base(), KeyOf(key).name, val, true);
      PutComplete(g.Base(), KeyOf(key).name, val, g.stored);
      SetAttr(g, KeyOf(key), val, true);
    }

    lemma BaseComplete(g: AttrGroup)
      requires Inv() && g in groups
      ensures Stored(g.stored).Keys <= g.Base().Keys
      ensures forall k :: k in g.Base() && !g.Base()[k].dirty ==> Lookup(Stored(g.stored), k) == g.Base()[k].val
    {
    }

    /** The group's own value of an attribute. */
    method GetOwn(g: AttrGroup, key: Key) returns (val: Option<string>)
      requires Inv() && g in groups
      modifies this`loadedlist, this`dirtylist, g
      ensures Inv() && dirtylist == old(dirtylist)
      ensures g.View() == old(g.View()) && g.stored == old(g.stored) && g.dirty == old(g.dirty) && g.loaded
      ensures val == Lookup(old(g.View()), key.name)
    {
      BaseComplete(g);
      FetchComplete(g.Base(), key.name, g.indexed, g.stored);
      var pos := FindAttr(g, key);
      val := None;
      if pos.Some? {
        assert Holds(g.table, g.list[pos.value]);
        val := g.list[pos.value].val;
      }
    }

    /** attrgroup_get_attrlow: the group's own value, else the default group's. No map changes. */
    method GetLow(g: AttrGroup, key: Key) returns (val: Option<string>)
      requires Inv() && g in groups
      modifies this`loadedlist, this`dirtylist, g, defattrs
      ensures Inv() && defattrs == old(defattrs) && dirtylist == old(dirtylist)
      ensures g.View() == old(g.View()) && g.stored == old(g.stored) && g.dirty == old(g.dirty) && g.loaded
      ensures defattrs.View() == old(defattrs.View()) && defattrs.stored == old(defattrs.stored)
      ensures val == Visible(old(g.View()), old(defattrs.View()), key.name)
      decreases if g == defattrs then 0 else 1
    {
      val := GetOwn(g, key);
      if val.None? && g != defattrs {
        val := GetLow(defattrs, key);
      }
    }

    method Get(g: AttrGroup, key: string) returns (val: Option<string>)
      requires Inv() && g in groups
      modifies this`loadedlist, this`dirtylist, g, defattrs
      ensures Inv() && defattrs == old(defattrs)
      ensures g.View() == old(g.View()) && g.stored == old(g.stored) && g.dirty == old(g.dirty) && g.loaded
      ensures defattrs.View() == old(defattrs.View()) && defattrs.stored == old(defattrs.stored)
      ensures val == Visible(old(g.View()), old(defattrs.View()), KeyOf(key).name)
    {
      val := GetLow(g, KeyOf(key));
    }

    /** attrgroup_clear_dirty, after the storage was written. */
    method ClearDirty(g: AttrGroup)
      requires Linked() && g in groups && g.dirty
      modifies this`dirtylist, g`list, g`table, g`dirty
      ensures Linked() && !g.dirty && g.table == Cleaned(old(g.table))
      ensures dirtylist == Unlink(old(dirtylist), g)
    {
      g.dirty := false;
      UnlinkOnce(dirtylist, g);
      dirtylist := Unlink(dirtylist, g);
      CleanMeans(g.list, g.table);
      g.list := Clean(g.list);
      g.table := Cleaned(g.table);
    }

    /** attrgroup_save: 1 when the storage was written. */
    method Save(g: AttrGroup, force: bool, syncTimer: int) returns (r: int)
      requires Inv() && g in groups
      modifies this`dirtylist, g
      ensures r == if old(g.loaded) && old(g.dirty) && (force || now - old(g.dirtytime) >= syncTimer) then 1 else 0
      ensures Inv() && g.View() == old(g.View()) && g.loaded == old(g.loaded)
      ensures r == 1 ==> !g.dirty && Stored(g.stored) == old(g.View())
      ensures r == 0 ==> g.stored == old(g.stored) && g.list == old(g.list) && g.dirty == old(g.dirty)
      ensures force ==> Stored(g.stored) == g.View()
    {
      if !g.dirty {
        CleanGroup(g);
      }
      if !g.loaded {
        return 0;
      }
      if !g.dirty {
        return 0;
      }
      if !force && now - g.dirtytime < syncTimer {
        return 0;
      }
      WriteBack(g);
      r := 1;
    }

    /** The storage is written, then the group is clean. */
    method WriteBack(g: AttrGroup)
      requires Inv() && g in groups && g.loaded && g.dirty
      modifies this`dirtylist, g
      ensures Inv() && g.View() == old(g.View()) && g.loaded
      ensures !g.dirty && Stored(g.stored) == old(g.View())
    {
      CleanedView(g.table);
      ghost var t := g.table;
      WriteAttrs(g);
      ClearDirty(g);
      WrittenComplete(t, g.stored);
    }

    /** write_attrs. */
    method WriteAttrs(g: AttrGroup)
      requires Linked() && g in groups && g.loaded
      modifies g`stored
      ensures Linked() && Stored(g.stored) == ViewOf(g.table)
    {
      WrittenHolds(g.list, g.table);
      g.stored := Written(g.list);
    }

    /** The end of attrgroup_flush: the list is emptied and the group unloaded. */
    method Unload(g: AttrGroup)
      requires Linked() && g in groups && g.loaded && !g.dirty
      modifies this`loadedlist, g
      ensures Linked() && !g.loaded && !g.accessed && g.stored == old(g.stored)
    {
      g.list := [];
      g.table := map[];
      g.accessed := false;
      g.loaded := false;
      UnlinkOnce(loadedlist, g);
      loadedlist := Unlink(loadedlist, g);
    }

    /** attrgroup_flush: save if dirty, then drop the cached list. 0: not now; 2: not this group; 1: done.
        Which group is the default account, the key of the user name and who is online are given. */
    method Flush(g: AttrGroup, force: bool, isDefault: bool, flushTimer: int, flushConnected: bool,
                 user: Key, online: set<string>)
      returns (r: int)
      requires Inv() && g in groups
      modifies this`loadedlist, this`dirtylist, g, defattrs
      ensures Inv() && defattrs == old(defattrs)
      ensures g.View() == old(g.View()) && defattrs.View() == old(defattrs.View())
      ensures r == 1 ==> !g.loaded && Stored(g.stored) == old(g.View())
      ensures r == 0 <==> !old(g.loaded) || (!force && old(g.accessed) && now - old(g.lastaccess) < flushTimer)
      ensures r == 0 || r == 1 || r == 2
      ensures r != 0 && isDefault ==> r == 2
      ensures r != 0 && !isDefault && (force || flushConnected) ==> r == 1
      ensures r != 0 && !isDefault && !force && !flushConnected ==>
        var own, default := old(g.View()), old(defattrs.View());
        r == 2 <==> if user.name in own then own[user.name] in online
                    else user.name in default && default[user.name] in online
      ensures r != 1 ==> g.stored == old(g.stored)
      ensures g != defattrs ==> defattrs.stored == old(defattrs.stored)
      ensures force && !isDefault ==> Stored(g.stored) == g.View()
    {
      if !g.loaded {
        CleanGroup(g);
        return 0;
      }
      if !force && g.accessed && now - g.lastaccess < flushTimer {
        return 0;
      }
      if isDefault {
        return 2;
      }
      if !flushConnected && !force {
        var connected := IsOnline(g, user, online);
        if connected {
          return 2;
        }
      }
      SaveAndUnload(g);
      r := 1;
    }

    /** Is the account's user name, looked up like any attribute, among the connected users? */
    method IsOnline(g: AttrGroup, user: Key, online: set<string>) returns (r: bool)
      requires Inv() && g in groups
      modifies this`loadedlist, this`dirtylist, g, defattrs
      ensures Inv() && defattrs == old(defattrs) && g.loaded
      ensures g.View() == old(g.View()) && g.stored == old(g.stored)
      ensures defattrs.View() == old(defattrs.View()) && defattrs.stored == old(defattrs.stored)
      ensures var own, default := old(g.View()), old(defattrs.View());
        r <==> if user.name in own then own[user.name] in online
               else user.name in default && default[user.name] in online
    {
      var username := GetLow(g, user);
      r := username.Some? && username.value in online;
    }

    method SaveAndUnload(g: AttrGroup)
      requires Inv() && g in groups && g.loaded
      modifies this`loadedlist, this`dirtylist, g
      ensures Inv() && g.View() == old(g.View())
      ensures !g.loaded && Stored(g.stored) == old(g.View())
    {
      var _ := Save(g, true, 0);
      CleanGroup(g);
      Unload(g);
      LoadedView(g.stored);
    }

    /** A group that is not dirty shows exactly its storage. */
    lemma CleanGroup(g: AttrGroup)
      requires Inv() && g in groups && !g.dirty
      ensures Stored(g.stored) == g.View()
    {
      if !g.loaded {
        LoadedView(g.stored);
        return;
      }
      forall k | k in Stored(g.stored)
        ensures k in g.View() && g.View()[k] == Stored(g.stored)[k]
      {
        assert k in g.table && !g.table[k].dirty;
      }
      forall k | k in g.View()
        ensures k in Stored(g.stored)
      {
        assert k in g.table && !g.table[k].dirty;
      }
    }
  }

  // ---------- tables under the operations ----------

  lemma PutView(t: Table, k: string, val: Option<string>, setDirty: bool)
    ensures ViewOf(Put(t, k, val, setDirty)) == Updated(ViewOf(t), k, val)
  {
  }

  lemma PutComplete(t: Table, k: string, val: Option<string>, lines: seq<Line>)
    requires Stored(lines).Keys <= t.Keys
    requires forall x :: x in t && !t[x].dirty ==> Lookup(Stored(lines), x) == t[x].val
    ensures var u := Put(t, k, val, true);
            Stored(lines).Keys <= u.Keys && forall x :: x in u && !u[x].dirty ==> Lookup(Stored(lines), x) == u[x].val
  {
  }

  function Clean(list: seq<Attr>): (r: seq<Attr>)
    ensures |r| == |list| && forall i :: 0 <= i < |list| ==> r[i] == Attr(list[i].key, list[i].val, false)
  {
    seq(|list|, i requires 0 <= i < |list| => Attr(list[i].key, list[i].val, false))
  }

  ghost function Cleaned(t: Table): Table {
    map k | k in t :: Cell(t[k].val, false)
  }

  lemma CleanMeans(list: seq<Attr>, t: Table)
    requires Means(list, t)
    ensures Means(Clean(list), Cleaned(t))
  {
    var r := Clean(list);
    forall i | 0 <= i < |r|
      ensures Holds(Cleaned(t), r[i])
    {
      assert Holds(t, list[i]);
    }
    forall k | k in t
      ensures HasKey(r, k)
    {
      var i :| 0 <= i < |list| && list[i].Name() == k;
      assert r[i].Name() == k;
    }
  }

  lemma CleanedView(t: Table)
    ensures ViewOf(Cleaned(t)) == ViewOf(t)
    ensures forall k :: k in t ==> Lookup(ViewOf(t), k) == t[k].val
  {
  }

  lemma WrittenComplete(t: Table, lines: seq<Line>)
    requires Stored(lines) == ViewOf(t)
    ensures Stored(lines).Keys <= Cleaned(t).Keys
    ensures forall k :: k in Cleaned(t) ==> Lookup(Stored(lines), k) == Cleaned(t)[k].val
  {
  }

  lemma LoadedView(lines: seq<Line>)
    ensures ViewOf(Loaded(lines)) == Stored(lines)
  {
  }
}
