/** The map lists and the random choice of a map from a preference mask
    (src/bnetd/anongame_maplists.cpp:42-53, 86-190, 341-356; src/bnetd/anongame.cpp:233-269). */
module MapChoice {
  import opened Common
  import opened FixedWidth
  import opened MapMask
  import opened QueueTypes

  const MAXMAPS := 100
  const MAXMAPS_PER_QUEUE := 32
  const DEFAULT_MAP := "Maps\\(8)PlainsOfSnow.w3m"

  datatype ClientTag = War3 | War3XP | OtherTag

  /** The maps of one client: their names, and per queue the number of registered maps (slot 0) followed
      by their indexes into the names. */
  class MapTable {
    const maplist: array<Option<string>>
    var numberMaps: nat
    const maplists: array2<nat>

    ghost predicate Valid()
      reads this, maplist, maplists
    {
      && maplist.Length == MAXMAPS && numberMaps <= MAXMAPS
      && maplists.Length0 == ANONGAME_TYPES && maplists.Length1 == MAXMAPS_PER_QUEUE + 1
      && (forall k :: 0 <= k < MAXMAPS ==> (maplist[k].Some? <==> k < numberMaps))
      && (forall q :: 0 <= q < ANONGAME_TYPES ==> maplists[q, 0] <= MAXMAPS_PER_QUEUE)
      && (forall q, s :: 0 <= q < ANONGAME_TYPES && 1 <= s <= maplists[q, 0] ==> maplists[q, s] < numberMaps)
      && (forall q, s :: 0 <= q < ANONGAME_TYPES && maplists[q, 0] < s <= MAXMAPS_PER_QUEUE ==> maplists[q, s] == 0)
    }

    constructor ()
      ensures Valid() && fresh(maplist) && fresh(maplists)
      ensures forall q :: 0 <= q < ANONGAME_TYPES ==> maplists[q, 0] == 0
    {
      maplist := new Option<string>[MAXMAPS](_ => None);
      maplists := new nat[ANONGAME_TYPES, MAXMAPS_PER_QUEUE + 1]((_, _) => 0);
      numberMaps := 0;
    }

    /** maplists_get_map: the name in slot `mapnumber` of a queue; an unregistered slot reads index 0. */
    function Get(queue: nat, mapnumber: nat): Option<string>
      requires Valid() && queue < ANONGAME_TYPES && 1 <= mapnumber <= MAXMAPS_PER_QUEUE
      reads this, maplist, maplists
    {
      maplist[maplists[queue, mapnumber]]
    }

    /** Slot k leads to the k-th map registered for the queue, an unregistered slot to the first name of all. */
    lemma GetIs(queue: nat, slot: nat)
      requires Valid() && queue < ANONGAME_TYPES && slot < MAXMAPS_PER_QUEUE
      ensures var maps := QueueMaps(queue);
              Get(queue, slot + 1) == if slot < |maps| then Some(maps[slot]) else if numberMaps > 0 then maplist[0] else None
    {
    }

    /** The names registered for a queue, in order. */
    ghost function QueueMaps(queue: nat): (r: seq<string>)
      requires Valid() && queue < ANONGAME_TYPES
      reads this, maplist, maplists
      ensures |r| == maplists[queue, 0]
      ensures forall s :: 0 <= s < |r| ==> r[s] == maplist[maplists[queue, s + 1]].value
    {
      var n := maplists[queue, 0];
      seq(n, s requires Valid() && 0 <= s < n <= maplists[queue, 0] reads this, maplist, maplists =>
        maplist[maplists[queue, s + 1]].value)
    }

    /** Position of `name` among the names, or their number (the search loop of _maplists_add_map). */
    method Find(name: string) returns (j: nat)
      requires Valid()
      ensures j <= numberMaps
      ensures j < numberMaps ==> maplist[j] == Some(name)
      ensures forall k :: 0 <= k < j ==> maplist[k] != Some(name)
    {
      j := 0;
      while j < numberMaps && maplist[j] != Some(name)
        invariant j <= numberMaps
        invariant forall k :: 0 <= k < j ==> maplist[k] != Some(name)
      {
        j := j + 1;
      }
    }

    ghost predicate Knows(name: string)
      requires Valid()
      reads this, maplist, maplists
    {
      exists k :: 0 <= k < numberMaps && maplist[k] == Some(name)
    }

    /** First half of _maplists_add_map: the name's index, storing the name only if it is new. The name
        array itself is not bounds-checked by the code: a new name needs room. */
    method Intern(name: string) returns (j: nat)
      requires Valid() && (Knows(name) || numberMaps < MAXMAPS)
      modifies this`numberMaps, maplist
      ensures Valid() && j < numberMaps && maplist[j] == Some(name)
      ensures numberMaps == old(numberMaps) + if old(Knows(name)) then 0 else 1
      ensures forall k :: 0 <= k < old(numberMaps) ==> maplist[k] == old(maplist[k])
    {
      j := Find(name);
      if j == numberMaps {
        maplist[numberMaps] := Some(name);
        numberMaps := numberMaps + 1;
      }
    }

    /** Second half: the queue's list gains index j at its end unless it is full. */
    method Register(queue: nat, j: nat)
      requires Valid() && queue < ANONGAME_TYPES && j < numberMaps
      modifies maplists
      ensures Valid()
      ensures maplists[queue, 0] == old(maplists[queue, 0]) + if old(maplists[queue, 0]) < MAXMAPS_PER_QUEUE then 1 else 0
      ensures old(maplists[queue, 0]) < MAXMAPS_PER_QUEUE ==> maplists[queue, maplists[queue, 0]] == j
      ensures forall q, s ::
                (0 <= q < ANONGAME_TYPES && 0 <= s <= MAXMAPS_PER_QUEUE &&
                 (q != queue || 1 <= s <= old(maplists[queue, 0]))) ==> maplists[q, s] == old(maplists[q, s])
    {
      if maplists[queue, 0] < MAXMAPS_PER_QUEUE {
        maplists[queue, 0] := maplists[queue, 0] + 1;
        maplists[queue, maplists[queue, 0]] := j;
      }
    }

    /** _maplists_add_map: the queue's list gains the map at its end unless it is full; the other queues
        keep their maps. */
    method AddMap(name: string, queue: nat)
      requires Valid() && queue < ANONGAME_TYPES && (Knows(name) || numberMaps < MAXMAPS)
      modifies this`numberMaps, maplist, maplists
      ensures Valid()
      ensures QueueMaps(queue) == old(QueueMaps(queue))
                                  + if old(|QueueMaps(queue)|) < MAXMAPS_PER_QUEUE then [name] else []
      ensures forall q :: 0 <= q < ANONGAME_TYPES && q != queue ==> QueueMaps(q) == old(QueueMaps(q))
    {
      var j := Intern(name);
      Register(queue, j);
    }
  }

  /** The slots of a mask in ascending order, when bit 0 stands for slot `i`. */
  function SlotList(m: nat, i: nat): (r: seq<nat>)
    ensures m > 0 ==> |r| > 0
  {
    if m == 0 then [] else (if m % 2 == 1 then [i] else []) + SlotList(m / 2, i + 1)
  }

  lemma {:induction false} SlotListIs(m: nat, i: nat)
    ensures forall k :: k in SlotList(m, i) <==> k in SlotsFrom(m, i)
    ensures forall x, y :: 0 <= x < y < |SlotList(m, i)| ==> SlotList(m, i)[x] < SlotList(m, i)[y]
  {
    if m > 0 {
      SlotListIs(m / 2, i + 1);
      var rest := SlotList(m / 2, i + 1);
      forall x | 0 <= x < |rest|
        ensures i < rest[x]
      {
        assert rest[x] in SlotsFrom(m / 2, i + 1);
      }
    }
  }

  lemma SlotListStep(m: nat, i: nat)
    ensures SlotList(m, i) == if m % 2 == 1 then [i] + SlotList(m / 2, i + 1) else SlotList(m / 2, i + 1)
  {
  }

  lemma SlotListIn(m: Mask)
    ensures forall x :: 0 <= x < |SlotList(m, 0)| ==> SlotList(m, 0)[x] < 32 && SlotList(m, 0)[x] in Slots(m)
  {
    SlotListIs(m, 0);
    SlotsBelow32(m);
    var s := SlotList(m, 0);
    forall x | 0 <= x < |s|
      ensures s[x] < 32 && s[x] in Slots(m)
    {
      var k: int := s[x];
      assert k in s;
      assert k in Slots(m);
    }
  }

  /** _get_map_from_prefs for a non-zero mask: with j bits set, the random number selects the (rand % j)-th of them, which
      leads to the map registered in that place; an unregistered one leads to the first of all names. */
  method GetMapFromPrefs(war3: MapTable, w3xp: MapTable, queue: nat, prefs: Mask, tag: ClientTag, rand: nat)
    returns (selected: string)
    requires war3.Valid() && w3xp.Valid() && queue < ANONGAME_TYPES && prefs != 0
    ensures Chosen(war3, w3xp, queue, Slots(prefs), tag, selected)
    ensures tag == OtherTag ==> selected == DEFAULT_MAP
    ensures tag != OtherTag ==>
      var s := SlotList(prefs, 0); var slot := s[rand % |s|];
      var table := if tag == War3 then war3 else w3xp; var maps := table.QueueMaps(queue);
      if slot < |maps| then selected == maps[slot]
      else selected == if table.numberMaps > 0 then table.maplist[0].value else DEFAULT_MAP
  {
    if tag == OtherTag {
      return DEFAULT_MAP;
    }
    var table := if tag == War3 then war3 else w3xp;
    ghost var s := SlotList(prefs, 0);
    SlotListIn(prefs);
    var resMaps := MapNames(table, queue, prefs);
    var pick := rand % |resMaps|;
    assert s[pick] in Slots(prefs) && resMaps[pick] == table.Get(queue, s[pick] + 1);
    table.GetIs(queue, s[pick]);
    selected := if resMaps[pick].Some? then resMaps[pick].value else DEFAULT_MAP;
  }

  /** `names` are the maps in the given slots. */
  ghost predicate Named(table: MapTable, queue: nat, slots: seq<nat>, names: seq<Option<string>>)
    requires table.Valid() && queue < ANONGAME_TYPES
    reads table, table.maplist, table.maplists
  {
    |names| == |slots| && forall k :: 0 <= k < |slots| ==> slots[k] < 32 && names[k] == table.Get(queue, slots[k] + 1)
  }

  /** The loop over the 32 bits. */
  method MapNames(table: MapTable, queue: nat, prefs: Mask) returns (resMaps: seq<Option<string>>)
    requires table.Valid() && queue < ANONGAME_TYPES
    ensures Named(table, queue, SlotList(prefs, 0), resMaps)
  {
    resMaps := [];
    ghost var done: seq<nat> := [];
    var cur: nat := prefs;
    var i: nat := 0;
    Pow2Is32();
    assert done + SlotList(cur, 0) == SlotList(cur, 0);
    while i < 32
      invariant i <= 32 && cur < Pow2(32 - i)
      invariant done + SlotList(cur, i) == SlotList(prefs, 0)
      invariant Named(table, queue, done, resMaps)
    {
      resMaps, done := TestBit(table, queue, cur, i, resMaps, done);
      cur := cur / 2;
      i := i + 1;
    }
    assert done + [] == done;
  }

  lemma Shifted(a: seq<nat>, i: nat, b: seq<nat>)
    ensures a + ([i] + b) == (a + [i]) + b
  {
  }

  method TestBit(table: MapTable, queue: nat, cur: nat, i: nat, names: seq<Option<string>>, ghost slots: seq<nat>)
    returns (more: seq<Option<string>>, ghost now: seq<nat>)
    requires table.Valid() && queue < ANONGAME_TYPES && i < 32 && Named(table, queue, slots, names)
    ensures Named(table, queue, now, more) && now + SlotList(cur / 2, i + 1) == slots + SlotList(cur, i)
  {
    SlotListStep(cur, i);
    more, now := names, slots;
    if cur % 2 == 1 {
      Shifted(slots, i, SlotList(cur / 2, i + 1));
      more := names + [table.Get(queue, i + 1)];
      now := slots + [i];
    }
  }

  /** `name` is the map registered in place `slot`, or the first of all names when there is none. */
  ghost predicate Leads(table: MapTable, queue: nat, slot: int, name: string)
    requires table.Valid() && queue < ANONGAME_TYPES && 0 <= slot < 32
    reads table, table.maplist, table.maplists
  {
    var maps := table.QueueMaps(queue);
    name == if slot < |maps| then maps[slot] else if table.numberMaps > 0 then table.maplist[0].value else DEFAULT_MAP
  }

  ghost predicate Chosen(war3: MapTable, w3xp: MapTable, queue: nat, slots: set<int>, tag: ClientTag, name: string)
    requires war3.Valid() && w3xp.Valid() && queue < ANONGAME_TYPES
    reads war3, war3.maplist, war3.maplists, w3xp, w3xp.maplist, w3xp.maplists
  {
    if tag == OtherTag then name == DEFAULT_MAP
    else exists slot :: slot in slots && 0 <= slot < 32 && Leads(if tag == War3 then war3 else w3xp, queue, slot, name)
  }

  /** If the mask only names registered slots, the chosen map is the one registered in one of them. */
  lemma ChosenIsRegistered(war3: MapTable, w3xp: MapTable, queue: nat, slots: set<int>, tag: ClientTag, name: string)
    requires war3.Valid() && w3xp.Valid() && queue < ANONGAME_TYPES && tag != OtherTag
    requires Chosen(war3, w3xp, queue, slots, tag, name)
    requires forall slot :: slot in slots ==> slot < |(if tag == War3 then war3 else w3xp).QueueMaps(queue)|
    ensures var maps := (if tag == War3 then war3 else w3xp).QueueMaps(queue);
            exists slot :: slot in slots && 0 <= slot < |maps| && maps[slot] == name
  {
    var table := if tag == War3 then war3 else w3xp;
    var slot :| slot in slots && 0 <= slot < 32 && Leads(table, queue, slot, name);
    assert table.QueueMaps(queue)[slot] == name;
  }
}
