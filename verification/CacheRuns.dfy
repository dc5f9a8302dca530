/** The attribute cache over whole runs of its public operations on several groups: it answers like plain maps. */
module CacheRuns {
  import opened Common
  import opened AttrTable
  import opened AttrCache

  datatype CacheOp =
    | GetOp(g: nat, key: string)
    | SetOp(g: nat, key: string, val: Option<string>)
    | SaveOp(g: nat, force: bool, syncTimer: int)
    | FlushOp(g: nat, force: bool, isDefault: bool, flushTimer: int, flushConnected: bool, user: Key, online: set<string>)
    | TickOp(time: int)

  predicate InRange(op: CacheOp, n: nat) {
    op.TickOp? || op.g < n
  }

  // ---------- plain maps ----------

  type Maps = seq<map<string, string>>

  function PlainStep(m: Maps, op: CacheOp): (r: Maps)
    requires InRange(op, |m|)
    ensures |r| == |m|
  {
    if op.SetOp? then m[op.g := Updated(m[op.g], KeyOf(op.key).name, op.val)] else m
  }

  /** What the operation shows its caller; `def` is the default group. */
  function PlainAnswer(m: Maps, def: nat, op: CacheOp): Option<string>
    requires InRange(op, |m|) && def < |m|
  {
    if op.GetOp? then Visible(m[op.g], m[def], KeyOf(op.key).name) else None
  }

  ghost predicate AllInRange(ops: seq<CacheOp>, n: nat) {
    forall i :: 0 <= i < |ops| ==> InRange(ops[i], n)
  }

  ghost function PlainRun(m: Maps, ops: seq<CacheOp>): (r: Maps)
    requires AllInRange(ops, |m|)
    ensures |r| == |m|
  {
    if ops == [] then m else PlainStep(PlainRun(m, ops[..|ops| - 1]), ops[|ops| - 1])
  }

  ghost function PlainAnswers(m: Maps, def: nat, ops: seq<CacheOp>): seq<Option<string>>
    requires AllInRange(ops, |m|) && def < |m|
  {
    if ops == [] then []
    else
      var init := ops[..|ops| - 1];
      PlainAnswers(m, def, init) + [PlainAnswer(PlainRun(m, init), def, ops[|ops| - 1])]
  }

  /** The sets of group g, in order. */
  function ChangesOf(ops: seq<CacheOp>, g: nat): seq<Change> {
    if ops == [] then []
    else
      var op := ops[|ops| - 1];
      ChangesOf(ops[..|ops| - 1], g) + if op.SetOp? && op.g == g then [Change(KeyOf(op.key).name, op.val)] else []
  }

  lemma ChangedStep(m: map<string, string>, changes: seq<Change>, c: Change)
    ensures Changed(m, changes + [c]) == Updated(Changed(m, changes), c.k, c.val)
  {
    assert (changes + [c])[..|changes|] == changes;
  }

  lemma ChangesStep(ops: seq<CacheOp>, init: seq<CacheOp>, op: CacheOp, g: nat)
    requires ops != [] && init == ops[..|ops| - 1] && op == ops[|ops| - 1]
    ensures ChangesOf(ops, g)
         == if op.SetOp? && op.g == g then ChangesOf(init, g) + [Change(KeyOf(op.key).name, op.val)] else ChangesOf(init, g)
  {
  }

  lemma {:induction false} RunIsChanges(m: Maps, ops: seq<CacheOp>, g: nat)
    requires AllInRange(ops, |m|) && g < |m|
    ensures PlainRun(m, ops)[g] == Changed(m[g], ChangesOf(ops, g))
  {
    if ops != [] {
      var init, op := ops[..|ops| - 1], ops[|ops| - 1];
      RunIsChanges(m, init, g);
      ChangesStep(ops, init, op, g);
      if op.SetOp? && op.g == g {
        ChangedStep(m[g], ChangesOf(init, g), Change(KeyOf(op.key).name, op.val));
      }
    }
  }

  /** After every run a get of group g shows the last value that the run set for the name in that group; if that is
      none, what the default group then shows; and if the run never set it, the value from before, else the default's. */
  lemma GetAfterRun(m: Maps, def: nat, ops: seq<CacheOp>, g: nat, key: string)
    requires AllInRange(ops, |m|) && g < |m| && def < |m|
    ensures var after, k, changes := PlainRun(m, ops), KeyOf(key).name, ChangesOf(ops, g);
            var i := LastOf(changes, k);
            PlainAnswer(after, def, GetOp(g, key))
            == if i < |changes| then (if changes[i].val.Some? then changes[i].val else Lookup(after[def], k))
               else Visible(m[g], after[def], k)
  {
    RunIsChanges(m, ops, g);
    GetShowsLastSet(m[g], ChangesOf(ops, g), PlainRun(m, ops)[def], KeyOf(key).name);
  }

  // ---------- the cache ----------

  ghost predicate Groups(layer: AttrLayer, gs: seq<AttrGroup>, def: nat)
    reads layer, layer.groups
  {
    && layer.Inv() && Once(gs) && (forall i :: 0 <= i < |gs| ==> gs[i] in layer.groups)
    && def < |gs| && gs[def] == layer.defattrs
  }

  ghost predicate Shows(gs: seq<AttrGroup>, m: Maps)
    reads gs
  {
    |gs| == |m| && forall i :: 0 <= i < |gs| ==> gs[i].View() == m[i]
  }

  /** The operation writes group g back whatever the time and the flags: a forced save, or a forced flush of a group that is
      not the default one. */
  predicate WritesBack(op: CacheOp, g: nat) {
    (op.SaveOp? && op.g == g && op.force) || (op.FlushOp? && op.g == g && op.force && !op.isDefault)
  }

  predicate SetsIn(op: CacheOp, g: nat) {
    op.SetOp? && op.g == g
  }

  ghost predicate NotSetSince(ops: seq<CacheOp>, i: nat, g: nat) {
    forall j :: i < j < |ops| ==> !SetsIn(ops[j], g)
  }

  /** Some operation wrote group g back and nothing was set in it since. */
  ghost predicate SafeAfter(ops: seq<CacheOp>, g: nat) {
    exists i: nat :: i < |ops| && WritesBack(ops[i], g) && NotSetSince(ops, i, g)
  }

  lemma SafeStep(ops: seq<CacheOp>, op: CacheOp, g: nat)
    requires SafeAfter(ops + [op], g)
    ensures WritesBack(op, g) || (SafeAfter(ops, g) && !SetsIn(op, g))
  {
    var all := ops + [op];
    var i: nat :| i < |all| && WritesBack(all[i], g) && NotSetSince(all, i, g);
    if i < |ops| {
      assert all[|ops|] == op && ops[i] == all[i];
      assert forall j :: i < j < |ops| ==> ops[j] == all[j];
      assert NotSetSince(ops, i, g);
    }
  }

  /** Group g's storage holds its plain map. */
  ghost predicate Kept(gs: seq<AttrGroup>, m: Maps, g: nat)
    requires g < |gs| && g < |m|
    reads gs
  {
    Stored(gs[g].stored) == m[g]
  }

  method PerformGet(layer: AttrLayer, gs: seq<AttrGroup>, ghost def: nat, g: nat, key: string, ghost m: Maps)
    returns (answer: Option<string>)
    requires Groups(layer, gs, def) && Shows(gs, m) && g < |gs|
    modifies layer, gs
    ensures Groups(layer, gs, def) && layer.groups == old(layer.groups)
    ensures Shows(gs, m) && answer == PlainAnswer(m, def, GetOp(g, key))
    ensures forall i :: 0 <= i < |gs| ==> gs[i].stored == old(gs[i].stored)
  {
    answer := layer.Get(gs[g], key);
  }

  method PerformSet(layer: AttrLayer, gs: seq<AttrGroup>, ghost def: nat, g: nat, key: string, val: Option<string>, ghost m: Maps)
    requires Groups(layer, gs, def) && Shows(gs, m) && g < |gs|
    modifies layer, gs
    ensures Groups(layer, gs, def) && layer.groups == old(layer.groups)
    ensures Shows(gs, PlainStep(m, SetOp(g, key, val)))
    ensures forall i :: 0 <= i < |gs| ==> gs[i].stored == old(gs[i].stored)
  {
    layer.Set(gs[g], key, val);
  }

  method PerformSave(layer: AttrLayer, gs: seq<AttrGroup>, ghost def: nat, g: nat, force: bool, syncTimer: int, ghost m: Maps)
    requires Groups(layer, gs, def) && Shows(gs, m) && g < |gs|
    modifies layer, gs
    ensures Groups(layer, gs, def) && layer.groups == old(layer.groups) && Shows(gs, m)
    ensures forall i :: 0 <= i < |gs| ==> Stored(gs[i].stored) == m[i] || gs[i].stored == old(gs[i].stored)
    ensures force ==> Kept(gs, m, g)
  {
    var _ := layer.Save(gs[g], force, syncTimer);
  }

  method PerformFlush(layer: AttrLayer, gs: seq<AttrGroup>, ghost def: nat, op: CacheOp, ghost m: Maps)
    requires Groups(layer, gs, def) && Shows(gs, m) && op.FlushOp? && op.g < |gs|
    modifies layer, gs
    ensures Groups(layer, gs, def) && layer.groups == old(layer.groups) && Shows(gs, m)
    ensures forall i :: 0 <= i < |gs| ==> Stored(gs[i].stored) == m[i] || gs[i].stored == old(gs[i].stored)
    ensures op.force && !op.isDefault ==> Kept(gs, m, op.g)
  {
    var _ := layer.Flush(gs[op.g], op.force, op.isDefault, op.flushTimer, op.flushConnected, op.user, op.online);
  }

  method Perform(layer: AttrLayer, gs: seq<AttrGroup>, ghost def: nat, op: CacheOp, ghost m: Maps)
    returns (answer: Option<string>)
    requires Groups(layer, gs, def) && Shows(gs, m) && InRange(op, |gs|)
    modifies layer, gs
    ensures Groups(layer, gs, def) && layer.groups == old(layer.groups)
    ensures Shows(gs, PlainStep(m, op)) && answer == PlainAnswer(m, def, op)
    ensures forall i: nat :: i < |gs| && (WritesBack(op, i) || (old(Kept(gs, m, i)) && !SetsIn(op, i))) ==>
              Kept(gs, PlainStep(m, op), i)
  {
    answer := None;
    match op
    case GetOp(g, key) => answer := PerformGet(layer, gs, def, g, key, m);
    case SetOp(g, key, val) => PerformSet(layer, gs, def, g, key, val, m);
    case SaveOp(g, force, syncTimer) => PerformSave(layer, gs, def, g, force, syncTimer, m);
    case FlushOp(_, _, _, _, _, _, _) => PerformFlush(layer, gs, def, op, m);
    case TickOp(time) => layer.Tick(time);
  }

  /** Every run of gets, sets, saves and flushes on any number of groups, with time passing: the answers are those of
      plain maps that only the sets change, and so is what every group shows in the end; a group that was written back
      after its last set has all of it in its storage. */
  method Play(layer: AttrLayer, gs: seq<AttrGroup>, ghost def: nat, ops: seq<CacheOp>, ghost m: Maps)
    returns (answers: seq<Option<string>>)
    requires Groups(layer, gs, def) && Shows(gs, m) && AllInRange(ops, |gs|)
    modifies layer, gs
    ensures Groups(layer, gs, def)
    ensures Shows(gs, PlainRun(m, ops)) && answers == PlainAnswers(m, def, ops)
    ensures forall g: nat :: g < |gs| && SafeAfter(ops, g) ==> Stored(gs[g].stored) == PlainRun(m, ops)[g]
  {
    answers := [];
    ghost var now := m;
    var i := 0;
    while i < |ops|
      invariant 0 <= i <= |ops| && AllInRange(ops[..i], |m|)
      invariant Groups(layer, gs, def) && Shows(gs, now) && now == PlainRun(m, ops[..i])
      invariant answers == PlainAnswers(m, def, ops[..i])
      invariant forall g: nat :: g < |gs| && SafeAfter(ops[..i], g) ==> Kept(gs, now, g)
    {
      assert ops[..i + 1][..i] == ops[..i] && ops[..i + 1][i] == ops[i];
      ghost var before := ops[..i];
      assert ops[..i + 1] == before + [ops[i]];
      var answer := Perform(layer, gs, def, ops[i], now);
      forall g: nat | g < |gs| && SafeAfter(ops[..i + 1], g)
        ensures Kept(gs, PlainStep(now, ops[i]), g)
      {
        SafeStep(before, ops[i], g);
      }
      answers := answers + [answer];
      now := PlainStep(now, ops[i]);
      i := i + 1;
    }
    assert ops[..i] == ops;
  }
}
