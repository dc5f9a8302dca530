/** A map preference mask, an unsigned 32-bit integer, and the set of map slots it stands for: bit i
    is slot i. The mask is kept as its value, with bitwise `and` spelled out bit by bit. */
module MapMask {
  import opened FixedWidth
  import opened Seats

  type Mask = m: int | 0 <= m < 0x1_0000_0000

  function And(a: nat, b: nat): (r: nat)
    ensures r <= a && r <= b
  {
    if a == 0 || b == 0 then 0
    else 2 * And(a / 2, b / 2) + if a % 2 == 1 && b % 2 == 1 then 1 else 0
  }

  /** The slots of the bits of `m` when bit 0 of `m` stands for slot `i`. */
  function SlotsFrom(m: nat, i: nat): (r: set<int>)
    ensures forall k :: k in r ==> i <= k
    ensures r == {} <==> m == 0
  {
    if m == 0 then {}
    else (if m % 2 == 1 then {i} else {}) + SlotsFrom(m / 2, i + 1)
  }

  function Slots(m: Mask): set<int> {
    SlotsFrom(m, 0)
  }

  lemma SlotsStep(m: nat, i: nat)
    ensures SlotsFrom(m, i) == if m % 2 == 1 then {i} + SlotsFrom(m / 2, i + 1) else SlotsFrom(m / 2, i + 1)
  {
  }

  lemma {:induction false} SlotFromIs(m: nat, i: nat, k: nat)
    ensures i + k in SlotsFrom(m, i) <==> m / Pow2(k) % 2 == 1
    decreases k
  {
    SlotsStep(m, i);
    if k > 0 {
      SlotFromIs(m / 2, i + 1, k - 1);
      HalfFirst(m, Pow2(k - 1));
    } else {
      assert m / 1 == m;
    }
  }

  lemma HalfFirst(m: nat, p: nat)
    requires p > 0
    ensures m / (2 * p) == m / 2 / p
  {
    var q, r := m / 2 / p, m / 2 % p;
    assert m / 2 == q * p + r;
    assert m == q * (2 * p) + (2 * r + m % 2);
    DivModUnique(m, 2 * p, q, 2 * r + m % 2);
  }

  /** Slot k belongs to a mask exactly when its bit k is set. */
  lemma SlotIs(m: Mask, k: nat)
    ensures k in Slots(m) <==> m / Pow2(k) % 2 == 1
  {
    SlotFromIs(m, 0, k);
  }

  lemma AndStep(a: nat, b: nat)
    ensures And(a, b) / 2 == And(a / 2, b / 2)
    ensures And(a, b) % 2 == 1 <==> a % 2 == 1 && b % 2 == 1
  {
  }

  lemma {:induction false} SlotsFromAnd(a: nat, b: nat, i: nat)
    ensures SlotsFrom(And(a, b), i) == SlotsFrom(a, i) * SlotsFrom(b, i)
  {
    if a == 0 || b == 0 {
    } else {
      SlotsFromAnd(a / 2, b / 2, i + 1);
      SlotsStep(a, i);
      SlotsStep(b, i);
      AndStep(a, b);
      SlotsStep(And(a, b), i);
      var x, y := SlotsFrom(a / 2, i + 1), SlotsFrom(b / 2, i + 1);
      assert i !in x && i !in y;
    }
  }

  /** Intersecting two masks intersects their slots; the common mask is non-zero exactly when they share one. */
  lemma SlotsAnd(a: Mask, b: Mask)
    ensures Slots(And(a, b)) == Slots(a) * Slots(b)
    ensures And(a, b) != 0 <==> Slots(a) * Slots(b) != {}
  {
    SlotsFromAnd(a, b, 0);
  }

  lemma {:induction false} SlotsFromBelow(m: nat, i: nat, n: nat)
    requires m < Pow2(n)
    ensures forall k :: k in SlotsFrom(m, i) ==> k < i + n
  {
    if m == 0 {
    } else {
      SlotsFromBelow(m / 2, i + 1, n - 1);
    }
  }

  /** A 32-bit mask names slots 0 to 31 only. */
  lemma SlotsBelow32(m: Mask)
    ensures forall k :: k in Slots(m) ==> 0 <= k < 32
  {
    Pow2Is32();
    SlotsFromBelow(m, 0, 32);
  }
}
