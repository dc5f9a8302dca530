/** Counting decimal digits from the bit length, and the loop that does without it
    (lib/fmt/format.h:926-951, 1028-1034; lib/fmt/format-inl.h:246-268). */
module CountDigits {
  import opened DecimalText
  import opened FixedWidth

  /** Number of bits of n: the width minus what count-leading-zeros returns. */
  function BitLength(n: nat): nat {
    if n == 0 then 0 else 1 + BitLength(n / 2)
  }

  lemma {:induction false} BitLengthBounds(n: nat)
    ensures n < Pow2(BitLength(n))
    ensures n > 0 ==> Pow2(BitLength(n) - 1) <= n
  {
    if n > 1 {
      BitLengthBounds(n / 2);
    }
  }

  /** n | 1 */
  function Or1(n: nat): nat {
    if n % 2 == 0 then n + 1 else n
  }

  lemma OddBitLength(n: nat)
    ensures BitLength(Or1(n)) == if n == 0 then 1 else BitLength(n)
  {
    assert Or1(n) / 2 == n / 2;
  }

  /** The tables POWERS_OF_10_32 (entries 0 to 9) and POWERS_OF_10_64 (entries 0 to 19). */
  function PowersOf10(t: nat, entries: nat): nat
    requires t < entries
  {
    if t == 0 then 0 else Pow10(t)
  }

  /** The estimate of log10 from the bit length. */
  function Estimate(b: nat): nat {
    b * 1233 / 4096
  }

  /** The largest bit length with estimate t. */
  function Longest(t: nat): nat {
    (4096 * (t + 1) - 1) / 1233
  }

  lemma BitLengthOfEstimate(b: nat)
    ensures b <= Longest(Estimate(b))
    ensures Estimate(b) > 0 ==> Longest(Estimate(b) - 1) < b
  {
  }

  /** Numbers whose bit length has estimate t have t or t + 1 digits. */
  predicate Brackets(t: nat) {
    Pow10(t) <= Pow2(Longest(t)) <= Pow10(t + 1)
  }

  lemma Pow2Values()
    ensures Pow2(3) == 0x8 && Pow2(6) == 0x40 && Pow2(9) == 0x200 && Pow2(13) == 0x2000 && Pow2(16) == 0x10000
    ensures Pow2(19) == 0x80000 && Pow2(23) == 0x800000 && Pow2(26) == 0x4000000 && Pow2(29) == 0x20000000 && Pow2(33) == 0x200000000
    ensures Pow2(36) == 0x1000000000 && Pow2(39) == 0x8000000000 && Pow2(43) == 0x80000000000 && Pow2(46) == 0x400000000000 && Pow2(49) == 0x2000000000000
    ensures Pow2(53) == 0x20000000000000 && Pow2(56) == 0x100000000000000 && Pow2(59) == 0x800000000000000 && Pow2(63) == 0x8000000000000000 && Pow2(66) == 0x40000000000000000
  {
    assert Pow2(3) == 0x8;
    assert Pow2(6) == 0x40;
    assert Pow2(9) == 0x200;
    assert Pow2(13) == 0x2000;
    assert Pow2(16) == 0x10000;
    assert Pow2(19) == 0x80000;
    assert Pow2(23) == 0x800000;
    assert Pow2(26) == 0x4000000;
    assert Pow2(29) == 0x20000000;
    assert Pow2(33) == 0x200000000;
    assert Pow2(36) == 0x1000000000;
    assert Pow2(39) == 0x8000000000;
    assert Pow2(43) == 0x80000000000;
    assert Pow2(46) == 0x400000000000;
    assert Pow2(49) == 0x2000000000000;
    assert Pow2(53) == 0x20000000000000;
    assert Pow2(56) == 0x100000000000000;
    assert Pow2(59) == 0x800000000000000;
    assert Pow2(63) == 0x8000000000000000;
    assert Pow2(66) == 0x40000000000000000;
  }

  lemma Pow10Values()
    ensures Pow10(0) == 1 && Pow10(1) == 10 && Pow10(2) == 100 && Pow10(3) == 1000 && Pow10(4) == 10000
    ensures Pow10(5) == 100000 && Pow10(6) == 1000000 && Pow10(7) == 10000000 && Pow10(8) == 100000000 && Pow10(9) == 1000000000
    ensures Pow10(10) == 10000000000 && Pow10(11) == 100000000000 && Pow10(12) == 1000000000000 && Pow10(13) == 10000000000000 && Pow10(14) == 100000000000000
    ensures Pow10(15) == 1000000000000000 && Pow10(16) == 10000000000000000 && Pow10(17) == 100000000000000000 && Pow10(18) == 1000000000000000000 && Pow10(19) == 10000000000000000000
    ensures Pow10(20) == 100000000000000000000
  {
    assert Pow10(4) == 10000;
    assert Pow10(8) == 100000000;
    assert Pow10(12) == 1000000000000;
    assert Pow10(16) == 10000000000000000;
  }

  lemma EstimateBrackets(t: nat)
    requires t < 20
    ensures Brackets(t)
  {
    Pow2Values();
    Pow10Values();
    match t
    case 0 => assert Longest(t) == 3;
    case 1 => assert Longest(t) == 6;
    case 2 => assert Longest(t) == 9;
    case 3 => assert Longest(t) == 13;
    case 4 => assert Longest(t) == 16;
    case 5 => assert Longest(t) == 19;
    case 6 => assert Longest(t) == 23;
    case 7 => assert Longest(t) == 26;
    case 8 => assert Longest(t) == 29;
    case 9 => assert Longest(t) == 33;
    case 10 => assert Longest(t) == 36;
    case 11 => assert Longest(t) == 39;
    case 12 => assert Longest(t) == 43;
    case 13 => assert Longest(t) == 46;
    case 14 => assert Longest(t) == 49;
    case 15 => assert Longest(t) == 53;
    case 16 => assert Longest(t) == 56;
    case 17 => assert Longest(t) == 59;
    case 18 => assert Longest(t) == 63;
    case _ => assert Longest(t) == 66;
  }

  lemma WordSizes()
    ensures Pow2(32) == 0x1_0000_0000 && Pow2(64) == 0x1_0000_0000_0000_0000
  {
    assert Pow2(8) == 0x100;
    assert Pow2(16) == 0x1_0000;
    assert Pow2(24) == 0x100_0000;
    assert Pow2(32) == 0x1_0000_0000;
    assert Pow2(40) == 0x100_0000_0000;
    assert Pow2(48) == 0x1_0000_0000_0000;
    assert Pow2(56) == 0x100_0000_0000_0000;
  }

  lemma {:induction false} BitLengthWithin(n: nat, w: nat)
    requires n < Pow2(w)
    ensures BitLength(n) <= w
  {
    if n > 0 {
      BitLengthWithin(n / 2, w - 1);
    }
  }

  lemma EstimateRange(b: nat)
    requires 1 <= b <= 64
    ensures Estimate(b) < 20 && (b <= 32 ==> Estimate(b) < 10)
  {
  }

  lemma BoundsBetween(n: nat, b: nat, t: nat, long: nat, before: nat)
    requires 1 <= b <= long && n < Pow2(b) && Pow2(long) <= Pow10(t + 1)
    requires t > 0 ==> before < b && Pow2(b - 1) <= n && Pow10(t - 1) <= Pow2(before)
    ensures n < Pow10(t + 1) && (t > 0 ==> Pow10(t - 1) <= n)
  {
    Pow2Monotone(b, long);
    if t > 0 {
      Pow2Monotone(before, b - 1);
    }
  }

  lemma Frame(b: nat) returns (t: nat, long: nat, before: nat)
    requires 1 <= b <= 64
    ensures t == Estimate(b) && b <= long && Pow2(long) <= Pow10(t + 1)
    ensures t > 0 ==> 0 < before < b && Pow10(t - 1) <= Pow2(before)
  {
    EstimateRange(b);
    BitLengthOfEstimate(b);
    t := Estimate(b);
    EstimateBrackets(t);
    long, before := Longest(t), 0;
    if t > 0 {
      EstimateBrackets(t - 1);
      before := Longest(t - 1);
    }
  }

  /** A number of b bits has as many digits as the estimate, or one more. */
  lemma EstimateBounds(n: nat, b: nat)
    requires 1 <= b <= 64 && n < Pow2(b) && (b == 1 || Pow2(b - 1) <= n)
    ensures n < Pow10(Estimate(b) + 1)
    ensures Estimate(b) > 0 ==> Pow10(Estimate(b) - 1) <= n
  {
    var t, long, before := Frame(b);
    BoundsBetween(n, b, t, long, before);
  }

  /** The correction by one comparison with a table entry makes the estimate exact. */
  lemma EstimateCorrected(n: nat, b: nat)
    requires 1 <= b <= 64 && n < Pow2(b) && (b == 1 || Pow2(b - 1) <= n)
    ensures Estimate(b) < 20 && (b <= 32 ==> Estimate(b) < 10)
    ensures DigitCount(n) == Estimate(b) + 1 - if n < PowersOf10(Estimate(b), 20) then 1 else 0
  {
    var t := Estimate(b);
    EstimateRange(b);
    EstimateBounds(n, b);
    CountFromBounds(n, if t > 0 && n < Pow10(t) then t else t + 1);
  }

  /** t - (n < table[t]) + 1 with t estimated from the leading zeros of n | 1. */
  function Corrected(n: nat, entries: nat): nat
    requires Estimate(BitLength(Or1(n))) < entries
  {
    var t := Estimate(BitLength(Or1(n)));
    if n < PowersOf10(t, entries) then t else t + 1
  }

  /** For every number of w <= 64 bits, also 0, the table index is in range and the result is its digit count. */
  lemma CorrectedIsCount(n: nat, w: nat)
    requires 1 <= w <= 64 && n < Pow2(w)
    ensures Estimate(BitLength(Or1(n))) < 20 && (w <= 32 ==> Estimate(BitLength(Or1(n))) < 10)
    ensures Corrected(n, 20) == DigitCount(n)
  {
    OddBitLength(n);
    BitLengthBounds(n);
    BitLengthWithin(n, w);
    EstimateCorrected(n, BitLength(Or1(n)));
  }

  /** count_digits for 64 bits. */
  function Count64(n: uint64): (r: nat)
    ensures r == DigitCount(n as nat)
  {
    WordSizes();
    CorrectedIsCount(n as nat, 64);
    Corrected(n as nat, 20)
  }

  /** count_digits for 32 bits; the ten entries of the short table are enough. */
  function Count32(n: uint32): (r: nat)
    ensures r == DigitCount(n as nat)
  {
    WordSizes();
    CorrectedIsCount(n as nat, 32);
    Corrected(n as nat, 10)
  }

  /** The fallback that divides by 10000. */
  method CountLoop(value: uint64) returns (count: nat)
    ensures count == DigitCount(value as nat)
  {
    var n := value;
    count := 1;
    while true
      invariant 1 <= count && count - 1 + DigitCount(n as nat) == DigitCount(value as nat)
      decreases n
    {
      FirstFour(n as nat);
      if n < 10 { return count; }
      if n < 100 { return count + 1; }
      if n < 1000 { return count + 2; }
      if n < 10000 { return count + 3; }
      n := n / 10000;
      count := count + 4;
    }
  }

  lemma FirstFour(n: nat)
    ensures DigitCount(n) == if n < 10 then 1 else if n < 100 then 2 else if n < 1000 then 3 else if n < 10000 then 4
                             else DigitCount(n / 10000) + 4
  {
    assert n / 10 / 10 / 10 / 10 == n / 10000;
    assert DigitCount(n / 10) == if n / 10 < 10 then 1 else DigitCount(n / 10 / 10) + 1;
    assert DigitCount(n / 10 / 10) == if n / 10 / 10 < 10 then 1 else DigitCount(n / 10 / 10 / 10) + 1;
    assert DigitCount(n / 10 / 10 / 10) == if n / 10 / 10 / 10 < 10 then 1 else DigitCount(n / 10 / 10 / 10 / 10) + 1;
  }
}
