/** Printing a 32-bit number two digits at a time from a fixed-point product
    (lib/fmt/format.h:964-1014; lib/fmt/format-inl.h:238-243). */
module DecimalFormatter {
  import opened DecimalText
  import opened FixedWidth

  const TWO32 := 0x1_0000_0000

  /** One decade of the table DIGITS. */
  function Decade(d: nat): string {
    match d
    case 0 => "00010203040506070809"
    case 1 => "10111213141516171819"
    case 2 => "20212223242526272829"
    case 3 => "30313233343536373839"
    case 4 => "40414243444546474849"
    case 5 => "50515253545556575859"
    case 6 => "60616263646566676869"
    case 7 => "70717273747576777879"
    case 8 => "80818283848586878889"
    case _ => "90919293949596979899"
  }

  /** The pair at place e of a decade reads the digits d and e. */
  predicate Reads(decade: string, d: nat, e: nat) {
    d < 10 && e < 10 && |decade| == 20 && decade[2 * e] == DigitChar(d) && decade[2 * e + 1] == DigitChar(e)
  }

  lemma LowDecades(d: nat, e: nat)
    requires 0 <= d < 3 && e < 10
    ensures Reads(Decade(d), d, e)
  {
    if d == 0 {
    } else if d == 1 {
    } else {
    }
  }

  lemma MidDecades(d: nat, e: nat)
    requires 3 <= d < 6 && e < 10
    ensures Reads(Decade(d), d, e)
  {
    if d == 3 {
    } else if d == 4 {
    } else {
    }
  }

  lemma HighDecades(d: nat, e: nat)
    requires 6 <= d < 8 && e < 10
    ensures Reads(Decade(d), d, e)
  {
    if d == 6 {
    } else {
    }
  }

  lemma TopDecades(d: nat, e: nat)
    requires 8 <= d < 10 && e < 10
    ensures Reads(Decade(d), d, e)
  {
    if d == 8 {
    } else {
    }
  }

  lemma DecadeReads(d: nat, e: nat)
    requires d < 10 && e < 10
    ensures Reads(Decade(d), d, e)
  {
    if d < 3 {
      LowDecades(d, e);
    } else if d < 6 {
      MidDecades(d, e);
    } else if d < 8 {
      HighDecades(d, e);
    } else {
      TopDecades(d, e);
    }
  }

  /** Character j of the table DIGITS. */
  function Digits(j: nat): char
    requires j < 200
  {
    DecadeReads(j / 20, 0);
    Decade(j / 20)[j % 20]
  }

  /** Entry k of the table is the two digits of k. */
  lemma DigitsTable(k: nat)
    requires k < 100
    ensures Digits(2 * k) == DigitChar(k / 10) && Digits(2 * k + 1) == DigitChar(k % 10)
  {
    var d, e := k / 10, k % 10;
    DecadeReads(d, e);
    assert (2 * k) / 20 == d && (2 * k) % 20 == 2 * e && (2 * k + 1) / 20 == d && (2 * k + 1) % 20 == 2 * e + 1;
  }

  /** The two characters of a table entry. */
  method LookUp(k: nat) returns (high: char, low: char)
    requires k < 100
    ensures high == DigitChar(k / 10) && low == DigitChar(k % 10)
  {
    DigitsTable(k);
    high, low := Digits(2 * k), Digits(2 * k + 1);
  }

  // ---------- the fixed-point start ----------

  /** The table POWERS_OF_10_32. */
  function PowersOf10(n: nat): nat
    requires n < 10
  {
    if n == 0 then 0 else Pow10(n)
  }

  /** The constants `a` and the first `t` of on<N>, with n = N - 1. */
  function Shift(n: nat): nat {
    n / 5 * n * 53 / 16
  }

  function Multiplier(n: nat): int
    requires 1 <= n <= 8
  {
    Pow2(32 + Shift(n)) / PowersOf10(n) + 1 - n / 9
  }

  lemma Pow2Values()
    ensures Pow2(0) == 1 && Pow2(16) == 65536 && Pow2(19) == 524288 && Pow2(23) == 8388608 && Pow2(26) == 67108864
    ensures Pow2(32) == TWO32 && Pow2(48) == 0x1_0000_0000_0000 && Pow2(51) == 0x8_0000_0000_0000
    ensures Pow2(55) == 0x80_0000_0000_0000 && Pow2(58) == 0x400_0000_0000_0000
  {
    assert Pow2(8) == 256;
    assert Pow2(16) == 65536;
    assert Pow2(24) == 0x100_0000;
    assert Pow2(32) == TWO32;
    assert Pow2(40) == 0x100_0000_0000;
    assert Pow2(48) == 0x1_0000_0000_0000;
    assert Pow2(56) == 0x100_0000_0000_0000;
  }

  lemma Pow10Values()
    ensures Pow10(0) == 1 && Pow10(1) == 10 && Pow10(2) == 100 && Pow10(3) == 1000 && Pow10(4) == 10000
    ensures Pow10(5) == 100000 && Pow10(6) == 1000000 && Pow10(7) == 10000000 && Pow10(8) == 100000000
    ensures Pow10(9) == 1000000000 && Pow10(10) == 10000000000
  {
    assert Pow10(8) == 100000000;
  }

  /** The multipliers, computed. */
  function MultiplierValue(n: nat): nat {
    match n
    case 1 => 429496730
    case 2 => 42949673
    case 3 => 4294968
    case 4 => 429497
    case 5 => 2814749768
    case 6 => 2251799814
    case 7 => 3602879702
    case _ => 2882303762
  }

  /** 2^Shift(n), computed. */
  function ScaleValue(n: nat): nat {
    match n
    case 1 => 1
    case 2 => 1
    case 3 => 1
    case 4 => 1
    case 5 => 65536
    case 6 => 524288
    case 7 => 8388608
    case _ => 67108864
  }

  lemma ShiftValues(n: nat)
    requires 1 <= n <= 8
    ensures Shift(n) == if n < 5 then 0 else if n == 5 then 16 else if n == 6 then 19 else if n == 7 then 23 else 26
  {
  }

  lemma ShortConstants(n: nat)
    requires 1 <= n <= 4
    ensures Multiplier(n) == MultiplierValue(n) && Pow2(Shift(n)) == ScaleValue(n)
  {
    Pow2Values();
    Pow10Values();
    assert Shift(n) == 0;
    match n
    case 1 => assert TWO32 / 10 == 429496729;
    case 2 => assert TWO32 / 100 == 42949672;
    case 3 => assert TWO32 / 1000 == 4294967;
    case _ => assert TWO32 / 10000 == 429496;
  }

  lemma LongConstants(n: nat)
    requires 5 <= n <= 8
    ensures Multiplier(n) == MultiplierValue(n) && Pow2(Shift(n)) == ScaleValue(n)
  {
    Pow2Values();
    Pow10Values();
    ShiftValues(n);
    match n
    case 5 => assert 0x1_0000_0000_0000 / 100000 == 2814749767;
    case 6 => assert 0x8_0000_0000_0000 / 1000000 == 2251799813;
    case 7 => assert 0x80_0000_0000_0000 / 10000000 == 3602879701;
    case _ => assert 0x400_0000_0000_0000 / 100000000 == 2882303761;
  }

  lemma ConstantValues(n: nat)
    requires 1 <= n <= 8
    ensures Multiplier(n) == MultiplierValue(n) && Pow2(Shift(n)) == ScaleValue(n)
  {
    if n < 5 {
      ShortConstants(n);
    } else {
      LongConstants(n);
    }
  }

  /** `t` is u / 10^k as a 32.32 fixed-point number, rounded up by less than one unit of u. */
  predicate Fixed(t: nat, k: nat, u: nat) {
    TWO32 * u <= t * Pow10(k) < TWO32 * (u + 1)
  }

  /** The first product for an (n + 2)-digit number: it fits 64 bits and is exact enough. */
  lemma StartFixed(n: nat, u: nat)
    requires 1 <= n <= 8 && u < Pow10(n + 2) && u < TWO32
    ensures MultiplierValue(n) * u < 0x1_0000_0000_0000_0000
    ensures Fixed(MultiplierValue(n) * u / ScaleValue(n) + n / 5 * 4, n, u)
  {
    Pow10Values();
    match n
    case 1 =>
    case 2 =>
    case 3 =>
    case 4 =>
    case 5 =>
    case 6 =>
    case 7 =>
    case _ =>
  }

  lemma Multiples(f: int, p: nat, c: nat)
    ensures f <= -1 ==> f * p <= 0 - p
    ensures c <= f ==> c * p <= f * p
  {
  }

  lemma SplitAt(t: nat, p: nat, q: nat, r: nat)
    requires r < p && TWO32 * (p * q + r) <= t * p < TWO32 * (p * q + r + 1)
    ensures TWO32 * q <= t < TWO32 * (q + 1)
    ensures TWO32 * r <= (t - TWO32 * q) * p < TWO32 * (r + 1)
  {
    var f := t - TWO32 * q;
    assert f * p == t * p - TWO32 * (p * q);
    Multiples(f, p, TWO32);
  }

  /** One pair: from the fraction of v's last k + 2 digits, the next two digits and the fraction of the rest. */
  lemma PairFixed(f: nat, k: nat, v: nat)
    requires Fixed(f, k + 2, Low(v, k + 2))
    ensures 100 * f / TWO32 == Top(v, k) % 100 && Fixed(100 * f % TWO32, k, Low(v, k))
  {
    var p, q, r := Pow10(k), Top(v, k) % 100, Low(v, k);
    PairStep(v, k);
    LowBelow(v, k);
    assert Pow10(k + 2) == 100 * p;
    assert (100 * f) * p == f * (100 * p);
    assert p * q == q * p;
    SplitAt(100 * f, p, q, r);
  }

  /** The first pair of a number with k + 2 digits. */
  lemma FirstFixed(t: nat, k: nat, v: nat)
    requires v < Pow10(k + 2) && Fixed(t, k, v)
    ensures t / TWO32 == Top(v, k) < 100 && Fixed(t % TWO32, k, Low(v, k))
  {
    TopZero(v, k + 2);
    PairStep(v, k);
    LowBelow(v, k);
    assert Top(v, k) * Pow10(k) == Pow10(k) * Top(v, k);
    SplitAt(t, Pow10(k), Top(v, k), Low(v, k));
  }

  /** The last digit of a number with an odd number of digits. */
  lemma DigitFixed(f: nat, v: nat)
    requires Fixed(f, 1, Low(v, 1))
    ensures 10 * f / TWO32 == v % 10
  {
    assert Low(v, 1) == 10 * Low(v / 10, 0) + v % 10;
  }

  // ---------- the formatter ----------

  /** write_pair: two characters of the table. */
  method WritePair(buffer: array<char>, at: nat, index: uint32)
    requires at + 2 <= buffer.Length && index < 100
    modifies buffer
    ensures buffer[..] == old(buffer[..at]) + Padded(index as nat, 2) + old(buffer[at + 2..])
  {
    var high, low := LookUp(index as nat);
    buffer[at] := high;
    buffer[at + 1] := low;
    PaddedTwo(index as nat);
  }

  /** The buffer with `s` written at `at`. */
  function Put(b: seq<char>, at: nat, s: string): seq<char>
    requires at + |s| <= |b|
  {
    b[..at] + s + b[at + |s|..]
  }

  lemma PutPut(b: seq<char>, at: nat, s: string, t: string)
    requires at + |s| + |t| <= |b|
    ensures Put(Put(b, at, s), at + |s|, t) == Put(b, at, s + t)
  {
  }

  /** The first i digits of v stand in the buffer, and t's fraction holds the last k. */
  ghost predicate Progress(b: seq<char>, b0: seq<char>, pos: nat, i: nat, k: nat, t: nat, v: nat)
    requires pos + i <= |b0|
  {
    Fixed(t % TWO32, k, Low(v, k)) && b == Put(b0, pos, Padded(Top(v, k), i))
  }

  lemma AllWritten(b: seq<char>, b0: seq<char>, pos: nat, i: nat, t: nat, v: nat)
    requires pos + i <= |b0| && Progress(b, b0, pos, i, 0, t, v)
    ensures b == Put(b0, pos, Padded(v, i))
  {
    assert Top(v, 0) == v;
  }

  /** The fixed-point product with which on<N> starts, N = n + 1. */
  method Start(n: nat, u: uint32) returns (t: uint64)
    requires 1 <= n <= 8 && u as nat < Pow10(n + 2)
    ensures t as nat / TWO32 == Top(u as nat, n) < 100
    ensures Fixed(t as nat % TWO32, n, Low(u as nat, n))
  {
    var a := Shift(n);
    ConstantValues(n);
    StartFixed(n, u as nat);
    t := Multiplier(n) as uint64;
    t := (t * (u as uint64)) / (Pow2(a) as uint64) + (n / 5 * 4) as uint64;
    FirstFixed(t as nat, n, u as nat);
  }

  /** One iteration of the loop of on<N>. */
  method NextPair(buffer: array<char>, pos: nat, i: nat, t: uint64, ghost b0: seq<char>, ghost k: nat, ghost v: nat)
    returns (next: uint64)
    requires pos + i + k + 2 <= |b0| == buffer.Length
    requires Progress(buffer[..], b0, pos, i, k + 2, t as nat, v)
    modifies buffer
    ensures Progress(buffer[..], b0, pos, i + 2, k, next as nat, v)
  {
    PairFixed(t as nat % TWO32, k, v);
    PairStep(v, k);
    PaddedPair(Top(v, k), i);
    next := 100 * (t % 0x1_0000_0000);
    var index := (next / 0x1_0000_0000) as uint32;
    WritePair(buffer, pos + i, index);
    PutPut(b0, pos, Padded(Top(v, k + 2), i), Padded(index as nat, 2));
  }

  /** The last digit of a number with an odd number of digits. */
  method LastDigit(buffer: array<char>, pos: nat, i: nat, t: uint64, ghost b0: seq<char>, ghost v: nat)
    requires pos + i + 1 <= |b0| == buffer.Length
    requires Progress(buffer[..], b0, pos, i, 1, t as nat, v)
    modifies buffer
    ensures buffer[..] == Put(b0, pos, Padded(v, i + 1))
  {
    DigitFixed(t as nat % TWO32, v);
    assert Top(v, 1) == Top(v / 10, 0) == v / 10;
    var d := (10 * (t % 0x1_0000_0000)) / 0x1_0000_0000;
    buffer[pos + i] := DigitChar(d as nat);
    PutPut(b0, pos, Padded(v / 10, i), [DigitChar(v % 10)]);
  }

  method FirstPair(buffer: array<char>, pos: nat, N: nat, u: uint32) returns (t: uint64)
    requires 2 <= N <= 9 && u as nat < Pow10(N + 1) && pos + N + 1 <= buffer.Length
    modifies buffer
    ensures Progress(buffer[..], old(buffer[..]), pos, 2, N - 1, t as nat, u as nat)
  {
    t := Start(N - 1, u);
    WritePair(buffer, pos, (t / 0x1_0000_0000) as uint32);
  }

  /** The loop of on<N>. */
  method Pairs(buffer: array<char>, pos: nat, N: nat, first: uint64, ghost b0: seq<char>, ghost v: nat)
    returns (t: uint64, ghost i: nat)
    requires 2 <= N && pos + N + 1 <= |b0| == buffer.Length
    requires Progress(buffer[..], b0, pos, 2, N - 1, first as nat, v)
    modifies buffer
    ensures N <= i <= N + 1 && i % 2 == 0
    ensures Progress(buffer[..], b0, pos, i, N + 1 - i, t as nat, v)
  {
    t := first;
    var j: nat := 2;
    while j < N
      invariant 2 <= j <= N + 1 && j % 2 == 0
      invariant Progress(buffer[..], b0, pos, j, N + 1 - j, t as nat, v)
    {
      t := NextPair(buffer, pos, j, t, b0, N - 1 - j, v);
      j := j + 2;
    }
    i := j;
  }

  /** on<N> for N >= 2. */
  method OnLong(buffer: array<char>, pos: nat, N: nat, u: uint32)
    requires 2 <= N <= 9 && u as nat < Pow10(N + 1) && pos + N + 1 <= buffer.Length
    modifies buffer
    ensures buffer[..] == Put(old(buffer[..]), pos, Padded(u as nat, N + 1))
  {
    ghost var b0 := buffer[..];
    var t := FirstPair(buffer, pos, N, u);
    ghost var i: nat;
    t, i := Pairs(buffer, pos, N, t, b0, u as nat);
    if N % 2 == 0 {
      assert i == N;
      LastDigit(buffer, pos, N, t, b0, u as nat);
    } else {
      assert i == N + 1;
      AllWritten(buffer[..], b0, pos, N + 1, t as nat, u as nat);
    }
  }

  /** on<N>: writes the N + 1 decimal digits of u. */
  method On(buffer: array<char>, pos: nat, N: nat, u: uint32) returns (end: nat)
    requires N <= 9 && u as nat < Pow10(N + 1) && pos + N + 1 <= buffer.Length
    modifies buffer
    ensures end == pos + N + 1
    ensures buffer[..] == Put(old(buffer[..]), pos, Padded(u as nat, N + 1))
  {
    Pow10Values();
    if N == 0 {
      buffer[pos] := DigitChar(u as nat);
      assert Padded(u as nat, 1) == Padded(0, 0) + [DigitChar(u as nat)];
    } else if N == 1 {
      WritePair(buffer, pos, u);
    } else {
      OnLong(buffer, pos, N, u);
    }
    end := pos + N + 1;
  }

  /** lg with this handler: every 32-bit number is written with exactly its decimal digits. */
  method Lg(buffer: array<char>, pos: nat, n: uint32) returns (end: nat)
    requires pos + DigitCount(n as nat) <= buffer.Length
    modifies buffer
    ensures end == pos + DigitCount(n as nat)
    ensures buffer[pos..end] == Decimal(n as nat)
    ensures forall k :: 0 <= k < buffer.Length && !(pos <= k < end) ==> buffer[k] == old(buffer[k])
    ensures buffer[..] == Put(old(buffer[..]), pos, Decimal(n as nat))
  {
    Pow10Values();
    var N :=
      if n < 100 then if n < 10 then 0 else 1
      else if n < 1000000 then
        if n < 10000 then if n < 1000 then 2 else 3
        else if n < 100000 then 4 else 5
      else if n < 100000000 then if n < 10000000 then 6 else 7
      else if n < 1000000000 then 8 else 9;
    CountFromBounds(n as nat, N + 1);
    DecimalIsPadded(n as nat);
    end := On(buffer, pos, N, n);
  }
}
