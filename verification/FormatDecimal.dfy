/** Writing a decimal number backwards, two digits at a time, with an optional thousands separator, and the
    stand-alone integer formatter (lib/fmt/format.h:1045-1099, 2466-2478, 2576-2598, 3021-3064). */
module FormatDecimal {
  import opened DecimalText
  import opened FixedWidth
  import opened DecimalFormatter

  // ---------- the grouped text ----------

  /** The separator after `i` digits have been written, if one is due. */
  function Due(i: nat, sep: string): string {
    if i % 3 == 0 then sep else ""
  }

  /** The digits of `v` grouped by `sep`, when `i` lower digits have been written already. */
  function Grouped(v: nat, i: nat, sep: string): string {
    if v < 10 then [DigitChar(v)]
    else Grouped(v / 10, i + 1, sep) + Due(i + 1, sep) + [DigitChar(v % 10)]
  }

  /** The digit count and a separator for every third digit except before the first. */
  lemma {:induction false} GroupedLength(v: nat, i: nat, sep: string)
    ensures |Grouped(v, i, sep)| == DigitCount(v) + |sep| * ((i + DigitCount(v) - 1) / 3 - i / 3)
  {
    if v < 10 {
      assert |sep| * 0 == 0;
    } else {
      GroupedLength(v / 10, i + 1, sep);
      OneSeparatorMore(i, DigitCount(v), |sep|);
    }
  }

  lemma OneSeparatorMore(i: nat, digits: nat, n: nat)
    requires digits > 0
    ensures n * ((i + digits - 1) / 3 - i / 3)
         == n * ((i + digits - 1) / 3 - (i + 1) / 3) + if (i + 1) % 3 == 0 then n else 0
  {
    var k := (i + digits - 1) / 3 - (i + 1) / 3;
    if (i + 1) % 3 == 0 {
      assert (i + 1) / 3 == i / 3 + 1;
      assert n * (k + 1) == n * k + n;
    } else {
      assert (i + 1) / 3 == i / 3;
    }
  }

  /** The text without its non-digits. */
  function DigitsOf(s: string): string {
    if s == [] then [] else DigitsOf(s[..|s| - 1]) + if IsDigit(s[|s| - 1]) then [s[|s| - 1]] else []
  }

  lemma DigitsOfSnoc(s: string, c: char)
    ensures DigitsOf(s + [c]) == DigitsOf(s) + if IsDigit(c) then [c] else []
  {
    assert (s + [c])[..|s|] == s;
  }

  /** Erasing the separators leaves the decimal digits. */
  lemma {:induction false} GroupedErased(v: nat, i: nat, sep: char)
    requires !IsDigit(sep)
    ensures DigitsOf(Grouped(v, i, [sep])) == Decimal(v)
  {
    if v < 10 {
      DigitsOfSnoc([], DigitChar(v));
      assert [] + [DigitChar(v)] == [DigitChar(v)];
    } else {
      GroupedErased(v / 10, i + 1, sep);
      var high, d := Grouped(v / 10, i + 1, [sep]), DigitChar(v % 10);
      if (i + 1) % 3 == 0 {
        DigitsOfSnoc(high, sep);
        DigitsOfSnoc(high + [sep], d);
        assert Grouped(v, i, [sep]) == (high + [sep]) + [d];
      } else {
        DigitsOfSnoc(high, d);
        assert Grouped(v, i, [sep]) == high + [d];
      }
    }
  }

  /** Place r from the right, i digits having been written further right, is one for a separator. */
  predicate SepAt(r: nat, i: nat) {
    (r + i % 3) % 4 == 3
  }

  predicate RightPlace(s: string, i: nat, sep: char, r: nat)
    requires r < |s|
  {
    if SepAt(r, i) then s[|s| - 1 - r] == sep else IsDigit(s[|s| - 1 - r])
  }

  lemma PlaceBehindSep(high: string, d: char, i: nat, sep: char, r: nat)
    requires (i + 1) % 3 == 0 && IsDigit(d) && r < |high| + 2
    requires r > 1 ==> RightPlace(high, i + 1, sep, r - 2)
    ensures RightPlace(high + [sep, d], i, sep, r)
  {
    assert i % 3 == 2;
  }

  lemma PlaceBehindDigit(high: string, d: char, i: nat, sep: char, r: nat)
    requires (i + 1) % 3 != 0 && IsDigit(d) && r < |high| + 1
    requires r > 0 ==> RightPlace(high, i + 1, sep, r - 1)
    ensures RightPlace(high + [d], i, sep, r)
  {
    assert (i + 1) % 3 == i % 3 + 1;
  }

  /** Counted from the right, places 3, 7, 11, ... hold the separator and all others a digit; in particular
      a separator follows every third digit. */
  lemma {:induction false} GroupedPlaces(v: nat, i: nat, sep: char, r: nat)
    requires !IsDigit(sep) && r < |Grouped(v, i, [sep])|
    ensures RightPlace(Grouped(v, i, [sep]), i, sep, r)
  {
    if v >= 10 {
      var high, d := Grouped(v / 10, i + 1, [sep]), DigitChar(v % 10);
      if (i + 1) % 3 == 0 {
        assert Grouped(v, i, [sep]) == high + [sep, d];
        if r > 1 {
          GroupedPlaces(v / 10, i + 1, sep, r - 2);
        }
        PlaceBehindSep(high, d, i, sep, r);
      } else {
        assert Grouped(v, i, [sep]) == high + [d];
        if r > 0 {
          GroupedPlaces(v / 10, i + 1, sep, r - 1);
        }
        PlaceBehindDigit(high, d, i, sep, r);
      }
    }
  }

  /** So in the whole text every fourth place from the right, and no other, holds the separator. */
  lemma SeparatorPlaces(v: nat, sep: char, r: nat)
    requires !IsDigit(sep) && r < |Grouped(v, 0, [sep])|
    ensures var c := Grouped(v, 0, [sep])[|Grouped(v, 0, [sep])| - 1 - r];
            if r % 4 == 3 then c == sep else '0' <= c <= '9'
  {
    GroupedPlaces(v, 0, sep, r);
  }

  /** A separator never leads. */
  lemma {:induction false} GroupedLeads(v: nat, i: nat, sep: string)
    ensures |Grouped(v, i, sep)| > 0 && IsDigit(Grouped(v, i, sep)[0])
  {
    if v < 10 {
    } else {
      GroupedLeads(v / 10, i + 1, sep);
    }
  }

  lemma {:induction false} PlainIsDecimal(v: nat, i: nat)
    ensures Grouped(v, i, "") == Decimal(v)
  {
    if v < 10 {
    } else {
      PlainIsDecimal(v / 10, i + 1);
    }
  }

  /** The staging buffer of the iterator form: digits10 + 2 characters of the unsigned type, whose largest
      number has digits10 + 1 digits. */
  function StagingSize(wide: bool): nat {
    if wide then 21 else 11
  }

  lemma DigitsBelow(v: nat, n: nat)
    requires n > 0
    ensures v < Pow10(n) <==> DigitCount(v) <= n
  {
    CountBounds(v);
    if v < Pow10(n) {
      if n < DigitCount(v) {
        Pow10Monotone(n, DigitCount(v) - 1);
      }
    } else if DigitCount(v) <= n {
      Pow10Monotone(DigitCount(v), n);
    }
  }

  lemma SomePowers()
    ensures Pow10(9) == 1_000_000_000 && Pow10(10) == 10_000_000_000
    ensures Pow10(16) == 10_000_000_000_000_000 && Pow10(20) == 100_000_000_000_000_000_000
  {
    assert Pow10(4) == 10_000 && Pow10(8) == 100_000_000 && Pow10(12) == 1_000_000_000_000;
  }

  /** It holds every plain number of its type, but a number with separators only below 10^9 (32 bits, 9 digits and
      2 separators) or 10^16 (64 bits, 16 digits and 5 separators). */
  lemma StagingFits(v: nat, wide: bool, sep: char)
    requires v < if wide then 0x1_0000_0000_0000_0000 else 0x1_0000_0000
    ensures |Grouped(v, 0, "")| <= StagingSize(wide)
    ensures |Grouped(v, 0, [sep])| <= StagingSize(wide) <==> v < if wide then 10_000_000_000_000_000 else 1_000_000_000
  {
    GroupedLength(v, 0, "");
    GroupedLength(v, 0, [sep]);
    SomePowers();
    DigitsBelow(v, if wide then 20 else 10);
    DigitsBelow(v, if wide then 16 else 9);
  }

  /** The smallest numbers that do not fit: 13 characters for 11 places and 22 for 21. */
  lemma StagingOverflows(sep: char)
    ensures |Grouped(1_000_000_000, 0, [sep])| == 13 && StagingSize(false) == 11
    ensures |Grouped(10_000_000_000_000_000, 0, [sep])| == 22 && StagingSize(true) == 21
  {
    SomePowers();
    CountFromBounds(1_000_000_000, 10);
    CountFromBounds(10_000_000_000_000_000, 17);
    GroupedLength(1_000_000_000, 0, [sep]);
    GroupedLength(10_000_000_000_000_000, 0, [sep]);
  }

  // ---------- format_decimal ----------

  /** The writer: a place moving down in the buffer and the digits written so far. */
  datatype Writer = Writer(at: nat, digits: nat)

  /** `b` is `b0` except for the places from `start` to `end`, where `rest` is still missing from `goal`
      in front of `at`. */
  ghost predicate Left(b: seq<char>, b0: seq<char>, at: nat, start: nat, end: nat, rest: string, goal: string) {
    && start <= at <= end <= |b| == |b0| && at - start == |rest|
    && b[..start] == b0[..start] && b[end..] == b0[end..]
    && rest + b[at..end] == goal
  }

  /** Writing the last part of the rest in front of `at`. */
  lemma Written(b: seq<char>, b': seq<char>, b0: seq<char>, at: nat, start: nat, end: nat, rest: string, s: string, goal: string)
    requires Left(b, b0, at, start, end, rest + s, goal)
    requires b' == b[..at - |s|] + s + b[at..]
    ensures Left(b', b0, at - |s|, start, end, rest, goal)
  {
    var at' := at - |s|;
    assert b'[at'..end] == s + b[at..end];
    assert rest + (s + b[at..end]) == (rest + s) + b[at..end];
    assert b'[..start] == b[..start] && b'[end..] == b[end..];
  }

  /** One digit, then the separator functor. */
  method WriteDigit(buffer: array<char>, w: Writer, c: char, sep: string) returns (next: Writer)
    requires w.at <= buffer.Length && |Due(w.digits + 1, sep)| + 1 <= w.at
    modifies buffer
    ensures next.digits == w.digits + 1 && next.at == w.at - 1 - |Due(w.digits + 1, sep)|
    ensures buffer[..] == old(buffer[..next.at]) + (Due(w.digits + 1, sep) + [c]) + old(buffer[w.at..])
  {
    var at := w.at - 1;
    buffer[at] := c;
    var digits := w.digits + 1;
    if digits % 3 == 0 {
      at := at - |sep|;
      forall k | 0 <= k < |sep| {
        buffer[at + k] := sep[k];
      }
    }
    next := Writer(at, digits);
  }

  /** WriteDigit as a step towards the goal. */
  method Step(buffer: array<char>, w: Writer, c: char, sep: string,
              ghost b0: seq<char>, ghost start: nat, ghost end: nat, ghost rest: string, ghost goal: string)
    returns (next: Writer)
    requires Left(buffer[..], b0, w.at, start, end, rest + (Due(w.digits + 1, sep) + [c]), goal)
    modifies buffer
    ensures next.digits == w.digits + 1
    ensures Left(buffer[..], b0, next.at, start, end, rest, goal)
  {
    ghost var s := Due(w.digits + 1, sep) + [c];
    ghost var b := buffer[..];
    next := WriteDigit(buffer, w, c, sep);
    Written(b, buffer[..], b0, w.at, start, end, rest, s, goal);
  }

  lemma LowDigits(v: nat)
    ensures v % 100 % 10 == v % 10 && v % 100 / 10 == v / 10 % 10 && v / 10 / 10 == v / 100
  {
  }

  /** The characters of the two lowest digits. */
  method LowPair(v: nat) returns (high: char, low: char)
    ensures high == DigitChar(v / 10 % 10) && low == DigitChar(v % 10)
  {
    LowDigits(v);
    high, low := LookUp(v % 100);
  }

  lemma GroupedTwo(v: nat, i: nat, sep: string, high: char, low: char, rest: string)
    requires 100 <= v && high == DigitChar(v / 10 % 10) && low == DigitChar(v % 10)
    requires rest == Grouped(v / 100, i + 2, sep)
    ensures Grouped(v, i, sep) == rest + (Due(i + 2, sep) + [high]) + (Due(i + 1, sep) + [low])
  {
    assert v / 10 / 10 == v / 100;
    var top := rest + (Due(i + 2, sep) + [high]);
    assert Grouped(v / 10, i + 1, sep) == top;
    assert top + Due(i + 1, sep) + [low] == top + (Due(i + 1, sep) + [low]);
  }

  /** Two digits, each with the separator functor. */
  method TwoSteps(buffer: array<char>, w: Writer, low: char, high: char, sep: string,
                  ghost b0: seq<char>, ghost start: nat, ghost end: nat, ghost rest: string, ghost goal: string)
    returns (next: Writer)
    requires Left(buffer[..], b0, w.at, start, end,
                  rest + (Due(w.digits + 2, sep) + [high]) + (Due(w.digits + 1, sep) + [low]), goal)
    modifies buffer
    ensures next.digits == w.digits + 2
    ensures Left(buffer[..], b0, next.at, start, end, rest, goal)
  {
    var mid := Step(buffer, w, low, sep, b0, start, end, rest + (Due(w.digits + 2, sep) + [high]), goal);
    next := Step(buffer, mid, high, sep, b0, start, end, rest, goal);
  }

  /** One iteration: the two lowest digits. */
  method WriteTwo(buffer: array<char>, w: Writer, v: nat, sep: string,
                  ghost b0: seq<char>, ghost start: nat, ghost end: nat, ghost goal: string)
    returns (next: Writer)
    requires 100 <= v && Left(buffer[..], b0, w.at, start, end, Grouped(v, w.digits, sep), goal)
    modifies buffer
    ensures next.digits == w.digits + 2
    ensures Left(buffer[..], b0, next.at, start, end, Grouped(v / 100, next.digits, sep), goal)
  {
    var high, low := LowPair(v);
    ghost var rest := Grouped(v / 100, w.digits + 2, sep);
    GroupedTwo(v, w.digits, sep, high, low, rest);
    next := TwoSteps(buffer, w, low, high, sep, b0, start, end, rest, goal);
  }

  /** format_decimal into a buffer: `size` characters from `start` on become the grouped text of `value`, and
      nothing else changes. The first digits are written without calling the functor after the last one. */
  method Format(buffer: array<char>, start: nat, value: uint64, size: nat, sep: string) returns (end: nat)
    requires size == |Grouped(value as nat, 0, sep)| && start + size <= buffer.Length
    modifies buffer
    ensures end == start + size
    ensures buffer[start..end] == Grouped(value as nat, 0, sep)
    ensures forall k :: 0 <= k < buffer.Length && !(start <= k < end) ==> buffer[k] == old(buffer[k])
    ensures buffer[..] == Put(old(buffer[..]), start, Grouped(value as nat, 0, sep))
  {
    end := start + size;
    ghost var b0 := buffer[..];
    ghost var goal := Grouped(value as nat, 0, sep);
    var v := value as nat;
    var w := Writer(end, 0);
    assert goal + b0[end..end] == goal;
    while v >= 100
      invariant Left(buffer[..], b0, w.at, start, end, Grouped(v, w.digits, sep), goal)
    {
      w := WriteTwo(buffer, w, v, sep, b0, start, end, goal);
      v := v / 100;
    }
    WriteFirst(buffer, w, v, sep, b0, start, end, goal);
  }

  /** The one or two highest digits; the functor is not called after the last one. */
  method WriteFirst(buffer: array<char>, w: Writer, v: nat, sep: string,
                    ghost b0: seq<char>, ghost start: nat, ghost end: nat, ghost goal: string)
    requires v < 100 && Left(buffer[..], b0, w.at, start, end, Grouped(v, w.digits, sep), goal)
    modifies buffer
    ensures buffer[..] == Put(b0, start, goal)
  {
    if v < 10 {
      WriteLeading(buffer, w.at, DigitChar(v), b0, start, end, goal);
      return;
    }
    var high, low := LookUp(v);
    GroupedPair(v, w.digits, sep);
    var next := Step(buffer, w, low, sep, b0, start, end, [high], goal);
    WriteLeading(buffer, next.at, high, b0, start, end, goal);
  }

  lemma GroupedPair(v: nat, i: nat, sep: string)
    requires 10 <= v < 100
    ensures Grouped(v, i, sep) == [DigitChar(v / 10)] + (Due(i + 1, sep) + [DigitChar(v % 10)])
  {
    assert Grouped(v / 10, i + 1, sep) == [DigitChar(v / 10)];
  }

  method WriteLeading(buffer: array<char>, at: nat, c: char,
                      ghost b0: seq<char>, ghost start: nat, ghost end: nat, ghost goal: string)
    requires Left(buffer[..], b0, at, start, end, [c], goal)
    modifies buffer
    ensures buffer[..] == Put(b0, start, goal)
  {
    ghost var b := buffer[..];
    buffer[at - 1] := c;
    assert [] + [c] == [c];
    Written(b, buffer[..], b0, at, start, end, [], [c], goal);
    LastWritten(buffer[..], b0, start, end, goal);
  }

  lemma LastWritten(b: seq<char>, b0: seq<char>, start: nat, end: nat, goal: string)
    requires Left(b, b0, start, start, end, [], goal)
    ensures end - start == |goal| && b == Put(b0, start, goal)
  {
    assert [] + b[start..end] == goal;
    assert b == b[..start] + b[start..end] + b[end..];
  }

  // ---------- format_int ----------

  newtype int64 = x: int | -0x8000_0000_0000_0000 <= x < 0x8000_0000_0000_0000

  const BUFFER_SIZE := 22

  /** The magnitude as the code computes it: conversion to unsigned, then 0 - x, both modulo 2^64. */
  function Magnitude(v: int64): (r: uint64)
    ensures r as int == if v < 0 then -(v as int) else v as int
  {
    var u := (v as int) % 0x1_0000_0000_0000_0000;
    if v < 0 then ((0 - u) % 0x1_0000_0000_0000_0000) as uint64 else u as uint64
  }

  function SignedText(v: int): string {
    if v < 0 then ['-'] + Decimal(-v) else Decimal(v)
  }

  /** A minus sign stands exactly in front of negative numbers, and the digits behind it denote the magnitude. */
  lemma SignedReadsBack(v: int)
    ensures var t := SignedText(v);
      && t != [] && (t[0] == '-' <==> v < 0)
      && var digits := if v < 0 then t[1..] else t;
         AllDigits(digits) && digits != [] && ValueOf(digits) == if v < 0 then -v else v
  {
    var m: nat := if v < 0 then -v else v;
    ValueOfDecimal(m);
    assert IsDigit(Decimal(m)[0]);
    assert SignedText(-1 - m)[1..] == Decimal(1 + m);
  }

  /** class format_int: the text grows downwards from the end of a private buffer. */
  class FormatInt {
    const buffer: array<char>
    var str: nat

    ghost predicate Valid()
      reads this, buffer
    {
      buffer.Length == BUFFER_SIZE && str <= BUFFER_SIZE - 1
    }

    function Text(): string
      requires Valid()
      reads this, buffer
    {
      buffer[str..BUFFER_SIZE - 1]
    }

    constructor (value: int64)
      ensures Valid() && fresh(buffer)
      ensures Text() == SignedText(value as int)
    {
      buffer := new char[BUFFER_SIZE](_ => '0');
      str := BUFFER_SIZE - 1;
      new;
      FormatUnsigned(Magnitude(value));
      if value < 0 {
        str := str - 1;
        buffer[str] := '-';
      }
    }

    /** format_int::format_decimal; one place stays free for the sign. */
    method FormatUnsigned(value: uint64)
      requires Valid()
      modifies this, buffer
      ensures Valid() && 1 <= str && Text() == Decimal(value as nat)
    {
      CountUpTo20(value);
      var v := value as nat;
      str := BUFFER_SIZE - 1;
      while v >= 100
        invariant Valid() && DigitCount(v) <= str - 1
        invariant Decimal(v) + Text() == Decimal(value as nat)
      {
        v := WriteLowPair(v);
      }
      WriteLast(v);
    }

    method WriteLowPair(v: nat) returns (rest: nat)
      requires Valid() && 100 <= v && DigitCount(v) <= str - 1
      modifies this, buffer
      ensures Valid() && rest == v / 100 && DigitCount(rest) <= str - 1
      ensures Decimal(rest) + Text() == Decimal(v) + old(Text())
    {
      var index := v % 100;
      rest := v / 100;
      ghost var tail := Text();
      DecimalTwo(v, rest, index);
      WritePair(index);
      Regroup(Decimal(rest), [DigitChar(index / 10), DigitChar(index % 10)], tail);
    }

    /** The last one or two digits. */
    method WriteLast(v: nat)
      requires Valid() && v < 100 && DigitCount(v) <= str - 1
      modifies this, buffer
      ensures Valid() && 1 <= str && Text() == Decimal(v) + old(Text())
    {
      if v < 10 {
        str := str - 1;
        buffer[str] := DigitChar(v);
        assert Text() == [DigitChar(v)] + old(Text());
      } else {
        DecimalPair(v);
        WritePair(v);
      }
    }

    method WritePair(index: nat)
      requires Valid() && index < 100 && 2 <= str
      modifies this, buffer
      ensures Valid() && str == old(str) - 2
      ensures Text() == [DigitChar(index / 10), DigitChar(index % 10)] + old(Text())
    {
      var high, low := LookUp(index);
      buffer[str - 1] := low;
      buffer[str - 2] := high;
      str := str - 2;
    }
  }

  lemma Regroup(a: string, b: string, c: string)
    ensures a + (b + c) == (a + b) + c
  {
  }

  lemma DecimalPair(v: nat)
    requires 10 <= v < 100
    ensures Decimal(v) == [DigitChar(v / 10), DigitChar(v % 10)] && DigitCount(v) == 2
  {
    assert Decimal(v / 10) == [DigitChar(v / 10)];
  }

  lemma DecimalTwo(v: nat, rest: nat, index: nat)
    requires 100 <= v && rest == v / 100 && index == v % 100
    ensures Decimal(v) == Decimal(rest) + [DigitChar(index / 10), DigitChar(index % 10)]
    ensures DigitCount(v) == DigitCount(rest) + 2
  {
    LowDigits(v);
    TwoDigits(v, v / 10, rest, index / 10, index % 10);
  }

  lemma TwoDigits(v: nat, mid: nat, rest: nat, high: nat, low: nat)
    requires 10 <= mid == v / 10 && rest == mid / 10 && high == mid % 10 && low == v % 10
    ensures Decimal(v) == Decimal(rest) + [DigitChar(high), DigitChar(low)]
    ensures DigitCount(v) == DigitCount(rest) + 2
  {
    assert Decimal(mid) == Decimal(rest) + [DigitChar(high)];
    assert Decimal(v) == Decimal(mid) + [DigitChar(low)];
  }

  /** A 64-bit number has at most 20 digits. */
  lemma CountUpTo20(v: uint64)
    ensures DigitCount(v as nat) <= 20
  {
    assert Pow10(4) == 10000 && Pow10(8) == 100000000 && Pow10(12) == 1000000000000;
    assert Pow10(16) == 10000000000000000;
    assert Pow10(20) == 100000000000000000000;
    CountBounds(v as nat);
    if 20 < DigitCount(v as nat) {
      Pow10Monotone(20, DigitCount(v as nat) - 1);
    }
  }
}
