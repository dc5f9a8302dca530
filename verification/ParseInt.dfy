/** Overflow-checked parsing of widths, precisions and argument indices: parse_nonnegative_int of lib/fmt/format.h. */
module ParseInt {
  import opened Common
  import opened DecimalText
  import opened FixedWidth

  const INT_MAX: nat := 0x7FFF_FFFF

  /** What parsing at `i` must give: the number the whole run of digits denotes, if an int can hold it. */
  function Parsed(s: string, i: nat): Option<nat>
    requires i <= |s|
  {
    var v := ValueOf(s[i..DigitsEnd(s, i)]);
    if v <= INT_MAX then Some(v) else None
  }

  /** Every further digit multiplies the value by at least ten. */
  lemma {:induction false} ValueGrows(s: string, k: nat)
    requires AllDigits(s) && k < |s|
    ensures 10 * ValueOf(s[..k]) <= ValueOf(s)
  {
    var t := s[..|s| - 1];
    if k < |t| {
      ValueGrows(t, k);
      assert t[..k] == s[..k];
    }
  }

  lemma ValueStep(s: string, i: nat, k: nat)
    requires i <= k < |s| && AllDigits(s[i..k]) && IsDigit(s[k])
    ensures AllDigits(s[i..k + 1])
    ensures ValueOf(s[i..k + 1]) == 10 * ValueOf(s[i..k]) + DigitValue(s[k])
  {
    var u, t := s[i..k], s[i..k + 1];
    assert t[..|t| - 1] == u && t[|t| - 1] == s[k];
    forall j | 0 <= j < |t|
      ensures IsDigit(t[j])
    {
      assert j < |u| ==> t[j] == u[j];
    }
  }

  /**
   * The machine arithmetic never wraps, a number an int cannot hold is reported and not returned,
   * and on success the iterator stands on the first character after the digits.
   */
  method ParseNonnegativeInt(s: string, start: nat) returns (r: Option<uint32>, it: nat)
    requires start < |s| && IsDigit(s[start])
    requires DigitsEnd(s, start) < |s|
    ensures r.Some? <==> Parsed(s, start).Some?
    ensures r.Some? ==> r.value as nat == Parsed(s, start).value && it == DigitsEnd(s, start)
  {
    var value: uint32 := 0;
    var maxInt: uint32 := 0x7FFF_FFFF;
    var big := maxInt / 10;
    ghost var e := DigitsEnd(s, start);
    ghost var digits := s[start..e];
    it := start;
    var more := true;
    while more
      invariant start <= it <= e && AllDigits(s[start..it])
      invariant value as nat == ValueOf(s[start..it])
      invariant value as nat <= 10 * big as nat + 9
      invariant more == (it < e)
      decreases e - it
    {
      assert s[it] == digits[it - start];
      if value > big {
        assert digits[..it - start] == s[start..it];
        ValueGrows(digits, it - start);
        value := maxInt + 1;
        break;
      }
      value := value * 10 + (s[it] as int - '0' as int) as uint32;
      ValueStep(s, start, it);
      it := it + 1;
      assert it < e ==> s[it] == digits[it - start];
      more := IsDigit(s[it]);
    }
    r := if value > maxInt then None else Some(value);
  }

  /** Parsing undoes printing for every number an int can hold, and reports every other one. */
  lemma ParseUndoesPrint(v: nat, rest: string)
    requires rest != [] ==> !IsDigit(rest[0])
    ensures Parsed(Decimal(v) + rest, 0) == if v <= INT_MAX then Some(v) else None
  {
    var d := Decimal(v);
    var s := d + rest;
    ValueOfDecimal(v);
    assert s[0..|d|] == d;
    DigitsEndFrom(s, 0, |d|);
  }

  lemma {:induction false} LeadingDigitBound(s: string)
    requires AllDigits(s) && s != [] && s[0] != '0'
    ensures ValueOf(s) >= Pow10(|s| - 1)
  {
    if |s| == 1 {
      assert s[..0] == [];
    } else {
      LeadingDigitBound(s[..|s| - 1]);
    }
  }

  /** No digit string without leading zeros and with more than ten digits is ever accepted. */
  lemma LongNumbersAreRejected(s: string, i: nat)
    requires i + 10 < |s| && DigitsEnd(s, i) > i + 10 && s[i] != '0'
    ensures Parsed(s, i) == None
  {
    var t := s[i..DigitsEnd(s, i)];
    LeadingDigitBound(t);
    Pow10Monotone(10, |t| - 1);
    assert Pow10(10) == 10_000_000_000 by {
      assert Pow10(5) == 100_000;
      assert Pow10(9) == 10000 * Pow10(5);
    }
  }
}
