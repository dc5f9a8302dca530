/** Reading a number out of an account name: str_to_uint of src/common/util.cpp. */
module StrToUint {
  import opened Common
  import opened DecimalText
  import opened FixedWidth

  const UINT_MAX: nat := 0xFFFF_FFFF

  function SkipBlanks(s: string, i: nat): (k: nat)
    requires i <= |s|
    ensures i <= k <= |s|
    ensures i < k ==> s[i] == ' ' || s[i] == '\t'
    decreases |s| - i
  {
    if i < |s| && (s[i] == ' ' || s[i] == '\t') then SkipBlanks(s, i + 1) else i
  }

  /** Where the digits must start: behind blanks and one plus sign. */
  function DigitsStart(s: string): (d: nat)
    ensures d <= |s|
    ensures d > 0 ==> s[0] == ' ' || s[0] == '\t' || s[0] == '+'
  {
    var k := SkipBlanks(s, 0);
    if k < |s| && s[k] == '+' then k + 1 else k
  }

  /** The number the whole string denotes; None when it is not one or does not fit 32 bits. No digits denote 0. */
  function UintOf(s: string): (r: Option<nat>)
    ensures r.Some? ==> r.value <= UINT_MAX
  {
    var t := s[DigitsStart(s)..];
    if AllDigits(t) && ValueOf(t) <= UINT_MAX then Some(ValueOf(t)) else None
  }

  /** A printed number is read back if it fits 32 bits and is an error otherwise. */
  lemma UintOfPrinted(v: nat)
    ensures UintOf(Decimal(v)) == if v <= UINT_MAX then Some(v) else None
  {
    ValueOfDecimal(v);
    assert IsDigit(Decimal(v)[0]);
    assert Decimal(v)[0..] == Decimal(v);
  }

  /** A plus sign in front of digits changes nothing ... */
  lemma PlusIgnored(s: string)
    requires s != [] && IsDigit(s[0])
    ensures UintOf(['+'] + s) == UintOf(s)
  {
    assert (['+'] + s)[1..] == s && s[0..] == s;
  }

  /** ... and neither do blanks in front of anything. */
  lemma BlankIgnored(c: char, s: string)
    requires c == ' ' || c == '\t'
    ensures UintOf([c] + s) == UintOf(s)
  {
    BlankShifts(c, s, 0);
    var t := [c] + s;
    assert t[1..] == s;
    assert t[DigitsStart(s) + 1..] == s[DigitsStart(s)..];
  }

  lemma {:induction false} BlankShifts(c: char, s: string, i: nat)
    requires i <= |s|
    ensures SkipBlanks([c] + s, i + 1) == SkipBlanks(s, i) + 1
    decreases |s| - i
  {
    if i < |s| && (s[i] == ' ' || s[i] == '\t') {
      BlankShifts(c, s, i + 1);
    }
  }

  /** Any other character makes it no number. */
  lemma OnlyNumbers(s: string, i: nat)
    requires i < |s| && !IsDigit(s[i]) && s[i] !in [' ', '\t', '+']
    ensures UintOf(s) == None
  {
    var d := DigitsStart(s);
    SkippedBlanks(s, 0, i);
    assert s[d..][i - d] == s[i];
  }

  lemma {:induction false} SkippedBlanks(s: string, k: nat, i: nat)
    requires k <= i < |s| && s[i] != ' ' && s[i] != '\t'
    ensures SkipBlanks(s, k) <= i
    decreases i - k
  {
    if k < i {
      SkippedBlanks(s, k + 1, i);
    }
  }

  /** The overflow test after the multiplication is exact. */
  lemma WrapShows(p: nat)
    requires p <= UINT_MAX
    ensures 10 * p % 0x1_0000_0000 / 10 == p <==> 10 * p <= UINT_MAX
  {
    if 10 * p > UINT_MAX {
      assert 10 * p % 0x1_0000_0000 <= 10 * p - 0x1_0000_0000;
    }
  }

  lemma {:induction false} PrefixValue(t: string, k: nat)
    requires AllDigits(t) && k <= |t|
    ensures ValueOf(t[..k]) <= ValueOf(t)
  {
    if k < |t| {
      var u := t[..|t| - 1];
      PrefixValue(u, k);
      assert u[..k] == t[..k];
    } else {
      assert t[..k] == t;
    }
  }

  /** One digit: both tests for a wrapped sum are exact. */
  method Accumulate(value: nat, c: char) returns (r: Option<nat>)
    requires value <= UINT_MAX
    ensures r == if IsDigit(c) && 10 * value + DigitValue(c) <= UINT_MAX then Some(10 * value + DigitValue(c)) else None
  {
    WrapShows(value);
    var val := value * 10 % 0x1_0000_0000;
    if val / 10 != value {
      return None;
    }
    var pval := val;
    if !IsDigit(c) {
      return None;
    }
    val := (val + DigitValue(c)) % 0x1_0000_0000;
    r := if val < pval then None else Some(val);
  }

  lemma NextDigit(t: string, k: nat)
    requires k < |t| && AllDigits(t[..k])
    ensures IsDigit(t[k]) <==> AllDigits(t[..k + 1])
    ensures IsDigit(t[k]) ==> ValueOf(t[..k + 1]) == 10 * ValueOf(t[..k]) + DigitValue(t[k])
  {
    var u := t[..k + 1];
    assert u[..k] == t[..k] && u[k] == t[k];
    assert forall i :: 0 <= i < k ==> u[i] == t[..k][i];
  }

  method Parse(s: string) returns (r: Option<uint32>)
    ensures r.Some? <==> UintOf(s).Some?
    ensures r.Some? ==> r.value as nat == UintOf(s).value
  {
    var pos: nat := 0;
    while pos < |s| && (s[pos] == ' ' || s[pos] == '\t')
      invariant pos <= |s| && SkipBlanks(s, pos) == SkipBlanks(s, 0)
    {
      pos := pos + 1;
    }
    if pos < |s| && s[pos] == '+' {
      pos := pos + 1;
    }
    r := ParseDigits(s, pos);
  }

  method ParseDigits(s: string, start: nat) returns (r: Option<uint32>)
    requires start <= |s|
    ensures r.Some? <==> AllDigits(s[start..]) && ValueOf(s[start..]) <= UINT_MAX
    ensures r.Some? ==> r.value as nat == ValueOf(s[start..])
  {
    ghost var t := s[start..];
    var pos, val: nat := start, 0;
    while pos < |s|
      invariant start <= pos <= |s| && AllDigits(t[..pos - start])
      invariant val == ValueOf(t[..pos - start]) <= UINT_MAX
    {
      NextDigit(t, pos - start);
      var next := Accumulate(val, s[pos]);
      if next.None? {
        if AllDigits(t) {
          PrefixValue(t, pos - start + 1);
        }
        return None;
      }
      val := next.value;
      pos := pos + 1;
    }
    assert t[..|t|] == t;
    r := Some(val as uint32);
  }
}
