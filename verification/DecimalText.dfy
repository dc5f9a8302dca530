/** Decimal notation: the specification that the digit code in lib/fmt is proved against. */
module DecimalText {

  function Pow10(n: nat): (r: nat)
    ensures r > 0
  {
    if n == 0 then 1 else 10 * Pow10(n - 1)
  }

  function DigitChar(d: nat): char
    requires d < 10
  {
    ('0' as int + d) as char
  }

  predicate IsDigit(c: char) {
    '0' <= c <= '9'
  }

  function DigitValue(c: char): (d: nat)
    requires IsDigit(c)
    ensures d < 10
  {
    c as int - '0' as int
  }

  predicate AllDigits(s: string) {
    forall i :: 0 <= i < |s| ==> IsDigit(s[i])
  }

  /** The decimal digits of `v`, without leading zeros; "0" for 0. */
  function Decimal(v: nat): (r: string)
    ensures |r| == DigitCount(v)
  {
    if v < 10 then [DigitChar(v)] else Decimal(v / 10) + [DigitChar(v % 10)]
  }

  function DigitCount(v: nat): (r: nat)
    ensures r > 0
  {
    if v < 10 then 1 else DigitCount(v / 10) + 1
  }

  /** The last `w` decimal digits of `v`, with leading zeros. */
  function Padded(v: nat, w: nat): (r: string)
    ensures |r| == w
  {
    if w == 0 then [] else Padded(v / 10, w - 1) + [DigitChar(v % 10)]
  }

  lemma {:induction false} DecimalIsPadded(v: nat)
    ensures Decimal(v) == Padded(v, DigitCount(v))
  {
    if v < 10 {
      assert Padded(v / 10, 0) == [];
    } else {
      DecimalIsPadded(v / 10);
    }
  }

  /** The digit count brackets the value between two powers of ten. */
  lemma {:induction false} CountBounds(v: nat)
    ensures v < Pow10(DigitCount(v))
    ensures v > 0 ==> Pow10(DigitCount(v) - 1) <= v
  {
    if v < 10 {
    } else {
      CountBounds(v / 10);
    }
  }

  lemma {:induction false} Pow10Monotone(a: nat, b: nat)
    requires a <= b
    ensures Pow10(a) <= Pow10(b)
  {
    if a < b {
      Pow10Monotone(a, b - 1);
    }
  }

  /** ... and is determined by that bracket. */
  lemma CountFromBounds(v: nat, n: nat)
    requires 0 < n && v < Pow10(n) && (n == 1 || Pow10(n - 1) <= v)
    ensures DigitCount(v) == n
  {
    CountBounds(v);
    if DigitCount(v) < n {
      Pow10Monotone(DigitCount(v), n - 1);
    } else if n < DigitCount(v) {
      Pow10Monotone(n, DigitCount(v) - 1);
    }
  }

  /** The number that a digit string denotes. */
  function ValueOf(s: string): nat
    requires AllDigits(s)
  {
    if s == [] then 0 else ValueOf(s[..|s| - 1]) * 10 + DigitValue(s[|s| - 1])
  }

  lemma {:induction false} DecimalDigits(v: nat)
    ensures AllDigits(Decimal(v))
  {
    if v < 10 {
    } else {
      DecimalDigits(v / 10);
    }
  }

  lemma {:induction false} ValueOfDecimal(v: nat)
    ensures AllDigits(Decimal(v))
    ensures ValueOf(Decimal(v)) == v
  {
    DecimalDigits(v);
    var s := Decimal(v);
    if v < 10 {
      assert s[..0] == [];
    } else {
      ValueOfDecimal(v / 10);
      assert s[..|s| - 1] == Decimal(v / 10);
    }
  }

  /** The end of the run of digits that starts at `i`. */
  function DigitsEnd(s: string, i: nat): (e: nat)
    requires i <= |s|
    ensures i <= e <= |s| && AllDigits(s[i..e])
    ensures e < |s| ==> !IsDigit(s[e])
    decreases |s| - i
  {
    if i < |s| && IsDigit(s[i]) then DigitsEnd(s, i + 1) else i
  }

  lemma DigitsEndFrom(s: string, i: nat, e: nat)
    requires i <= e <= |s| && AllDigits(s[i..e])
    requires e < |s| ==> !IsDigit(s[e])
    ensures DigitsEnd(s, i) == e
    decreases e - i
  {
    if i < e {
      assert IsDigit(s[i..e][0]);
      assert s[i + 1..e] == s[i..e][1..];
      DigitsEndFrom(s, i + 1, e);
    }
  }

  // ---------- leading and trailing digits ----------

  /** `v` without its last k digits. */
  function Top(v: nat, k: nat): nat {
    if k == 0 then v else Top(v / 10, k - 1)
  }

  /** The number formed by the last k digits of `v`. */
  function Low(v: nat, k: nat): nat {
    if k == 0 then 0 else 10 * Low(v / 10, k - 1) + v % 10
  }

  lemma {:induction false} LowBelow(v: nat, k: nat)
    ensures Low(v, k) < Pow10(k)
  {
    if k > 0 {
      LowBelow(v / 10, k - 1);
    }
  }

  lemma {:induction false} TopStep(v: nat, k: nat)
    ensures Top(v, k + 1) == Top(v, k) / 10
  {
    if k > 0 {
      TopStep(v / 10, k - 1);
    }
  }

  lemma {:induction false} LowStep(v: nat, k: nat)
    ensures Low(v, k + 1) == (Top(v, k) % 10) * Pow10(k) + Low(v, k)
  {
    if k == 0 {
      assert Low(v / 10, 0) == 0;
    } else {
      LowStep(v / 10, k - 1);
      var x := Top(v, k) % 10;
      assert 10 * (x * Pow10(k - 1)) == x * Pow10(k);
    }
  }

  /** A number below 10^k is its own last k digits. */
  lemma {:induction false} TopZero(v: nat, k: nat)
    requires v < Pow10(k)
    ensures Top(v, k) == 0 && Low(v, k) == v
  {
    if k > 0 {
      TopZero(v / 10, k - 1);
    }
  }

  lemma Factor(x: nat, y: nat, p: nat)
    ensures x * (10 * p) + y * p == (10 * x + y) * p
  {
  }

  lemma TwoDigits(a: nat)
    ensures a / 10 / 10 == a / 100 && a % 100 == 10 * (a / 10 % 10) + a % 10
  {
  }

  /** The two digits before the last k are one pair. */
  lemma PairStep(v: nat, k: nat)
    ensures Top(v, k + 2) == Top(v, k) / 100
    ensures Low(v, k + 2) == (Top(v, k) % 100) * Pow10(k) + Low(v, k)
  {
    TopStep(v, k);
    TopStep(v, k + 1);
    LowStep(v, k);
    LowStep(v, k + 1);
    Factor(Top(v, k + 1) % 10, Top(v, k) % 10, Pow10(k));
    TwoDigits(Top(v, k));
  }

  lemma PaddedOne(h: nat)
    requires h < 10
    ensures Padded(h, 1) == [DigitChar(h)]
  {
    assert Padded(h / 10, 0) == [] && h % 10 == h;
  }

  lemma PaddedTwo(m: nat)
    requires m < 100
    ensures Padded(m, 2) == [DigitChar(m / 10), DigitChar(m % 10)]
  {
    PaddedOne(m / 10);
    assert Padded(m, 2) == Padded(m / 10, 1) + [DigitChar(m % 10)];
  }

  lemma PaddedPair(v: nat, i: nat)
    ensures Padded(v, i + 2) == Padded(v / 100, i) + Padded(v % 100, 2)
  {
    PaddedTwo(v % 100);
    var w := v / 10;
    assert w / 10 == v / 100 && v % 100 / 10 == w % 10 && v % 100 % 10 == v % 10;
    assert Padded(w, i + 1) == Padded(w / 10, i) + [DigitChar(w % 10)];
  }
}
