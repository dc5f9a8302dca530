/** The case-insensitive name hash: account_hash of src/bnetd/account.cpp. */
module AccountHash {
  import opened Common
  import opened FixedWidth
  import opened MapMask

  /** Exclusive or, bit by bit. */
  function Xor(a: nat, b: nat): nat
    decreases a + b
  {
    if a == 0 && b == 0 then 0
    else 2 * Xor(a / 2, b / 2) + if a % 2 == b % 2 then 0 else 1
  }

  lemma {:induction false} XorBelow(a: nat, b: nat, n: nat)
    requires a < Pow2(n) && b < Pow2(n)
    ensures Xor(a, b) < Pow2(n)
    decreases n
  {
    if n > 0 {
      XorBelow(a / 2, b / 2, n - 1);
    }
  }

  /** Doing it twice with the same value undoes it. */
  lemma {:induction false} XorTwice(a: nat, b: nat)
    ensures Xor(Xor(a, b), b) == a
    decreases a + b
  {
    if a == 0 && b == 0 {
    } else {
      XorTwice(a / 2, b / 2);
      var x := Xor(a, b);
      assert x / 2 == Xor(a / 2, b / 2) && (x % 2 == 0 <==> a % 2 == b % 2);
    }
  }

  /** A char is signed: the bytes 128 to 254 are below -1 and stop the hash, 255 is -1 (EOF) and does not. */
  predicate Stops(c: char) {
    128 <= c as int && c as int != 255
  }

  /** What the character is combined with: its lower case, sign-extended to an unsigned int. */
  function Bits(c: char): (b: nat)
    requires !Stops(c)
    ensures b < 0x1_0000_0000
  {
    if c as int == 255 then 0xFFFF_FFFF else LowerChar(c) as int
  }

  /** h += h << 5, in 32 bits. */
  function Shifted(h: nat): (r: nat)
    requires h < 0x1_0000_0000
    ensures r < 0x1_0000_0000
  {
    (h + h * 32 % 0x1_0000_0000) % 0x1_0000_0000
  }

  function Mixed(h: nat, c: char): (r: nat)
    requires h < 0x1_0000_0000 && !Stops(c)
    ensures r < 0x1_0000_0000
  {
    Pow2Is32();
    XorBelow(Shifted(h), Bits(c), 32);
    Xor(Shifted(h), Bits(c))
  }

  function HashFrom(h: nat, name: string): (r: nat)
    requires h < 0x1_0000_0000
    ensures r < 0x1_0000_0000
    decreases |name|
  {
    if name == [] then h
    else if Stops(name[0]) then Shifted(h)
    else HashFrom(Mixed(h, name[0]), name[1..])
  }

  function NameHash(name: string): (r: nat)
    ensures r < 0x1_0000_0000
  {
    HashFrom(5381, name)
  }

  /** Each step multiplies by 33 in 32 bits ... */
  lemma ShiftedIs(h: nat)
    requires h < 0x1_0000_0000
    ensures Shifted(h) == 33 * h % 0x1_0000_0000
  {
  }

  /** ... and then flips the bits of the character in lower case, from 5381 for the empty name on. */
  lemma HashStep(h: nat, c: char, rest: string)
    requires h < 0x1_0000_0000 && !Stops(c) && c as int != 255
    ensures Xor(33 * h % 0x1_0000_0000, LowerChar(c) as int) < 0x1_0000_0000
    ensures HashFrom(h, [c] + rest) == HashFrom(Xor(33 * h % 0x1_0000_0000, LowerChar(c) as int), rest)
    ensures NameHash([]) == 5381
  {
    ShiftedIs(h);
    assert Mixed(h, c) == Xor(Shifted(h), LowerChar(c) as int);
    assert ([c] + rest)[0] == c && ([c] + rest)[1..] == rest;
  }

  /** A bit of the exclusive or is set when it is set in exactly one of the two. */
  lemma {:induction false} XorBit(a: nat, b: nat, k: nat)
    ensures Xor(a, b) / Pow2(k) % 2 == 1 <==> a / Pow2(k) % 2 != b / Pow2(k) % 2
    decreases k
  {
    var x := Xor(a, b);
    assert x / 2 == Xor(a / 2, b / 2) && (x % 2 == 0 <==> a % 2 == b % 2);
    if k > 0 {
      XorBit(a / 2, b / 2, k - 1);
      HalfFirst(a, Pow2(k - 1));
      HalfFirst(b, Pow2(k - 1));
      HalfFirst(x, Pow2(k - 1));
    }
  }

  /** Names that strcasecmp calls equal hash to the same value, whatever bytes they hold. */
  lemma HashAgrees(a: string, b: string)
    requires Lower(a) == Lower(b)
    ensures NameHash(a) == NameHash(b)
  {
    HashFromAgrees(5381, a, b);
  }

  lemma {:induction false} HashFromAgrees(h: nat, a: string, b: string)
    requires h < 0x1_0000_0000 && Lower(a) == Lower(b)
    ensures HashFrom(h, a) == HashFrom(h, b)
    decreases |a|
  {
    assert |Lower(a)| == |a| && |Lower(b)| == |b|;
    if a != [] {
      assert LowerChar(a[0]) == Lower(a)[0] == Lower(b)[0] == LowerChar(b[0]);
      assert Lower(a[1..]) == Lower(a)[1..] == Lower(b)[1..] == Lower(b[1..]);
      if !Stops(a[0]) {
        HashFromAgrees(Mixed(h, a[0]), a[1..], b[1..]);
      }
    }
  }

  /** The early exit: nothing behind a byte from 128 to 254, nor which one it is, reaches the hash. */
  lemma {:induction false} HashStops(h: nat, pre: string, c: char, rest: string, d: char, other: string)
    requires h < 0x1_0000_0000 && Stops(c) && Stops(d)
    ensures HashFrom(h, pre + [c] + rest) == HashFrom(h, pre + [d] + other)
    decreases |pre|
  {
    var s, t := pre + [c] + rest, pre + [d] + other;
    if pre == [] {
      assert s[0] == c && t[0] == d;
    } else {
      assert s[0] == pre[0] && t[0] == pre[0];
      assert s[1..] == pre[1..] + [c] + rest && t[1..] == pre[1..] + [d] + other;
      if !Stops(pre[0]) {
        HashStops(Mixed(h, pre[0]), pre[1..], c, rest, d, other);
      }
    }
  }

  predicate IsUpper(c: char) {
    'A' <= c <= 'Z'
  }

  /** The loop of account_hash; `Stops` is its test c < -1 || c > 255. */
  method Hash(name: string) returns (h: uint32)
    ensures h as nat == NameHash(name)
  {
    var acc: nat := 5381;
    var i := 0;
    while i < |name|
      invariant 0 <= i <= |name| && acc < 0x1_0000_0000
      invariant HashFrom(acc, name[i..]) == NameHash(name)
    {
      ghost var rest := name[i..];
      assert rest[0] == name[i] && rest[1..] == name[i + 1..];
      ghost var h0 := acc;
      acc := (acc + acc * 32 % 0x1_0000_0000) % 0x1_0000_0000;
      var c := name[i];
      if Stops(c) {
        break;
      }
      if c as int == 255 {
        acc := Xor(acc, 0xFFFF_FFFF);
      } else if !IsUpper(c) {
        acc := Xor(acc, c as int);
      } else {
        acc := Xor(acc, c as int - 'A' as int + 'a' as int);
      }
      assert acc == Mixed(h0, c);
      i := i + 1;
    }
    h := acc as uint32;
  }
}
