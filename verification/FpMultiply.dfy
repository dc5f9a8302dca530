/** The rounding product of two 64-bit significands (lib/fmt/format-inl.h:315-324, promised at
    lib/fmt/format.h:349-351). */
module FpMultiply {
  import opened FixedWidth

  const M := 0x1_0000_0000

  /** A floating-point number f * 2^e. */
  datatype Fp = Fp(f: uint64, e: int)

  lemma MulLe(a: nat, b: nat, c: nat)
    requires a <= b
    ensures a * c <= b * c
  {
    assert (b - a) * c >= 0;
  }

  lemma ProductBelow(a: nat, c: nat, n: nat)
    requires a < n && c < n
    ensures a * c <= (n - 1) * (n - 1)
  {
    MulLe(a, n - 1, c);
    MulLe(c, n - 1, n - 1);
  }

  lemma Expand(a: nat, b: nat, c: nat, d: nat)
    ensures (a * M + b) * (c * M + d) == (a * c) * (M * M) + (a * d + b * c) * M + b * d
  {
    assert (a * M + b) * (c * M + d) == (a * M + b) * (c * M) + (a * M + b) * d;
    assert (a * M + b) * (c * M) == (a * c) * (M * M) + (b * c) * M;
    assert (a * M + b) * d == (a * d) * M + b * d;
  }

  /** The four partial products, with the middle rounded, divide the product by 2^64, rounding to nearest
      with ties up. */
  lemma RoundedSum(p: nat, ac: nat, ad: nat, bc: nat, bd: nat)
    requires p == ac * (M * M) + (ad + bc) * M + bd
    ensures var mid := bd / M + ad % M + bc % M + 0x8000_0000;
            ac + ad / M + bc / M + mid / M == (p + 0x8000_0000_0000_0000) / (M * M)
  {
  }

  lemma ProductFits(a: int, c: int)
    requires 0 <= a < M && 0 <= c < M
    ensures 0 <= a * c < 0x1_0000_0000_0000_0000
  {
    ProductBelow(a, c, M);
  }

  /** The product of two 32-bit halves fits 64 bits. */
  function Partial(a: uint64, c: uint64): (r: uint64)
    requires a as nat < M && c as nat < M
    ensures r as int == a as int * c as int
  {
    ProductFits(a as int, c as int);
    a * c
  }

  /** So does the middle with its rounding bit, ... */
  function Middle(ad: uint64, bc: uint64, bd: uint64): (r: uint64)
    ensures r as nat == bd as nat / M + ad as nat % M + bc as nat % M + 0x8000_0000
  {
    bd / 0x1_0000_0000 + ad % 0x1_0000_0000 + bc % 0x1_0000_0000 + 0x8000_0000
  }

  /** ... and the upper half of the rounded product. */
  lemma UpperBelow(x: nat, y: nat)
    requires x < M * M && y < M * M
    ensures (x * y + 0x8000_0000_0000_0000) / (M * M) < M * M
  {
    ProductBelow(x, y, M * M);
  }

  function Upper(ac: uint64, ad: uint64, bc: uint64, mid: uint64): (r: uint64)
    requires ac as nat + ad as nat / M + bc as nat / M + mid as nat / M < M * M
    ensures r as nat == ac as nat + ad as nat / M + bc as nat / M + mid as nat / M
  {
    ac + ad / 0x1_0000_0000 + bc / 0x1_0000_0000 + mid / 0x1_0000_0000
  }

  function High(f: uint64): (r: uint64)
    ensures r as nat == f as nat / M < M
  {
    f / 0x1_0000_0000
  }

  function Low(f: uint64): (r: uint64)
    ensures r as nat == f as nat % M < M
  {
    f % 0x1_0000_0000
  }

  lemma Halves(f: nat)
    ensures f / M * M + f % M == f
  {
  }

  /** The sum of the partial products of the halves is the rounded product. */
  lemma PartialsRound(x: nat, y: nat, a: nat, b: nat, c: nat, d: nat, ac: nat, bc: nat, ad: nat, bd: nat)
    requires a == x / M && b == x % M && c == y / M && d == y % M
    requires ac == a * c && bc == b * c && ad == a * d && bd == b * d
    ensures var mid := bd / M + ad % M + bc % M + 0x8000_0000;
            ac + ad / M + bc / M + mid / M == (x * y + 0x8000_0000_0000_0000) / (M * M)
  {
    Halves(x);
    Halves(y);
    Expand(a, b, c, d);
    RoundedSum(x * y, ac, ad, bc, bd);
  }

  /** fp operator*: all intermediates are 64-bit values, which their type asserts. */
  function Multiply(x: Fp, y: Fp): (r: Fp)
    ensures r.f as int == (x.f as int * y.f as int + 0x8000_0000_0000_0000) / (M * M)
    ensures r.e == x.e + y.e + 64
  {
    var a, b, c, d := High(x.f), Low(x.f), High(y.f), Low(y.f);
    var ac, bc, ad, bd := Partial(a, c), Partial(b, c), Partial(a, d), Partial(b, d);
    PartialsRound(x.f as nat, y.f as nat, a as nat, b as nat, c as nat, d as nat, ac as nat, bc as nat, ad as nat, bd as nat);
    UpperBelow(x.f as nat, y.f as nat);
    Fp(Upper(ac, ad, bc, Middle(ad, bc, bd)), x.e + y.e + 64)
  }
}
