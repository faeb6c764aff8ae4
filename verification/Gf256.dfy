/** The field GF(2^8) modulo 0x11d, with 2 as its generator, and the Reed-Solomon words with two
    check symbols over it. */
module Gf256 {

  /** Addition; exclusive or. */
  function Add(a: bv8, b: bv8): bv8 {
    a ^ b
  }

  /** Multiplication by the generator; the table `ecclow`. */
  function XTime(x: bv8): bv8 {
    (x << 1) ^ ((x >> 7) * 0x1d)
  }

  /** Division by the generator plus one; the table `ecchigh`, from its entries at powers of two. */
  function High(x: bv8): bv8 {
    ((x & 1) * 0xf4) ^ (((x >> 1) & 1) * 0xf5) ^ (((x >> 2) & 1) * 0xf7) ^ (((x >> 3) & 1) * 0xf3)
    ^ (((x >> 4) & 1) * 0xfb) ^ (((x >> 5) & 1) * 0xeb) ^ (((x >> 6) & 1) * 0xcb) ^ ((x >> 7) * 0x8b)
  }

  lemma XTimeAdd(a: bv8, b: bv8)
    ensures XTime(Add(a, b)) == Add(XTime(a), XTime(b))
  {
  }

  lemma HighDivides(x: bv8)
    ensures Add(High(x), XTime(High(x))) == x
  {
  }

  lemma HighUnique(y: bv8)
    ensures High(Add(y, XTime(y))) == y
  {
  }

  /** (a + b) + (c + d) == 0 iff d + b == a + c */
  lemma AddMove(a: bv8, b: bv8, c: bv8, d: bv8)
    ensures Add(Add(a, b), Add(c, d)) == 0 <==> Add(d, b) == Add(a, c)
  {
    hide Add;
    AddFour(a, b, c, d);
    AddZeroIff(Add(a, c), Add(d, b));
  }

  lemma AddFour(a: bv8, b: bv8, c: bv8, d: bv8)
    ensures Add(Add(a, b), Add(c, d)) == Add(Add(a, c), Add(d, b))
  {
    hide Add;
    AddComm(b, Add(c, d));
    AddAssoc(a, b, Add(c, d));
    AddAssoc(c, d, b);
    AddAssoc(a, c, Add(d, b));
  }

  lemma AddComm(a: bv8, b: bv8)
    ensures Add(a, b) == Add(b, a)
  {
  }

  lemma AddAssoc(a: bv8, b: bv8, c: bv8)
    ensures Add(Add(a, b), c) == Add(a, Add(b, c))
  {
  }

  lemma AddZeroIff(a: bv8, b: bv8)
    ensures Add(a, b) == 0 <==> b == a
  {
  }

  /** The generator is a root of x^8 + x^4 + x^3 + x^2 + 1, and its lower powers are single bits. */
  lemma GeneratorIsRoot()
    ensures [Power(0), Power(1), Power(2), Power(3), Power(4), Power(5), Power(6), Power(7)] == [1, 2, 4, 8, 16, 32, 64, 128]
    ensures Power(8) == Add(Add(Power(4), Power(3)), Add(Power(2), Power(0)))
  {
    assert Power(2) == 4;
    assert Power(4) == 16;
    assert Power(6) == 64;
  }

  /** The value of a word as a polynomial at the generator, highest power first. */
  function Horner(w: seq<bv8>): bv8 {
    if w == [] then 0 else Add(XTime(Horner(w[..|w| - 1])), w[|w| - 1])
  }

  /** The value of a word as a polynomial at 1. */
  function Sum(w: seq<bv8>): bv8 {
    if w == [] then 0 else Add(Sum(w[..|w| - 1]), w[|w| - 1])
  }

  /** A word of the Reed-Solomon code whose two check symbols are its last: both syndromes vanish. */
  predicate Codeword(w: seq<bv8>) {
    Sum(w) == 0 && Horner(w) == 0
  }

  /** The two check symbols as the source computes them from its accumulators. */
  function Check1(v1: bv8, v2: bv8): bv8 {
    High(Add(XTime(v1), v2))
  }

  function Check2(v1: bv8, v2: bv8): bv8 {
    Add(v2, Check1(v1, v2))
  }

  lemma HornerAppend(w: seq<bv8>, b: bv8)
    ensures Horner(w + [b]) == Add(XTime(Horner(w)), b) && Sum(w + [b]) == Add(Sum(w), b)
  {
    hide Add, XTime;
    assert (w + [b])[..|w|] == w;
  }

  /** Two symbols complete the data to a codeword exactly when they are the computed ones. */
  lemma ChecksUnique(d: seq<bv8>, p: bv8, q: bv8)
    ensures Codeword(d + [p, q]) <==> p == Check1(XTime(Horner(d)), Sum(d)) && q == Check2(XTime(Horner(d)), Sum(d))
  {
    hide Add, XTime, High, Horner, Sum, Check1, Check2;
    assert d + [p, q] == (d + [p]) + [q];
    HornerAppend(d, p);
    HornerAppend(d + [p], q);
    CheckPair(XTime(Horner(d)), Sum(d), p, q);
  }

  lemma CheckPair(v1: bv8, v2: bv8, p: bv8, q: bv8)
    ensures Add(Add(v2, p), q) == 0 && Add(XTime(Add(v1, p)), q) == 0
       <==> p == Check1(v1, v2) && q == Check2(v1, v2)
  {
    hide Add, XTime, High;
    AddZeroIff(Add(v2, p), q);
    XTimeAdd(v1, p);
    AddMove(XTime(v1), XTime(p), v2, p);
    HighDivides(Add(XTime(v1), v2));
    HighUnique(p);
  }

  // ---- the check matrix

  /** The product of two field elements, adding a shifted copy of a for every bit of b from bit n up. */
  function MulFrom(a: bv8, b: bv8, n: nat): bv8
    decreases 8 - n
  {
    if n >= 8 then 0
    else Add(if (b >> n) & 1 == 1 then a else 0, MulFrom(XTime(a), b, n + 1))
  }

  function Mul(a: bv8, b: bv8): bv8 {
    MulFrom(a, b, 0)
  }

  /** The generator to a power. */
  function Power(n: nat): bv8 {
    if n == 0 then 1 else XTime(Power(n - 1))
  }

  /** The second row of the check matrix applied to a word: the symbols weighted by falling powers of
      the generator, down to `low` at the last one. */
  function Weighted(w: seq<bv8>, low: nat): bv8 {
    if w == [] then 0
    else Add(Weighted(w[..|w| - 1], low + 1), Mul(Power(low), w[|w| - 1]))
  }

  lemma {:induction false} MulXTime(a: bv8, b: bv8, n: nat)
    ensures MulFrom(XTime(a), b, n) == XTime(MulFrom(a, b, n))
    decreases 8 - n
  {
    hide Add, XTime;
    if n < 8 {
      MulXTime(XTime(a), b, n + 1);
      var x := if (b >> n) & 1 == 1 then a else 0;
      XTimeAdd(x, MulFrom(XTime(a), b, n + 1));
      XTimeZero();
    } else {
      XTimeZero();
    }
  }

  lemma XTimeZero()
    ensures XTime(0) == 0
  {
  }

  lemma MulOne(b: bv8)
    ensures Mul(1, b) == b
  {
    assert XTime(1) == 2 && XTime(2) == 4 && XTime(4) == 8 && XTime(8) == 16;
    assert XTime(16) == 32 && XTime(32) == 64 && XTime(64) == 128;
  }

  lemma {:induction false} WeightedUp(w: seq<bv8>, low: nat)
    ensures Weighted(w, low + 1) == XTime(Weighted(w, low))
  {
    hide Add, XTime, Mul;
    if w == [] {
      XTimeZero();
    } else {
      var n := |w| - 1;
      WeightedUp(w[..n], low + 1);
      MulUp(low, w[n]);
      XTimeAdd(Weighted(w[..n], low + 1), Mul(Power(low), w[n]));
    }
  }

  lemma MulUp(n: nat, b: bv8)
    ensures Mul(Power(n + 1), b) == XTime(Mul(Power(n), b))
  {
    hide Add, XTime, MulFrom;
    MulXTime(Power(n), b, 0);
  }

  /** Horner's rule evaluates the second row of the check matrix. */
  lemma {:induction false} HornerIsWeighted(w: seq<bv8>)
    ensures Horner(w) == Weighted(w, 0)
  {
    hide Add, XTime, Mul;
    if w != [] {
      HornerIsWeighted(w[..|w| - 1]);
      WeightedUp(w[..|w| - 1], 0);
      MulOne(w[|w| - 1]);
    }
  }
}
