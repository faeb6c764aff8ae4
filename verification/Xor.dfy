/** Exclusive or on numbers, by halving. Its algebra is stated as lemmas to be called by name. */
module XorModule {
  import opened Bits

  function Xor(x: nat, y: nat): nat
    decreases x + y
  {
    if x == 0 then y
    else if y == 0 then x
    else 2 * Xor(x / 2, y / 2) + (x + y) % 2
  }

  lemma XorStep(x: nat, y: nat)
    ensures Xor(x, y) == 2 * Xor(x / 2, y / 2) + (x + y) % 2
  {
  }

  lemma XorHalf(x: nat, y: nat)
    ensures Xor(x, y) / 2 == Xor(x / 2, y / 2) && Xor(x, y) % 2 == (x + y) % 2
  {
    XorStep(x, y);
  }

  lemma {:induction false} XorComm(x: nat, y: nat)
    ensures Xor(x, y) == Xor(y, x)
    decreases x + y
  {
    if x > 0 && y > 0 { XorComm(x / 2, y / 2); }
  }

  lemma {:induction false} XorAssoc(x: nat, y: nat, z: nat)
    ensures Xor(Xor(x, y), z) == Xor(x, Xor(y, z))
    decreases x + y + z
  {
    if x + y + z > 0 {
      XorAssoc(x / 2, y / 2, z / 2);
      HalvesLeft(x, y, z);
      HalvesRight(x, y, z);
      SameHalves(Xor(Xor(x, y), z), Xor(x, Xor(y, z)));
    }
  }

  lemma SameHalves(a: nat, b: nat)
    requires a / 2 == b / 2 && a % 2 == b % 2
    ensures a == b
  {
  }

  lemma HalvesLeft(x: nat, y: nat, z: nat)
    ensures Xor(Xor(x, y), z) / 2 == Xor(Xor(x / 2, y / 2), z / 2)
    ensures Xor(Xor(x, y), z) % 2 == (x + y + z) % 2
  {
    var u := Xor(x, y);
    XorHalf(x, y);
    XorHalf(u, z);
    assert Xor(u, z) / 2 == Xor(u / 2, z / 2);
    ParityLeft(u, x, y, z);
  }

  lemma ParityLeft(u: nat, x: nat, y: nat, z: nat)
    requires u % 2 == (x + y) % 2
    ensures (u + z) % 2 == (x + y + z) % 2
  {
  }

  lemma HalvesRight(x: nat, y: nat, z: nat)
    ensures Xor(x, Xor(y, z)) / 2 == Xor(x / 2, Xor(y / 2, z / 2))
    ensures Xor(x, Xor(y, z)) % 2 == (x + y + z) % 2
  {
    var v := Xor(y, z);
    XorHalf(y, z);
    XorHalf(x, v);
    assert Xor(x, v) / 2 == Xor(x / 2, v / 2);
    ParityLeft(v, y, z, x);
  }

  lemma {:induction false} XorSelf(x: nat)
    ensures Xor(x, x) == 0
  {
    if x > 0 { XorSelf(x / 2); }
  }

  /** (a ^ b) ^ (c ^ d) == (a ^ c) ^ (b ^ d) */
  lemma XorFour(a: nat, b: nat, c: nat, d: nat)
    ensures Xor(Xor(a, b), Xor(c, d)) == Xor(Xor(a, c), Xor(b, d))
  {
    XorAssoc(Xor(a, b), c, d);
    XorAssoc(a, b, c);
    XorComm(b, c);
    XorAssoc(a, c, b);
    XorAssoc(Xor(a, c), b, d);
  }

  /** Exclusive or works on the parts above and below bit k separately. */
  lemma {:induction false} XorParts(g: nat, h: nat, x: nat, y: nat, k: nat)
    requires x < Pow2(k) && y < Pow2(k)
    ensures Xor(x, y) < Pow2(k)
    ensures Xor(Shl(g, k) + x, Shl(h, k) + y) == Shl(Xor(g, h), k) + Xor(x, y)
  {
    if k > 0 {
      XorParts(g, h, x / 2, y / 2, k - 1);
      PartsStep(g, h, x, y, k, Xor(g, h));
    } else {
      assert x == 0 && y == 0;
    }
  }

  lemma PartsStep(g: nat, h: nat, x: nat, y: nat, k: nat, gh: nat)
    requires k > 0 && Xor(x / 2, y / 2) < Pow2(k - 1)
    requires Xor(Shl(g, k - 1) + x / 2, Shl(h, k - 1) + y / 2) == Shl(gh, k - 1) + Xor(x / 2, y / 2)
    ensures Xor(x, y) < Pow2(k)
    ensures Xor(Shl(g, k) + x, Shl(h, k) + y) == Shl(gh, k) + Xor(x, y)
  {
    hide Xor;
    var a, b := Shl(g, k) + x, Shl(h, k) + y;
    XorHalf(x, y);
    ShlHalf(g, x, k);
    ShlHalf(h, y, k);
    XorHalf(a, b);
    Recombine(Xor(a, b), Xor(x, y), a, b, x, y, Shl(gh, k - 1));
  }

  lemma Recombine(ab: nat, xy: nat, a: nat, b: nat, x: nat, y: nat, s: nat)
    requires ab / 2 == s + xy / 2 && ab % 2 == (a + b) % 2 && xy % 2 == (x + y) % 2
    requires a % 2 == x % 2 && b % 2 == y % 2
    ensures ab == 2 * s + xy
  {
  }

  lemma ShlHalf(g: nat, x: nat, k: nat)
    requires k > 0
    ensures (Shl(g, k) + x) / 2 == Shl(g, k - 1) + x / 2
    ensures (Shl(g, k) + x) % 2 == x % 2
  {
  }

  lemma XorDisjoint(x: nat, y: nat, k: nat)
    requires y < Pow2(k)
    ensures Xor(Shl(x, k), y) == Shl(x, k) + y
  {
    hide Shl;
    ShlZero(k);
    Pow2Mono(0, k);
    XorComm(x, 0);
    XorParts(x, 0, 0, y, k);
  }
}
