/** Bytes, shifts and the reading of a byte sequence as a stream of bits, most significant bit
    first, followed by an endless run of zero bits. Shifts are defined by doubling and halving, so
    that every fact about them is linear. */
module Bits {

  type byte = x: int | 0 <= x < 256

  /** x << n, unbounded. */
  function Shl(x: nat, n: nat): nat {
    if n == 0 then x else 2 * Shl(x, n - 1)
  }

  /** x >> n. */
  function Shr(x: nat, n: nat): nat {
    if n == 0 then x else Shr(x, n - 1) / 2
  }

  function Pow2(n: nat): nat {
    Shl(1, n)
  }

  lemma {:induction false} ShlShl(x: nat, a: nat, b: nat)
    ensures Shl(Shl(x, a), b) == Shl(x, a + b)
  {
    if b > 0 { ShlShl(x, a, b - 1); }
  }

  lemma {:induction false} ShlAdd(x: nat, y: nat, n: nat)
    ensures Shl(x + y, n) == Shl(x, n) + Shl(y, n)
  {
    if n > 0 { ShlAdd(x, y, n - 1); }
  }

  lemma {:induction false} ShlMono(x: nat, y: nat, n: nat)
    ensures x <= y <==> Shl(x, n) <= Shl(y, n)
    ensures x < y ==> Shl(x, n) + Pow2(n) <= Shl(y, n)
  {
    if n > 0 { ShlMono(x, y, n - 1); }
  }

  lemma {:induction false} Pow2Mono(a: nat, b: nat)
    requires a <= b
    ensures 1 <= Pow2(a) <= Pow2(b)
  {
    if a < b {
      Pow2Mono(a, b - 1);
    } else if a > 0 {
      Pow2Mono(a - 1, b - 1);
    }
  }

  /** Shifting right drops exactly what lies below. */
  lemma {:induction false} ShrShl(x: nat, y: nat, n: nat)
    requires y < Pow2(n)
    ensures Shr(Shl(x, n) + y, n) == x
  {
    if n > 0 {
      ShrOnce(Shl(x, n) + y, n - 1);
      assert (Shl(x, n) + y) / 2 == Shl(x, n - 1) + y / 2;
      ShrShl(x, y / 2, n - 1);
    }
  }

  /** Halving first or last makes no difference. */
  lemma {:induction false} ShrOnce(x: nat, n: nat)
    ensures Shr(x, n + 1) == Shr(x / 2, n)
  {
    if n > 0 { ShrOnce(x, n - 1); }
  }

  /** The low n bits: what a right shift by n drops. */
  function LowBits(x: nat, n: nat): (r: nat)
    ensures r < Pow2(n) && x == Shl(Shr(x, n), n) + r
  {
    if n == 0 then 0
    else
      ShrOnce(x, n - 1);
      2 * LowBits(x / 2, n - 1) + x % 2
  }

  lemma ShlByConstants(x: nat)
    ensures Shl(x, 4) == 16 * x
    ensures Shl(x, 8) == 256 * x
    ensures Shl(x, 32) == 0x1_0000_0000 * x
  {
    ShlBy4(x);
    ShlBy4(Shl(x, 4));
    ShlShl(x, 4, 4);
    var y := Shl(x, 8);
    ShlBy4(y);
    ShlBy4(Shl(y, 4));
    ShlShl(y, 4, 4);
    ShlShl(x, 8, 8);
    var z := Shl(x, 16);
    ShlBy4(z);
    ShlBy4(Shl(z, 4));
    ShlShl(z, 4, 4);
    ShlShl(x, 16, 8);
    var w := Shl(x, 24);
    ShlBy4(w);
    ShlBy4(Shl(w, 4));
    ShlShl(w, 4, 4);
    ShlShl(x, 24, 8);
  }

  lemma ShlBy4(x: nat)
    ensures Shl(x, 4) == 16 * x
  {
    assert Shl(x, 1) == 2 * x;
    assert Shl(x, 2) == 4 * x;
    assert Shl(x, 3) == 8 * x;
  }

  /** Bit i of the stream: data from the top bit of byte 0, then zeros. */
  function BitAt(data: seq<byte>, i: nat): (b: nat)
    ensures b < 2
  {
    if i / 8 < |data| then Shr(data[i / 8], 7 - i % 8) % 2 else 0
  }

  /** The n bits at position p as a number, first bit most significant. */
  function ReadBits(data: seq<byte>, p: nat, n: nat): (v: nat)
    ensures v < Pow2(n)
  {
    if n == 0 then 0 else 2 * ReadBits(data, p, n - 1) + BitAt(data, p + n - 1)
  }

  lemma {:induction false} ReadBitsSplit(data: seq<byte>, p: nat, a: nat, b: nat)
    ensures ReadBits(data, p, a + b) == Shl(ReadBits(data, p, a), b) + ReadBits(data, p + a, b)
  {
    if b > 0 {
      ReadBitsSplit(data, p, a, b - 1);
      assert p + (a + b) - 1 == (p + a) + b - 1;
    }
  }

  /** The top n bits of one byte. */
  lemma {:induction false} ReadBitsInByte(data: seq<byte>, k: nat, n: nat)
    requires n <= 8
    ensures ReadBits(data, 8 * k, n) == if k < |data| then Shr(data[k], 8 - n) else 0
  {
    if n == 0 {
      if k < |data| { ByteGone(data[k]); }
    } else {
      ReadBitsInByte(data, k, n - 1);
      var i := 8 * k + n - 1;
      assert i / 8 == k && i % 8 == n - 1;
    }
  }

  lemma ByteGone(v: byte)
    ensures Shr(v, 8) == 0
  {
    assert Shr(v, 1) < 128;
    assert Shr(v, 2) < 64;
    assert Shr(v, 3) < 32;
    assert Shr(v, 4) < 16;
    assert Shr(v, 5) < 8;
    assert Shr(v, 6) < 4;
    assert Shr(v, 7) < 2;
  }

  /** ReadBits depends only on the bits it covers. */
  lemma {:induction false} ReadBitsAgree(d: seq<byte>, e: seq<byte>, p: nat, q: nat, n: nat)
    requires forall j :: p <= j < p + n ==> BitAt(d, j) == BitAt(e, j - p + q)
    ensures ReadBits(d, p, n) == ReadBits(e, q, n)
  {
    if n > 0 {
      ReadBitsAgree(d, e, p, q, n - 1);
      assert BitAt(d, p + n - 1) == BitAt(e, (p + n - 1) - p + q);
      assert (p + n - 1) - p + q == q + n - 1;
    }
  }

  /** Cutting whole bytes off the front shifts the stream by whole bytes. */
  lemma BitAtSlice(d: seq<byte>, lo: nat, hi: nat, i: nat)
    requires lo <= hi <= |d|
    requires i < 8 * (hi - lo) || hi == |d|
    ensures BitAt(d[lo..hi], i) == BitAt(d, 8 * lo + i)
  {
    assert (8 * lo + i) / 8 == lo + i / 8 && (8 * lo + i) % 8 == i % 8;
    if i / 8 < hi - lo {
      assert d[lo..hi][i / 8] == d[lo + i / 8];
    }
  }

  /** Bitwise or of two numbers. */
  function BitOr(x: nat, y: nat): nat {
    if x == 0 then y
    else 2 * BitOr(x / 2, y / 2) + (if x % 2 == 1 || y % 2 == 1 then 1 else 0)
  }

  /** Or is addition when the operands share no bit position. */
  lemma {:induction false} OrDisjoint(x: nat, y: nat, k: nat)
    requires y < Pow2(k)
    ensures BitOr(Shl(x, k), y) == Shl(x, k) + y
  {
    if k == 0 {
      OrZero(x);
    } else if x > 0 {
      OrDisjoint(x, y / 2, k - 1);
      assert Shl(x, k) / 2 == Shl(x, k - 1) && Shl(x, k) % 2 == 0;
      ShlMono(0, x, k);
      ShlZero(k);
    } else {
      ShlZero(k);
    }
  }

  lemma {:induction false} ShlZero(k: nat)
    ensures Shl(0, k) == 0
  {
    if k > 0 { ShlZero(k - 1); }
  }

  lemma {:induction false} OrZero(x: nat)
    ensures BitOr(x, 0) == x
  {
    if x > 0 { OrZero(x / 2); }
  }
}
