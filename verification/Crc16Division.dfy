/** The checksum as the remainder of a division: of the message, followed by 16 zeros, by
    x^16 + x^12 + x^5 + 1, over the field of two elements. */
module Crc16Division {
  import opened Bits
  import opened XorModule
  import opened Crc16Module

  /** A polynomial is the number of its coefficients, the constant one in the lowest bit. */
  const DIVISOR := 0x1_0000 + 0x1000 + 0x20 + 1

  /** The product of q and the divisor. */
  function Times(q: nat): nat {
    if q == 0 then 0 else Xor(2 * Times(q / 2), if q % 2 == 1 then DIVISOR else 0)
  }

  /** A message, first byte highest. */
  function Message(s: seq<byte>): nat {
    if s == [] then 0 else 256 * Message(s[..|s| - 1]) + s[|s| - 1]
  }

  /** Exclusive or commutes with shifting up. */
  lemma XorShl(x: nat, y: nat, n: nat)
    ensures Shl(Xor(x, y), n) == Xor(Shl(x, n), Shl(y, n))
  {
    Pow2Mono(0, n);
    XorParts(x, y, 0, 0, n);
  }

  lemma By16(x: nat)
    ensures Shl(x, 16) == 0x1_0000 * x
  {
    ShlByConstants(x);
    ShlByConstants(256 * x);
    ShlShl(x, 8, 8);
  }

  /** A shift takes the divisor away when a bit leaves at the top. */
  lemma ShiftDivides(c: crc16)
    ensures Shift(c) == Xor(2 * c, if c >= 0x8000 then DIVISOR else 0)
  {
    if c >= 0x8000 {
      By16(1);
      By16(0);
      assert Pow2(16) == 0x1_0000;
      XorParts(1, 1, 2 * (c - 0x8000), 0x1021, 16);
      XorSelf(1);
    } else {
      XorComm(2 * c, 0);
    }
  }

  lemma TimesStep(q: nat, top: nat)
    requires top < 2
    ensures Times(2 * q + top) == Xor(2 * Times(q), if top == 1 then DIVISOR else 0)
  {
    hide Xor;
    assert (2 * q + top) / 2 == q && (2 * q + top) % 2 == top;
    XorNone(0);
  }

  lemma Halves(a: nat, b: nat)
    ensures Xor(a, b) / 2 == Xor(a / 2, b / 2) && (Xor(a, b) % 2 == 1 <==> a % 2 != b % 2)
  {
    hide Xor;
    XorHalf(a, b);
    SumParity(a, b);
  }

  lemma SumParity(a: nat, b: nat)
    ensures (a + b) % 2 == 1 <==> a % 2 != b % 2
  {
  }

  /** Multiplication distributes over exclusive or. */
  lemma {:induction false} TimesXor(a: nat, b: nat)
    ensures Xor(Times(a), Times(b)) == Times(Xor(a, b))
    decreases a + b
  {
    hide Xor;
    if a == 0 || b == 0 {
      XorNone(a);
      XorNone(b);
      XorNone(Times(a));
      XorNone(Times(b));
    } else {
      TimesXor(a / 2, b / 2);
      Halves(a, b);
      var p, q := (if a % 2 == 1 then DIVISOR else 0), (if b % 2 == 1 then DIVISOR else 0);
      XorFour(2 * Times(a / 2), p, 2 * Times(b / 2), q);
      XorTwice(Times(a / 2), Times(b / 2));
      XorSelf(DIVISOR);
      XorNone(DIVISOR);
      XorNone(0);
      TimesStep(Xor(a / 2, b / 2), Xor(a, b) % 2);
    }
  }

  lemma XorNone(x: nat)
    ensures Xor(x, 0) == x && Xor(0, x) == x
  {
  }

  lemma XorTwice(x: nat, y: nat)
    ensures Xor(2 * x, 2 * y) == 2 * Xor(x, y)
  {
    XorShl(x, y, 1);
    assert Shl(x, 1) == 2 * x && Shl(y, 1) == 2 * y && Shl(Xor(x, y), 1) == 2 * Xor(x, y);
  }

  lemma {:induction false} TimesShl(q: nat, n: nat)
    ensures Times(Shl(q, n)) == Shl(Times(q), n)
  {
    hide Xor;
    if n > 0 {
      TimesShl(q, n - 1);
      TimesStep(Shl(q, n - 1), 0);
      XorNone(2 * Times(Shl(q, n - 1)));
    }
  }

  /** Any number of shifts leaves a remainder. */
  lemma {:induction false} ShiftsDivide(c: crc16, n: nat) returns (q: nat)
    ensures Shifts(c, n) == Xor(Shl(c, n), Times(q))
  {
    hide Xor, Times, Shift;
    if n == 0 {
      q := 0;
      assert Times(0) == 0 by { TimesNone(); }
      XorNone(c);
    } else {
      var p := ShiftsDivide(c, n - 1);
      var r, top := Shifts(c, n - 1), if Shifts(c, n - 1) >= 0x8000 then 1 else 0;
      ShiftDivides(r);
      q := 2 * p + top;
      TimesStep(p, top);
      XorTwice(Shl(c, n - 1), Times(p));
      XorAssoc(Shl(c, n), 2 * Times(p), if top == 1 then DIVISOR else 0);
    }
  }

  lemma TimesNone()
    ensures Times(0) == 0
  {
  }

  lemma FeedDivides(c: crc16, b: byte) returns (q: nat)
    ensures Feed(c, b) == Xor(Xor(Shl(c, 8), Shl(b, 16)), Times(q))
  {
    hide Xor, Times, Shift, Shl, Shifts;
    q := ShiftsDivide(Xor16(c, 256 * b), 8);
    XorShl(c, 256 * b, 8);
    ShlByConstants(b);
    ShlShl(b, 8, 8);
  }

  /** The message, followed by 16 zeros, its first bits changed by the starting value. */
  function Dividend(c: crc16, s: seq<byte>): nat {
    Xor(Shl(c, 8 * |s|), Shl(Message(s), 16))
  }

  lemma DividendNext(c: crc16, s: seq<byte>)
    requires s != []
    ensures var t := s[..|s| - 1];
            Dividend(c, s) == Xor(Shl(Dividend(c, t), 8), Shl(s[|s| - 1], 16))
  {
    hide Xor, Shl;
    var t, b := s[..|s| - 1], s[|s| - 1];
    XorShl(Shl(c, 8 * |t|), Shl(Message(t), 16), 8);
    ShlShl(c, 8 * |t|, 8);
    ShlShl(Message(t), 16, 8);
    ShlShl(Message(t), 8, 16);
    ShlByConstants(Message(t));
    assert Pow2(8) == 256 by { ShlByConstants(1); }
    XorDisjoint(Message(t), b, 8);
    XorShl(Shl(Message(t), 8), b, 16);
    XorAssoc(Shl(c, 8 * |s|), Shl(Message(t), 24), Shl(b, 16));
    assert 8 * |t| + 8 == 8 * |s|;
  }

  /** The checksum differs from the dividend by a multiple of the divisor. */
  lemma {:induction false} CrcDivides(c: crc16, s: seq<byte>) returns (q: nat)
    ensures Crc(c, s) == Xor(Dividend(c, s), Times(q))
  {
    hide Xor, Times, Shl, Feed, Dividend;
    if s == [] {
      q := 0;
      TimesNone();
      NoMessage(c);
      XorNone(c);
    } else {
      var t, b := s[..|s| - 1], s[|s| - 1];
      var p := CrcDivides(c, t);
      var w := FeedDivides(Crc(c, t), b);
      q := Xor(Shl(p, 8), w);
      XorShl(Dividend(c, t), Times(p), 8);
      TimesShl(p, 8);
      TimesXor(Shl(p, 8), w);
      DividendNext(c, s);
      Regroup(Shl(Dividend(c, t), 8), Times(Shl(p, 8)), Shl(b, 16), Times(w));
    }
  }

  lemma NoMessage(c: crc16)
    ensures Dividend(c, []) == c
  {
    ShlZero(16);
    XorNone(c);
  }

  lemma Regroup(a: nat, b: nat, c: nat, d: nat)
    ensures Xor(Xor(Xor(a, b), c), d) == Xor(Xor(a, c), Xor(b, d))
  {
    hide Xor;
    XorAssoc(Xor(a, b), c, d);
    XorFour(a, b, c, d);
  }

  /** A multiple of the divisor has at least 17 bits. */
  lemma {:induction false} TimesIsLong(q: nat)
    requires q > 0
    ensures Times(q) >= 0x1_0000
  {
    hide Xor;
    if q == 1 {
      TimesNone();
      XorNone(DIVISOR);
    } else {
      TimesIsLong(q / 2);
      var x := 2 * Times(q / 2);
      XorNone(x);
      XorHigh(x);
    }
  }

  /** The divisor does not reach the bits above its own. */
  lemma XorHigh(x: nat)
    requires x >= 0x2_0000
    ensures Xor(x, DIVISOR) >= 0x2_0000
  {
    By16(1);
    ShlShl(1, 16, 1);
    var g, l := Shr(x, 17), LowBits(x, 17);
    assert Pow2(17) == 0x2_0000;
    ShlMono(g, 0, 17);
    ShlMono(1, g, 17);
    ShlZero(17);
    XorParts(g, 0, l, DIVISOR, 17);
    XorNone(g);
  }

  /** The checksum is the only remainder: the one number of 16 bits that differs from the dividend by a
      multiple of the divisor. */
  lemma CrcIsRemainder(c: crc16, s: seq<byte>, r: crc16)
    ensures r == Crc(c, s) <==> exists q :: Xor(r, Dividend(c, s)) == Times(q)
  {
    hide Xor, Times, Crc, Dividend;
    var d, w := Dividend(c, s), Crc(c, s);
    var p := CrcDivides(c, s);
    XorMoves(w, d, Times(p));
    if q :| Xor(r, d) == Times(q) {
      TimesXor(p, q);
      XorFour(w, d, r, d);
      XorSelf(d);
      XorNone(Xor(w, r));
      XorWord(w, r);
      if Xor(p, q) > 0 { TimesIsLong(Xor(p, q)); }
      TimesNone();
      XorZero(w, r);
    }
  }

  /** a == b + t means a + b == t. */
  lemma XorMoves(a: nat, b: nat, t: nat)
    requires a == Xor(b, t)
    ensures Xor(a, b) == t
  {
    hide Xor;
    XorComm(a, b);
    XorAssoc(b, b, t);
    XorSelf(b);
    XorNone(t);
  }

  lemma XorZero(a: nat, b: nat)
    requires Xor(a, b) == 0
    ensures a == b
  {
    hide Xor;
    XorAssoc(a, b, b);
    XorSelf(b);
    XorNone(a);
    XorNone(b);
  }
}
