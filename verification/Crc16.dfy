/** CRC-16 with polynomial 0x1021: the bit-serial definition and the sliced table-driven form. */
module Crc16Module {
  import opened Bits
  import opened XorModule

  const POLY := 0x1021

  type crc16 = x: int | 0 <= x < 0x1_0000

  /** One bit of polynomial division. */
  function Shift(c: crc16): crc16 {
    if c >= 0x8000 then
      XorWord(2 * (c - 0x8000), POLY);
      Xor(2 * (c - 0x8000), POLY)
    else 2 * c
  }

  lemma XorWord(a: nat, b: nat)
    requires a < 0x1_0000 && b < 0x1_0000
    ensures Xor(a, b) < 0x1_0000
  {
    assert Shl(1, 16) == 0x1_0000 by { ShlByConstants(1); ShlShl(1, 8, 8); ShlByConstants(256); }
    ShlZero(16);
    XorParts(0, 0, a, b, 16);
  }

  function Xor16(a: crc16, b: crc16): crc16 {
    XorWord(a, b);
    Xor(a, b)
  }

  /** n bits of polynomial division. */
  function Shifts(c: crc16, n: nat): crc16 {
    if n == 0 then c else Shift(Shifts(c, n - 1))
  }

  /** Feeding one byte into a remainder: eight bits, from the top. */
  function Feed(c: crc16, b: byte): crc16 {
    Shifts(Xor16(c, 256 * b), 8)
  }

  /** The remainder after every byte has been fed in. */
  function Crc(c: crc16, s: seq<byte>): crc16 {
    if s == [] then c else Feed(Crc(c, s[..|s| - 1]), s[|s| - 1])
  }

  /** Continuing from a partial result. */
  lemma {:induction false} CrcConcat(c: crc16, a: seq<byte>, b: seq<byte>)
    ensures Crc(c, a + b) == Crc(Crc(c, a), b)
  {
    if b == [] {
      assert a + b == a;
    } else {
      assert (a + b)[..|a + b| - 1] == a + b[..|b| - 1];
      CrcConcat(c, a, b[..|b| - 1]);
    }
  }

  // ---- linearity

  lemma XorTop(g: nat, x: nat, h: nat, y: nat)
    requires g < 2 && h < 2 && x < 0x8000 && y < 0x8000
    ensures Xor(0x8000 * g + x, 0x8000 * h + y) == 0x8000 * Xor(g, h) + Xor(x, y)
    ensures Xor(x, y) < 0x8000
  {
    By15(g);
    By15(h);
    By15(1);
    By15(Xor(g, h));
    XorParts(g, h, x, y, 15);
  }

  lemma By15(x: nat)
    ensures Shl(x, 15) == 0x8000 * x
  {
    ShlByConstants(x);
    ShlByConstants(256 * x);
    ShlShl(x, 8, 8);
  }

  function Times(p: nat, g: nat): nat {
    if g == 0 then 0 else p
  }

  /** A shift moves the low 15 bits up and folds the polynomial in when the top bit leaves. */
  lemma ShiftParts(g: nat, x: nat)
    requires g < 2 && x < 0x8000
    ensures Shift(0x8000 * g + x) == Xor(2 * x, Times(POLY, g))
  {
    XorComm(2 * x, 0);
  }

  lemma PolyTwice(p: nat, g: nat, h: nat)
    requires g < 2 && h < 2
    ensures Xor(g, h) < 2 && Xor(Times(p, g), Times(p, h)) == Times(p, Xor(g, h))
  {
    XorSelf(g);
    XorSelf(p);
    XorComm(p, 0);
    XorComm(g, 0);
  }

  lemma Doubled(x: nat, y: nat)
    ensures Xor(2 * x, 2 * y) == 2 * Xor(x, y)
  {
    assert Shl(x, 1) == 2 * x && Shl(y, 1) == 2 * y && Shl(Xor(x, y), 1) == 2 * Xor(x, y);
    XorParts(x, y, 0, 0, 1);
  }

  /** (2x ^ Pg) ^ (2y ^ Ph) == 2(x ^ y) ^ P(g ^ h) */
  lemma FoldTwice(p: nat, g: nat, x: nat, h: nat, y: nat)
    requires g < 2 && h < 2
    ensures Xor(Xor(2 * x, Times(p, g)), Xor(2 * y, Times(p, h))) == Xor(2 * Xor(x, y), Times(p, Xor(g, h)))
  {
    PolyTwice(p, g, h);
    Doubled(x, y);
    XorFour(2 * x, Times(p, g), 2 * y, Times(p, h));
  }

  lemma ShiftXor(a: crc16, b: crc16)
    ensures Shift(Xor16(a, b)) == Xor16(Shift(a), Shift(b))
  {
    ShiftXorParts(a / 0x8000, a % 0x8000, b / 0x8000, b % 0x8000);
  }

  lemma ShiftXorParts(g: nat, x: nat, h: nat, y: nat)
    requires g < 2 && h < 2 && x < 0x8000 && y < 0x8000
    ensures Shift(Xor16(0x8000 * g + x, 0x8000 * h + y)) == Xor16(Shift(0x8000 * g + x), Shift(0x8000 * h + y))
  {
    XorTop(g, x, h, y);
    ShiftParts(g, x);
    ShiftParts(h, y);
    PolyTwice(POLY, g, h);
    ShiftParts(Xor(g, h), Xor(x, y));
    FoldTwice(POLY, g, x, h, y);
  }

  /** Division is linear over exclusive or. */
  lemma {:induction false} ShiftsXor(a: crc16, b: crc16, n: nat)
    ensures Shifts(Xor16(a, b), n) == Xor16(Shifts(a, n), Shifts(b, n))
  {
    if n > 0 {
      ShiftsXor(a, b, n - 1);
      ShiftXor(Shifts(a, n - 1), Shifts(b, n - 1));
    }
  }

  /** A low byte reaches the top without feedback. */
  lemma LowByteRises(c: byte)
    ensures Shifts(c, 8) == 256 * c
  {
    assert Shifts(c, 1) == 2 * c;
    assert Shifts(c, 2) == 4 * c;
    assert Shifts(c, 3) == 8 * c;
    assert Shifts(c, 4) == 16 * c;
    assert Shifts(c, 5) == 32 * c;
    assert Shifts(c, 6) == 64 * c;
    assert Shifts(c, 7) == 128 * c;
  }

  // ---- tables

  // Entry x of the lookup tables: x advanced by one, two, three and four bytes.

  function Table0(x: byte): crc16 { Shifts(256 * x, 8) }

  function Table1(x: byte): crc16 { Shifts(Table0(x), 8) }

  function Table2(x: byte): crc16 { Shifts(Table1(x), 8) }

  function Table3(x: byte): crc16 { Shifts(Table2(x), 8) }

  lemma XorBytes(a: byte, b: byte)
    ensures Xor(a, b) < 256
  {
    ShlByConstants(1);
    ShlZero(8);
    XorParts(0, 0, a, b, 8);
  }

  function Xor8(a: byte, b: byte): byte {
    XorBytes(a, b);
    Xor(a, b)
  }

  /** A byte joins the high half of the remainder. */
  lemma JoinHigh(hi: byte, lo: byte, b: byte)
    ensures Xor16(256 * hi + lo, 256 * b) == Xor16(256 * Xor8(hi, b), lo)
  {
    ShlByConstants(1);
    ShlByConstants(hi);
    ShlByConstants(b);
    ShlByConstants(Xor8(hi, b));
    XorParts(hi, b, lo, 0, 8);
    XorComm(lo, 0);
    XorDisjoint(Xor8(hi, b), lo, 8);
  }

  /** Feeding a byte advances the high half through a table and lifts the low one. */
  lemma FeedParts(hi: byte, lo: byte, b: byte)
    ensures Feed(256 * hi + lo, b) == Xor16(Table0(Xor8(hi, b)), 256 * lo)
  {
    JoinHigh(hi, lo, b);
    ShiftsXor(256 * Xor8(hi, b), lo, 8);
    LowByteRises(lo);
  }

  /** Of a lifted byte and a table entry, a further byte meets the former. */
  lemma FeedLifted(t: crc16, lo: byte, b: byte)
    ensures Feed(Xor16(t, 256 * lo), b) == Xor16(Shifts(t, 8), Table0(Xor8(lo, b)))
  {
    XorAssoc(t, 256 * lo, 256 * b);
    JoinHigh(lo, 0, b);
    XorComm(256 * Xor8(lo, b), 0);
    ShiftsXor(t, 256 * Xor8(lo, b), 8);
  }

  lemma FeedTable(t: crc16, b: byte)
    ensures Feed(t, b) == Xor16(Shifts(t, 8), Table0(b))
  {
    ShiftsXor(t, 256 * b, 8);
  }

  /** The four lookups of one slice, combined left to right. */
  function Slice(c: crc16, b0: byte, b1: byte, b2: byte, b3: byte): crc16 {
    Xor16(Xor16(Xor16(Table3(Xor8(c / 256, b0)), Table2(Xor8(c % 256, b1))), Table1(b2)), Table0(b3))
  }

  /** The sliced step feeds in four bytes. */
  lemma SliceStep(c: crc16, b0: byte, b1: byte, b2: byte, b3: byte)
    ensures Slice(c, b0, b1, b2, b3) == Feed(Feed(Feed(Feed(c, b0), b1), b2), b3)
  {
    var x, y := Xor8(c / 256, b0), Xor8(c % 256, b1);
    FeedParts(c / 256, c % 256, b0);
    FeedLifted(Table0(x), c % 256, b1);
    ThirdByte(x, y, b2);
    FourthByte(x, y, b2, b3);
  }

  lemma ThirdByte(x: byte, y: byte, b: byte)
    ensures Feed(Xor16(Table1(x), Table0(y)), b) == Xor16(Xor16(Table2(x), Table1(y)), Table0(b))
  {
    FeedTable(Xor16(Table1(x), Table0(y)), b);
    ShiftsXor(Table1(x), Table0(y), 8);
  }

  lemma FourthByte(x: byte, y: byte, z: byte, b: byte)
    ensures Feed(Xor16(Xor16(Table2(x), Table1(y)), Table0(z)), b)
         == Xor16(Xor16(Xor16(Table3(x), Table2(y)), Table1(z)), Table0(b))
  {
    FeedTable(Xor16(Xor16(Table2(x), Table1(y)), Table0(z)), b);
    ShiftsXor(Xor16(Table2(x), Table1(y)), Table0(z), 8);
    ShiftsXor(Table2(x), Table1(y), 8);
  }

  /** The table-driven step feeds in one byte. */
  lemma ByteStep(c: crc16, b: byte)
    ensures Xor16((c * 256) % 0x1_0000, Table0(Xor8(c / 256, b))) == Feed(c, b)
  {
    LiftLow(c);
    ByteStepParts(c / 256, c % 256, b);
  }

  lemma LiftLow(c: crc16)
    ensures (c * 256) % 0x1_0000 == 256 * (c % 256) && c == 256 * (c / 256) + c % 256
  {
  }

  lemma ByteStepParts(hi: byte, lo: byte, b: byte)
    ensures Xor16(256 * lo, Table0(Xor8(hi, b))) == Feed(256 * hi + lo, b)
  {
    FeedParts(hi, lo, b);
    XorComm(Table0(Xor8(hi, b)), 256 * lo);
  }

  lemma CrcNext(c: crc16, s: seq<byte>, i: nat)
    requires i < |s|
    ensures Crc(c, s[..i + 1]) == Feed(Crc(c, s[..i]), s[i])
  {
    assert s[..i + 1][..i] == s[..i];
  }

  lemma CrcNext4(c: crc16, s: seq<byte>, i: nat)
    requires i + 4 <= |s|
    ensures Crc(c, s[..i + 4]) == Slice(Crc(c, s[..i]), s[i], s[i + 1], s[i + 2], s[i + 3])
  {
    CrcNext(c, s, i);
    CrcNext(c, s, i + 1);
    CrcNext(c, s, i + 2);
    CrcNext(c, s, i + 3);
    SliceStep(Crc(c, s[..i]), s[i], s[i + 1], s[i + 2], s[i + 3]);
  }

  /** Four bytes at a time while they last, then one at a time. */
  method Crc16Update(crc0: crc16, data: seq<byte>) returns (crc: crc16)
    ensures crc == Crc(crc0, data)
  {
    crc := crc0;
    var i := 0;
    while |data| - i >= 4
      invariant 0 <= i <= |data| && crc == Crc(crc0, data[..i])
    {
      CrcNext4(crc0, data, i);
      crc := Slice(crc, data[i], data[i + 1], data[i + 2], data[i + 3]);
      i := i + 4;
    }
    while i < |data|
      invariant 0 <= i <= |data| && crc == Crc(crc0, data[..i])
    {
      CrcNext(crc0, data, i);
      ByteStep(crc, data[i]);
      crc := Xor16((crc * 256) % 0x1_0000, Table0(Xor8(crc / 256, data[i])));
      i := i + 1;
    }
    assert data[..i] == data;
  }

  // ---- whole messages

  lemma NextByte(c: crc16, s: seq<byte>, i: nat)
    requires i < |s|
    ensures Crc(c, s[..i + 1]) == Feed(Crc(c, s[..i]), s[i])
  {
    assert s[..i + 1][..i] == s[..i];
  }

  lemma TwoMore(c: crc16, s: seq<byte>, a: byte, b: byte)
    ensures Crc(c, s + [a, b]) == Feed(Feed(Crc(c, s), a), b)
  {
    hide Feed;
    var t := s + [a, b];
    assert t[..|s|] == s && t[..|s| + 2] == t;
    NextByte(c, t, |s|);
    NextByte(c, t, |s| + 1);
  }

  /** A remainder fed to itself, high byte first, vanishes. */
  lemma OwnChecksum(c: crc16, s: seq<byte>)
    ensures var r := Crc(c, s); Crc(c, s + [r / 256, r % 256]) == 0
  {
    hide Feed, Shifts;
    var r := Crc(c, s);
    TwoMore(c, s, r / 256, r % 256);
    FeedParts(r / 256, r % 256, r / 256);
    FeedParts(r % 256, 0, r % 256);
    XorSelf(r / 256);
    XorSelf(r % 256);
    LowByteRises(0);
    XorComm(256 * (r % 256), 0);
  }
}
