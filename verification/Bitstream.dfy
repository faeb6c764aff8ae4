/** The bit reader: a 32-bit accumulator refilled one byte at a time. Every result is a function of
    the data and of the number of bits consumed so far. */
module BitstreamModule {
  import opened Bits

  const WORD := 0x1_0000_0000

  /** How many real bits a peek of n bits at position p can deliver: the refill loop stops at the
      last byte that still fits the 32-bit accumulator. */
  function Deliverable(p: nat, n: nat): (m: nat)
    ensures m <= n
  {
    if n <= 32 - p % 8 then n else 32 - p % 8
  }

  /** The value of a peek: the deliverable bits, and zeros below them. */
  function PeekValue(data: seq<byte>, p: nat, n: nat): (v: nat)
    ensures v < Pow2(n)
  {
    var m := Deliverable(p, n);
    ShlMono(ReadBits(data, p, m) + 1, Pow2(m), n - m);
    ShlAdd(ReadBits(data, p, m), 1, n - m);
    ShlShl(1, m, n - m);
    Pow2Mono(0, n - m);
    Shl(ReadBits(data, p, m), n - m)
  }

  /** A peek is exact on every input exactly when the bits span at most four bytes; widths of up
      to 25 always do. */
  lemma PeekExactIff(p: nat, n: nat)
    requires n <= 32
    ensures (forall data :: PeekValue(data, p, n) == ReadBits(data, p, n)) <==> p % 8 + n <= 32
    ensures n <= 25 ==> p % 8 + n <= 32
  {
    if p % 8 + n <= 32 {
      forall data ensures PeekValue(data, p, n) == ReadBits(data, p, n) {}
    } else {
      var data := WidePeekLosesBits(p, n);
    }
  }

  /** An over-wide peek of all-one bytes ends in a zero bit. */
  lemma WidePeekLosesBits(p: nat, n: nat) returns (data: seq<byte>)
    requires n <= 32 < p % 8 + n
    ensures PeekValue(data, p, n) != ReadBits(data, p, n)
  {
    data := seq(p + n, _ => 255);
    SetBit(data, p + n - 1);
    LastBit(data, p, n);
    var v := ReadBits(data, p, Deliverable(p, n));
    EvenShift(v, n - Deliverable(p, n));
  }

  lemma LastBit(data: seq<byte>, p: nat, n: nat)
    requires n > 0 && BitAt(data, p + n - 1) == 1
    ensures ReadBits(data, p, n) % 2 == 1
  {
    hide BitAt, ReadBits;
    ReadLast(data, p, n);
    OddSum(ReadBits(data, p, n - 1));
  }

  lemma ReadLast(data: seq<byte>, p: nat, n: nat)
    requires n > 0
    ensures ReadBits(data, p, n) == 2 * ReadBits(data, p, n - 1) + BitAt(data, p + n - 1)
  {
    hide BitAt;
  }

  lemma OddSum(x: nat)
    ensures (2 * x + 1) % 2 == 1
  {
  }

  lemma SetBit(data: seq<byte>, j: nat)
    requires j / 8 < |data| && data[j / 8] == 255
    ensures BitAt(data, j) == 1
  {
    OddOfOnes(7 - j % 8);
  }

  lemma EvenShift(v: nat, k: nat)
    requires k > 0
    ensures Shl(v, k) % 2 == 0
  {
  }

  lemma {:induction false} OddOfOnes(k: nat)
    requires k <= 7
    ensures Shr(255, k) % 2 == 1
  {
    assert Shr(255, 1) == 127 && Shr(255, 2) == 63 && Shr(255, 3) == 31;
    assert Shr(255, 4) == 15 && Shr(255, 5) == 7 && Shr(255, 6) == 3 && Shr(255, 7) == 1;
  }

  /** A peek depends only on the bits it covers and on the position within a byte. */
  lemma PeekAgree(d: seq<byte>, e: seq<byte>, p: nat, q: nat, n: nat)
    requires p % 8 == q % 8
    requires forall j :: p <= j < p + n ==> BitAt(d, j) == BitAt(e, j - p + q)
    ensures PeekValue(d, p, n) == PeekValue(e, q, n)
  {
    ReadBitsAgree(d, e, p, q, Deliverable(p, n));
  }

  /** The accumulator that holds the b bits at position p in its top end. */
  function Packed(data: seq<byte>, p: nat, b: nat): nat
    requires b <= 32
  {
    Shl(ReadBits(data, p, b), 32 - b)
  }

  lemma ShlBelow(x: nat, a: nat, n: nat)
    requires x < Pow2(a)
    ensures Shl(x, n) + Pow2(n) <= Pow2(a + n)
  {
    ShlMono(x, Pow2(a), n);
    ShlShl(1, a, n);
  }

  /** Or-ing a byte in below held bits. */
  lemma OrByte(hi: nat, v: byte, b: nat)
    requires b <= 24 && hi < Pow2(b)
    ensures Shl(v, 24 - b) < WORD
    ensures BitOr(Shl(hi, 32 - b), Shl(v, 24 - b)) == Shl(Shl(hi, 8) + v, 24 - b)
  {
    ShlAdd(Shl(hi, 8), v, 24 - b);
    ShlShl(hi, 8, 24 - b);
    BytePow(v);
    ShlBelow(v, 8, 24 - b);
    BelowWord(32 - b);
    Pow2Mono(0, 24 - b);
    OrDisjoint(hi, Shl(v, 24 - b), 32 - b);
  }

  lemma BytePow(v: byte)
    ensures v < Pow2(8)
  {
    ShlByConstants(1);
  }

  lemma BelowWord(k: nat)
    requires k <= 32
    ensures Pow2(k) <= WORD
  {
    Pow2Mono(k, 32);
    ShlByConstants(1);
  }

  function ByteAt(data: seq<byte>, k: nat): byte {
    if k < |data| then data[k] else 0
  }

  /** Or-ing the next byte in below b >= 0 held bits. */
  lemma FillWhole(data: seq<byte>, p: nat, b: nat, k: nat)
    requires b <= 24 && p + b == 8 * k
    ensures Shl(ByteAt(data, k), 24 - b) < WORD
    ensures BitOr(Packed(data, p, b), Shl(ByteAt(data, k), 24 - b)) == Packed(data, p, b + 8)
  {
    hide ReadBits, Shl, BitOr;
    ReadBitsInByte(data, k, 8);
    ReadBitsSplit(data, p, b, 8);
    OrByte(ReadBits(data, p, b), ByteAt(data, k), b);
  }

  /** Shifting the next byte in when s of its bits have already been consumed. */
  lemma FillPartial(data: seq<byte>, k: nat, s: nat)
    requires 1 <= s <= 7
    ensures Shl(ByteAt(data, k), 24 + s) % WORD == Packed(data, 8 * k + s, 8 - s)
  {
    ReadBitsInByte(data, k, 8);
    ReadBitsSplit(data, 8 * k, s, 8 - s);
    var hi, lo := ReadBits(data, 8 * k, s), ReadBits(data, 8 * k + s, 8 - s);
    SplitWord(hi, lo, 8 - s, 24 + s);
  }

  /** Of two parts shifted to a word boundary, only the lower one survives. */
  lemma SplitWord(hi: nat, lo: nat, t: nat, u: nat)
    requires t + u == 32 && lo < Pow2(t)
    ensures Shl(Shl(hi, t) + lo, u) % WORD == Shl(lo, u)
  {
    hide Shl;
    ShlAdd(Shl(hi, t), lo, u);
    ShlShl(hi, t, u);
    ShlByConstants(hi);
    ShlByConstants(1);
    ShlBelow(lo, t, u);
    Pow2Mono(0, u);
    WordGone(hi, Shl(lo, u));
  }

  lemma WordGone(hi: nat, lo: nat)
    requires lo < WORD
    ensures (WORD * hi + lo) % WORD == lo
  {
  }

  /** Shifting two joined parts left and then all the way back leaves the upper one. */
  lemma UpperPart(hi: nat, lo: nat, t: nat, u: nat)
    requires lo < Pow2(t)
    ensures Shr(Shl(Shl(hi, t) + lo, u), t + u) == hi
  {
    ShlAdd(Shl(hi, t), lo, u);
    ShlShl(hi, t, u);
    ShlBelow(lo, t, u);
    Pow2Mono(0, u);
    ShrShl(hi, Shl(lo, u), t + u);
  }

  lemma ShrExact(v: nat, n: nat)
    ensures Shr(Shl(v, n), n) == v
  {
    Pow2Mono(0, n);
    ShrShl(v, 0, n);
  }

  lemma NoShift(v: nat)
    ensures Shl(v, 0) == v
  {
  }

  /** Taking the top n bits of an accumulator that holds b of them. */
  lemma TopBits(data: seq<byte>, p: nat, b: nat, n: nat)
    requires b <= 32 - p % 8 && 1 <= n <= 32
    requires n <= b || b == 32 - p % 8
    ensures Shr(Packed(data, p, b), 32 - n) == PeekValue(data, p, n)
  {
    hide Shl, Shr, ReadBits;
    if n <= b {
      NoShift(ReadBits(data, p, n));
      ReadBitsSplit(data, p, n, b - n);
      UpperPart(ReadBits(data, p, n), ReadBits(data, p + n, b - n), b - n, 32 - b);
    } else {
      ShlShl(ReadBits(data, p, b), n - b, 32 - n);
      ShrExact(Shl(ReadBits(data, p, b), n - b), 32 - n);
    }
  }

  /** Shifting out no more bits than are held keeps the rest. */
  lemma ShiftOutSome(data: seq<byte>, p: nat, b: nat, n: nat)
    requires n <= b <= 32
    ensures Shl(Packed(data, p, b), n) % WORD == Packed(data, p + n, b - n)
  {
    ReadBitsSplit(data, p, n, b - n);
    var v := ReadBits(data, p, b);
    ShlShl(v, 32 - b, n);
    SplitWord(ReadBits(data, p, n), ReadBits(data, p + n, b - n), b - n, 32 - b + n);
  }

  /** Shifting out more bits than are held leaves nothing. */
  lemma ShiftOutAll(data: seq<byte>, p: nat, b: nat, n: nat)
    requires b < n <= 32
    ensures Shl(Packed(data, p, b), n) % WORD == 0
  {
    hide Shl, ReadBits;
    var v := ReadBits(data, p, b);
    ShlShl(v, 32 - b, n);
    ShlShl(v, n - b, 32);
    ShlByConstants(Shl(v, n - b));
    WordGone(Shl(v, n - b), 0);
  }

  /** Nothing held is the zero accumulator. */
  lemma PackedEmpty(data: seq<byte>, p: nat)
    ensures Packed(data, p, 0) == 0
  {
    ShlZero(32);
  }

  /** The number of bits held is the position's complement within a byte. */
  lemma Alignment(p: nat, doffset: nat, bits: int)
    requires 8 * doffset - bits == p && bits <= 32
    ensures bits <= 32 - p % 8
    ensures bits > 24 ==> bits == 32 - p % 8
  {
  }

  /** A reader's fields, copied out of it. */
  datatype StreamState = StreamState(data: seq<byte>, buffer: nat, bits: int, doffset: nat)
  {
    ghost predicate Valid() {
      && bits <= 32
      && 0 <= 8 * doffset - bits
      && buffer == Packed(data, 8 * doffset - bits, if bits >= 0 then bits else 0)
    }

    ghost function Position(): (p: nat)
      requires Valid()
    {
      8 * doffset - bits
    }
  }

  /** The bit reader's state over one immutable buffer. `bits` goes negative when more has been
      removed than was held; the refill loop then skips what is already consumed. */
  class Bitstream {
    const data: seq<byte>
    var buffer: nat
    var bits: int
    var doffset: nat

    ghost predicate Valid()
      reads this
    {
      && bits <= 32
      && 0 <= 8 * doffset - bits
      && buffer == Packed(data, 8 * doffset - bits, Held())
    }

    ghost function Held(): nat
      reads this
    {
      if bits >= 0 then bits else 0
    }

    /** The number of bits consumed. */
    ghost function Position(): (p: nat)
      reads this
      requires Valid()
    {
      8 * doffset - bits
    }

    constructor (src: seq<byte>)
      ensures Valid() && data == src && Position() == 0 && bits == 0
    {
      data, buffer, bits, doffset := src, 0, 0, 0;
      PackedEmpty(src, 0);
    }

    /** Continues from a saved state. */
    constructor Resume(s: StreamState)
      requires s.Valid()
      ensures Valid() && data == s.data && Position() == s.Position() && bits == s.bits
    {
      data, buffer, bits, doffset := s.data, s.buffer, s.bits, s.doffset;
    }

    method Save() returns (s: StreamState)
      requires Valid()
      ensures s.Valid() && s.data == data && s.Position() == Position() && s.bits == bits
    {
      s := StreamState(data, buffer, bits, doffset);
    }

    /** Reports whether consumption has run past the end of the buffer, except that a partly
        consumed byte after an over-wide read is not counted. */
    method Overflow() returns (r: bool)
      requires Valid()
      ensures bits >= 0 ==> (r <==> Position() > 8 * |data|)
      ensures bits < 0 ==> (r <==> Position() / 8 > |data|)
    {
      var wholeBytes := if bits >= 0 then bits / 8 else -((-bits) / 8);
      r := doffset - wholeBytes > |data|;
    }

    method Peek(numbits: nat) returns (r: nat)
      requires Valid() && numbits <= 32
      modifies this
      ensures Valid() && Position() == old(Position())
      ensures r == PeekValue(data, Position(), numbits)
      ensures old(bits) <= bits && Deliverable(Position(), numbits) <= Held()
    {
      if numbits == 0 {
        return 0;
      }
      hide Packed, Shl, ReadBits, PeekValue;
      ghost var p := Position();
      if numbits > bits {
        Refill();
      }
      Alignment(p, doffset, bits);
      TopBits(data, p, bits, numbits);
      r := Shr(buffer, 32 - numbits);
    }

    /** Fetches bytes as long as one fits the accumulator. */
    method Refill()
      requires Valid()
      modifies this
      ensures Valid() && Position() == old(Position()) && old(bits) <= bits && bits > 24
    {
      hide Packed;
      while bits <= 24
        invariant Valid() && Position() == old(Position()) && old(bits) <= bits
        decreases 24 - bits
      {
        FetchByte();
      }
    }

    /** One byte, or a zero past the end of the data. */
    method FetchByte()
      requires Valid() && bits <= 24
      modifies this
      ensures Valid() && Position() == old(Position()) && bits == old(bits) + 8
    {
      hide Packed, Shl, BitOr;
      ghost var p := Position();
      var shift := 24 - bits;
      if shift < 32 {
        FillStep(data, p, bits, doffset);
        FillNothing(buffer, shift);
      } else {
        PackedEmpty(data, p);
      }
      if doffset < |data| && shift < 32 {
        buffer := BitOr(buffer, Shl(data[doffset], shift) % WORD);
      }
      doffset := doffset + 1;
      bits := bits + 8;
    }

    method Remove(numbits: nat)
      requires Valid() && numbits <= 32
      modifies this
      ensures Valid() && Position() == old(Position()) + numbits
      ensures bits == old(bits) - numbits
    {
      if numbits <= Held() {
        ShiftOutSome(data, Position(), Held(), numbits);
      } else {
        ShiftOutAll(data, Position(), Held(), numbits);
      }
      PackedEmpty(data, Position() + numbits);
      buffer := if numbits >= 32 then 0 else Shl(buffer, numbits) % WORD;
      bits := bits - numbits;
    }

    method Read(numbits: nat) returns (r: nat)
      requires Valid() && numbits <= 32
      modifies this
      ensures Valid() && Position() == old(Position()) + numbits
      ensures r == PeekValue(data, old(Position()), numbits)
      ensures old(bits) >= 0 && old(Position()) % 8 + numbits <= 32 ==> bits >= 0
    {
      r := Peek(numbits);
      Remove(numbits);
    }

    /** A read narrow enough to be exact at every position. */
    method ReadNarrow(numbits: nat) returns (r: nat)
      requires Valid() && bits >= 0 && numbits <= 25
      modifies this
      ensures Valid() && bits >= 0 && Position() == old(Position()) + numbits
      ensures r == ReadBits(data, old(Position()), numbits)
    {
      r := Read(numbits);
    }

    method PositionBits() returns (r: nat)
      requires Valid()
      ensures r == Position()
    {
      r := doffset * 8 - bits;
    }

    /** Repositions the reader; every later result is that of a reader that consumed its way there. */
    method SeekBits(bitpos: nat)
      modifies this
      ensures Valid() && Position() == bitpos && bits >= 0
    {
      var rem := bitpos % 8;
      doffset := bitpos / 8;
      bits := 0;
      buffer := 0;
      PackedEmpty(data, 8 * doffset);
      if rem != 0 {
        var _ := Read(rem);
      }
    }

    /** Moves to the next byte boundary, returning it in bytes; after an over-wide read it falls
        back to the last byte fetched. */
    method Flush() returns (r: nat)
      requires Valid()
      modifies this
      ensures Valid() && bits == 0 && Position() == 8 * r
      ensures old(bits) >= 0 ==> r == (old(Position()) + 7) / 8
      ensures old(bits) < 0 ==> 8 * r == old(Position() + bits)
    {
      while bits >= 8
        invariant bits <= old(bits) && (old(bits) >= 0 ==> bits >= 0) && (old(bits) < 0 ==> bits == old(bits))
        invariant 8 * doffset - bits == old(Position())
        decreases bits
      {
        doffset := doffset - 1;
        bits := bits - 8;
      }
      bits, buffer := 0, 0;
      PackedEmpty(data, 8 * doffset);
      r := doffset;
    }
  }

  /** One round of the refill loop while the byte still reaches the accumulator. */
  lemma FillStep(data: seq<byte>, p: nat, bits: int, doffset: nat)
    requires -8 < bits <= 24 && 8 * doffset - bits == p
    ensures BitOr(Packed(data, p, if bits >= 0 then bits else 0), Shl(ByteAt(data, doffset), 24 - bits) % WORD)
         == Packed(data, p, bits + 8)
  {
    hide Shl, Packed, BitOr;
    if bits >= 0 {
      FillWhole(data, p, bits, doffset);
      WordGone(0, Shl(ByteAt(data, doffset), 24 - bits));
    } else {
      PackedEmpty(data, p);
      FillPartial(data, doffset, -bits);
      OrNothing(Packed(data, p, bits + 8));
    }
  }

  lemma OrNothing(x: nat)
    ensures BitOr(0, x) == x
  {
    ShlZero(0);
    OrZero(x);
  }

  /** Past the end of the data the loop ors nothing in. */
  lemma FillNothing(x: nat, shift: nat)
    ensures BitOr(x, Shl(0, shift) % WORD) == x
  {
    ShlZero(shift);
    OrZero(x);
  }
}
