/** The bits a decode depends on: two streams that decode alike agree on every bit consumed, unless the
    code is one that no bit can change. */
module HuffmanBits {
  import opened Bits
  import opened HuffmanCodes

  /** The streams agree on the n bits from p and from q on. */
  ghost predicate SameBits(d: seq<byte>, p: nat, e: seq<byte>, q: nat, n: nat) {
    forall j :: p <= j < p + n ==> BitAt(d, j) == BitAt(e, j - p + q)
  }

  lemma {:induction false} ReadBitsSameIff(d: seq<byte>, p: nat, e: seq<byte>, q: nat, n: nat)
    ensures ReadBits(d, p, n) == ReadBits(e, q, n) <==> SameBits(d, p, e, q, n)
  {
    hide BitAt;
    if n > 0 {
      hide SameBits;
      ReadBitsSameIff(d, p, e, q, n - 1);
      SameBitsNext(d, p, e, q, n - 1);
    }
  }

  lemma SameBitsNext(d: seq<byte>, p: nat, e: seq<byte>, q: nat, n: nat)
    ensures SameBits(d, p, e, q, n + 1) <==> SameBits(d, p, e, q, n) && BitAt(d, p + n) == BitAt(e, q + n)
  {
    hide BitAt;
    assert BitAt(e, (p + n) - p + q) == BitAt(e, q + n);
  }

  /** The only code, if there is one, is a single bit for symbol 0: whatever the bits, they read as
      symbol 0 of length 1. */
  ghost predicate BitFree(lens: seq<nat>, maxbits: nat) {
    forall i: nat :: Coded(lens, maxbits, i) ==> i == 0 && lens[0] == 1
  }

  lemma BitFreeDecodes(lens: seq<nat>, maxbits: nat, d: seq<byte>, p: nat)
    requires maxbits <= 32 && BitFree(lens, maxbits)
    ensures Symbol(lens, maxbits, d, p) == 0 && Length(lens, maxbits, d, p) == 1
  {
    FindMeaning(lens, maxbits, d, p, 0);
  }

  /** No code begins here: either no code begins anywhere, or the first bit is a one. */
  lemma UncoveredFirstBit(lens: seq<nat>, maxbits: nat, d: seq<byte>, p: nat)
    requires 1 <= maxbits <= 32 && Accepted(lens, maxbits) && !Covered(lens, maxbits, d, p)
    ensures BitFree(lens, maxbits) || (ReadBits(d, p, 1) == 1 && Total(lens, maxbits) == Pow2(maxbits - 1))
    ensures Total(lens, maxbits) != Pow2(maxbits)
  {
    hide Total, ReadBits, Fits, Consistent;
    FitsIff(lens, maxbits);
    CoveredIffBelowTotal(lens, maxbits, d, p);
    FirstBitHalves(d, p, maxbits);
    if Total(lens, maxbits) == 0 {
      NothingCoded(lens, maxbits);
    }
  }

  lemma NothingCoded(lens: seq<nat>, maxbits: nat)
    requires 1 <= maxbits <= 32 && Consistent(lens, maxbits) && Total(lens, maxbits) == 0
    ensures forall i: nat :: !Coded(lens, maxbits, i)
  {
    hide Total, Lo, Hi, Edge, End;
    forall i: nat ensures !Coded(lens, maxbits, i) {
      if Coded(lens, maxbits, i) {
        WithinLength(lens, maxbits, i);
        EndBelowTotal(lens, maxbits, lens[i]);
      }
    }
  }

  /** If symbol 0 has the code of one bit and some bits begin no code, it is the only code. */
  lemma OneBitAlone(lens: seq<nat>, maxbits: nat)
    requires 1 <= maxbits <= 32 && Accepted(lens, maxbits) && Coded(lens, maxbits, 0) && lens[0] == 1
    requires Total(lens, maxbits) == Pow2(maxbits - 1)
    ensures BitFree(lens, maxbits)
  {
    hide Total, Lo, Hi, Edge, End;
    HalfInterval(lens, maxbits);
    forall i: nat | Coded(lens, maxbits, i) ensures i == 0 {
      WithinLength(lens, maxbits, i);
      EndBelowTotal(lens, maxbits, lens[i]);
      if i != 0 {
        if lens[i] > 1 { Disjoint(lens, maxbits, i, 0); } else { Disjoint(lens, maxbits, 0, i); }
      }
    }
  }

  lemma HalfInterval(lens: seq<nat>, maxbits: nat)
    requires 1 <= maxbits <= 32 && Accepted(lens, maxbits) && Coded(lens, maxbits, 0) && lens[0] == 1
    requires Total(lens, maxbits) == Pow2(maxbits - 1)
    ensures Lo(lens, maxbits, 0) == 0 && Hi(lens, maxbits, 0) == Pow2(maxbits - 1)
  {
    hide Total, End, Edge, Code, Consistent, Fits;
    WithinLength(lens, maxbits, 0);
    EndBelowTotal(lens, maxbits, 1);
    ShlAdd(Code(lens, 0), 1, maxbits - 1);
  }

  /** Streams that decode to the same symbol and length agree on its bits. */
  lemma SameCode(lens: seq<nat>, maxbits: nat, d: seq<byte>, p: nat, e: seq<byte>, q: nat)
    requires 1 <= maxbits <= 32 && Accepted(lens, maxbits)
    requires Symbol(lens, maxbits, d, p) == Symbol(lens, maxbits, e, q)
    requires Length(lens, maxbits, d, p) == Length(lens, maxbits, e, q)
    ensures BitFree(lens, maxbits) || SameBits(d, p, e, q, Length(lens, maxbits, d, p))
  {
    hide Total, BitFree;
    var n := Length(lens, maxbits, d, p);
    FindMeaning(lens, maxbits, d, p, 0);
    FindMeaning(lens, maxbits, e, q, 0);
    if Covered(lens, maxbits, d, p) != Covered(lens, maxbits, e, q) {
      if Covered(lens, maxbits, d, p) { UncoveredFirstBit(lens, maxbits, e, q); } else { UncoveredFirstBit(lens, maxbits, d, p); }
      if !BitFree(lens, maxbits) { OneBitAlone(lens, maxbits); }
    } else {
      if !Covered(lens, maxbits, d, p) {
        UncoveredFirstBit(lens, maxbits, d, p);
        UncoveredFirstBit(lens, maxbits, e, q);
      }
      ReadBitsSameIff(d, p, e, q, n);
    }
  }

  // ---- a stream that shows zeros from some bit on

  /** From p on, e shows the bits that d has from x on, but zeros in place of those from h on. */
  ghost predicate Masked(d: seq<byte>, x: nat, e: seq<byte>, p: nat, h: nat) {
    forall k: nat :: MaskedAt(d, x, e, p, h, k)
  }

  predicate MaskedAt(d: seq<byte>, x: nat, e: seq<byte>, p: nat, h: nat, k: nat) {
    BitAt(e, p + k) == if x + k < h then BitAt(d, x + k) else 0
  }

  lemma MaskedLater(d: seq<byte>, x: nat, e: seq<byte>, p: nat, h: nat, n: nat)
    requires Masked(d, x, e, p, h)
    ensures Masked(d, x + n, e, p + n, h)
  {
    var y, q := x + n, p + n;
    forall k: nat ensures MaskedAt(d, y, e, q, h, k) {
      assert MaskedAt(d, x, e, p, h, n + k);
      assert p + (n + k) == q + k && x + (n + k) == y + k;
    }
  }

  /** Masking lowers what is read. */
  lemma {:induction false} MaskedLower(d: seq<byte>, x: nat, e: seq<byte>, p: nat, h: nat, n: nat)
    requires Masked(d, x, e, p, h)
    ensures ReadBits(e, p, n) <= ReadBits(d, x, n)
  {
    if n > 0 {
      MaskedLower(d, x, e, p, h, n - 1);
      assert MaskedAt(d, x, e, p, h, n - 1);
    }
  }

  lemma MaskedCovered(lens: seq<nat>, maxbits: nat, d: seq<byte>, x: nat, e: seq<byte>, p: nat, h: nat)
    requires 1 <= maxbits <= 32 && Accepted(lens, maxbits) && Masked(d, x, e, p, h) && Covered(lens, maxbits, d, x)
    ensures Covered(lens, maxbits, e, p)
  {
    MaskedLower(d, x, e, p, h, maxbits);
    CoveredIffBelowTotal(lens, maxbits, d, x);
    CoveredIffBelowTotal(lens, maxbits, e, p);
  }

  /** Where masking turns bits without a code into a code, only zeros are shown from there on. */
  lemma MaskedFromHere(lens: seq<nat>, maxbits: nat, d: seq<byte>, x: nat, e: seq<byte>, p: nat, h: nat)
    requires 1 <= maxbits <= 32 && Accepted(lens, maxbits) && Masked(d, x, e, p, h)
    requires !Covered(lens, maxbits, d, x) && Covered(lens, maxbits, e, p)
    ensures h <= x
  {
    if x < h {
      assert MaskedAt(d, x, e, p, h, 0);
      assert ReadBits(d, x, 1) == ReadBits(e, p, 1);
      UncoveredByFirstBit(lens, maxbits, d, x, e, p);
    }
  }

  /** Two symbols in a row: if both streams decode the same two and end together, they agree on the
      bits of both. */
  lemma SameTwoCodes(lens: seq<nat>, maxbits: nat, d: seq<byte>, x: nat, e: seq<byte>, p: nat, h: nat)
    requires 1 <= maxbits <= 32 && Accepted(lens, maxbits) && Masked(d, x, e, p, h)
    requires Symbol(lens, maxbits, d, x) == Symbol(lens, maxbits, e, p)
    requires var a, b := Length(lens, maxbits, d, x), Length(lens, maxbits, e, p);
             Symbol(lens, maxbits, d, x + a) == Symbol(lens, maxbits, e, p + b)
             && a + Length(lens, maxbits, d, x + a) == b + Length(lens, maxbits, e, p + b)
    ensures BitFree(lens, maxbits) || Length(lens, maxbits, d, x) == Length(lens, maxbits, e, p)
  {
    hide Total;
    var a, b := Length(lens, maxbits, d, x), Length(lens, maxbits, e, p);
    if a != b {
      LengthOfSymbol(lens, maxbits, d, x);
      LengthOfSymbol(lens, maxbits, e, p);
      if Covered(lens, maxbits, d, x) {
        MaskedCovered(lens, maxbits, d, x, e, p, h);
        assert false;
      } else {
        MaskedFromHere(lens, maxbits, d, x, e, p, h);
        ZerosRepeat(lens, maxbits, d, x, e, p, h);
        LengthOfSymbol(lens, maxbits, d, x + a);
      }
    }
  }

  lemma LengthOfSymbol(lens: seq<nat>, maxbits: nat, d: seq<byte>, p: nat)
    requires 1 <= maxbits <= 32
    ensures var s, n := Symbol(lens, maxbits, d, p), Length(lens, maxbits, d, p);
            if Covered(lens, maxbits, d, p) then Coded(lens, maxbits, s) && n == lens[s] else s == 0 && n == 1
  {
    FindMeaning(lens, maxbits, d, p, 0);
  }

  /** Where only zeros are shown, the next symbol is the same again. */
  lemma ZerosRepeat(lens: seq<nat>, maxbits: nat, d: seq<byte>, x: nat, e: seq<byte>, p: nat, h: nat)
    requires 1 <= maxbits <= 32 && Accepted(lens, maxbits) && Masked(d, x, e, p, h) && h <= x
    ensures var n := Length(lens, maxbits, e, p);
            Symbol(lens, maxbits, e, p + n) == Symbol(lens, maxbits, e, p) && Length(lens, maxbits, e, p + n) == n
  {
    var n := Length(lens, maxbits, e, p);
    forall j | p <= j < p + n ensures BitAt(e, j) == BitAt(e, j - p + (p + n)) {
      assert MaskedAt(d, x, e, p, h, j - p) && MaskedAt(d, x, e, p, h, j - p + n);
    }
    DecodeLocal(lens, maxbits, e, p, e, p + n);
  }
}
