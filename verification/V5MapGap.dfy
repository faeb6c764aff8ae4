/** When the chunked passes decode like the passes over the whole blob. A chunk shows zeros past its end:
    decoding is the same exactly when the bits it should have shown there are zeros, too. */
module V5MapGap {
  import opened Bits
  import opened BitstreamModule
  import opened HuffmanCodes
  import opened HuffmanBits
  import opened V5Map
  import opened V5MapWindows
  import opened V5MapChunks

  /** The blob's bits lo .. hi are zeros as far as they lie past the chunk at off. */
  ghost predicate ZerosPast(blob: seq<byte>, off: nat, lo: nat, hi: nat) {
    forall j :: lo <= j < hi && 8 * (off + CHUNK) <= j ==> BitAt(blob, j) == 0
  }

  /** What a stream over the chunk shows. */
  lemma ChunkMasks(blob: seq<byte>, off: nat, p: nat)
    ensures Masked(blob, p + 8 * off, ChunkAt(blob, off), p, 8 * (off + CHUNK))
  {
    hide BitAt;
    var chunk, x, h := ChunkAt(blob, off), p + 8 * off, 8 * (off + CHUNK);
    CutAgrees(blob, off, off + CHUNK, h);
    forall k: nat ensures MaskedAt(blob, x, chunk, p, h, k) {
      if x + k < h {
        assert BitAt(blob, x + k) == BitAt(chunk, (x + k) - 8 * off + 0);
      } else {
        PastData(chunk, p + k);
      }
    }
  }

  lemma PastData(data: seq<byte>, j: nat)
    requires 8 * |data| <= j
    ensures BitAt(data, j) == 0
  {
  }

  /** A masked stream agrees on some bits exactly when those behind the mask are zeros. */
  lemma AgreeIffZeros(d: seq<byte>, x: nat, e: seq<byte>, p: nat, h: nat, n: nat)
    requires Masked(d, x, e, p, h)
    ensures SameBits(d, x, e, p, n) <==> forall j :: x <= j < x + n && h <= j ==> BitAt(d, j) == 0
  {
    hide BitAt;
    forall j | x <= j < x + n ensures BitAt(e, j - x + p) == if j < h then BitAt(d, j) else 0 {
      assert MaskedAt(d, x, e, p, h, j - x);
    }
  }

  // ---- pass 1, one hunk

  /** Whether a hunk's types, decoded through the chunk at off, come out as over the whole blob. */
  ghost predicate TypeShown(lens: seq<nat>, blob: seq<byte>, s: TypeState, off: nat) {
    s.repcount == 0 ==> BitFree(lens, MAXBITS) || ZerosPast(blob, off, s.pos, NextType(lens, blob, s).pos)
  }

  lemma NextTypeBitFree(lens: seq<nat>, d: seq<byte>, s: TypeState)
    requires BitFree(lens, MAXBITS) && s.repcount == 0
    ensures NextType(lens, d, s) == TypeState(s.pos + 1, 0, 0)
  {
    BitFreeDecodes(lens, MAXBITS, d, s.pos);
  }

  lemma SymBelow(lens: seq<nat>, d: seq<byte>, p: nat)
    requires |lens| == NUMCODES
    ensures Sym(lens, d, p) < 16
  {
    LengthBound(lens, MAXBITS, d, p);
  }

  /** A symbol other than 0 has one length. */
  lemma SymLength(lens: seq<nat>, d: seq<byte>, x: nat, e: seq<byte>, p: nat)
    requires Sym(lens, d, x) == Sym(lens, e, p) != 0
    ensures After(lens, d, x) - x == After(lens, e, p) - p
  {
    LengthOfSymbol(lens, MAXBITS, d, x);
    LengthOfSymbol(lens, MAXBITS, e, p);
  }

  /** The state after a hunk determines the symbol it began with. */
  lemma FirstSymbol(lens: seq<nat>, d: seq<byte>, s: TypeState, e: seq<byte>, p: nat)
    requires |lens| == NUMCODES && s.repcount == 0
    requires var t, u := NextType(lens, d, s), NextType(lens, e, s.(pos := p));
             t.lastcomp == u.lastcomp && t.repcount == u.repcount && t.pos - s.pos == u.pos - p
    ensures Sym(lens, d, s.pos) == Sym(lens, e, p) && After(lens, d, s.pos) - s.pos == After(lens, e, p) - p
  {
    hide Symbol, Length;
    var v, w := Sym(lens, d, s.pos), Sym(lens, e, p);
    SymBelow(lens, d, After(lens, d, s.pos));
    SymBelow(lens, e, After(lens, e, p));
    SymBelow(lens, d, After(lens, d, After(lens, d, s.pos)));
    SymBelow(lens, e, After(lens, e, After(lens, e, p)));
    assert v == w;
    if v != 0 { SymLength(lens, d, s.pos, e, p); }
  }

  /** Streams that decode a symbol alike agree on its bits. */
  lemma SameSym(lens: seq<nat>, d: seq<byte>, x: nat, e: seq<byte>, p: nat)
    requires Accepted(lens, MAXBITS)
    requires Sym(lens, d, x) == Sym(lens, e, p) && After(lens, d, x) - x == After(lens, e, p) - p
    ensures BitFree(lens, MAXBITS) || SameBits(d, x, e, p, After(lens, d, x) - x)
  {
    hide Accepted, BitFree, SameBits;
    SameCode(lens, MAXBITS, d, x, e, p);
  }

  lemma SameJoin(d: seq<byte>, x: nat, e: seq<byte>, p: nat, m: nat, n: nat)
    requires SameBits(d, x, e, p, m) && SameBits(d, x + m, e, p + m, n)
    ensures SameBits(d, x, e, p, m + n)
  {
    hide BitAt;
    forall j | x <= j < x + m + n ensures BitAt(d, j) == BitAt(e, j - x + p) {
      if j >= x + m { assert j - (x + m) + (p + m) == j - x + p; }
    }
  }

  /** Two streams, one of them masked, that decode a run alike agree on its bits. */
  lemma SameRun(lens: seq<nat>, v: nat, d: seq<byte>, x: nat, e: seq<byte>, p: nat, h: nat)
    requires |lens| == NUMCODES && Accepted(lens, MAXBITS) && Masked(d, x, e, p, h) && IsRun(v)
    requires var (c, q) := RunCount(lens, d, v, x); var (c', q') := RunCount(lens, e, v, p);
             c == c' && q - x == q' - p
    ensures BitFree(lens, MAXBITS) || SameBits(d, x, e, p, RunCount(lens, d, v, x).1 - x)
  {
    hide Symbol, Length, Accepted, BitFree, SameBits, Masked;
    if v == RLE_SMALL {
      SameSym(lens, d, x, e, p);
    } else {
      var y, q := After(lens, d, x), After(lens, e, p);
      SymBelow(lens, d, x);
      SymBelow(lens, e, p);
      SymBelow(lens, d, y);
      SymBelow(lens, e, q);
      assert Sym(lens, d, x) == Sym(lens, e, p) && Sym(lens, d, y) == Sym(lens, e, q);
      SameTwoCodes(lens, MAXBITS, d, x, e, p, h);
      if !BitFree(lens, MAXBITS) {
        SameSym(lens, d, x, e, p);
        SameSym(lens, d, y, e, q);
        SameJoin(d, x, e, p, y - x, After(lens, d, y) - y);
      }
    }
  }

  /** A hunk decoded alike consumed the same bits. */
  lemma SameType(lens: seq<nat>, d: seq<byte>, s: TypeState, e: seq<byte>, p: nat, h: nat)
    requires |lens| == NUMCODES && Accepted(lens, MAXBITS) && Masked(d, s.pos, e, p, h) && s.repcount == 0
    requires var t, u := NextType(lens, d, s), NextType(lens, e, s.(pos := p));
             t.lastcomp == u.lastcomp && t.repcount == u.repcount && t.pos - s.pos == u.pos - p
    ensures BitFree(lens, MAXBITS) || SameBits(d, s.pos, e, p, NextType(lens, d, s).pos - s.pos)
  {
    hide Symbol, Length, Accepted, BitFree, SameBits, Masked, RunCount;
    var x := s.pos;
    FirstSymbol(lens, d, s, e, p);
    SameSym(lens, d, x, e, p);
    var v, y, q := Sym(lens, d, x), After(lens, d, x), After(lens, e, p);
    if IsRun(v) && !BitFree(lens, MAXBITS) {
      MaskedLater(d, x, e, p, h, y - x);
      RunForward(lens, d, v, y);
      SameRun(lens, v, d, y, e, q, h);
      SameJoin(d, x, e, p, y - x, RunCount(lens, d, v, y).1 - y);
    }
  }

  lemma RunForward(lens: seq<nat>, d: seq<byte>, v: nat, p: nat)
    ensures p <= RunCount(lens, d, v, p).1
  {
  }

  /** A hunk decodes through the chunk as over the whole blob if and only if its bits past the chunk are
      zeros, or bits do not matter. */
  lemma NextTypeIff(lens: seq<nat>, blob: seq<byte>, s: TypeState, off: nat)
    requires |lens| == NUMCODES && Accepted(lens, MAXBITS) && 8 * off <= s.pos
    ensures var t := NextType(lens, blob, s);
            && t.pos >= s.pos
            && (NextType(lens, ChunkAt(blob, off), s.(pos := s.pos - 8 * off)) == t.(pos := t.pos - 8 * off)
                <==> TypeShown(lens, blob, s, off))
  {
    hide Accepted, BitFree, ChunkAt;
    var p, h, chunk := s.pos - 8 * off, 8 * (off + CHUNK), ChunkAt(blob, off);
    NextTypeGrows(lens, blob, s);
    NextTypeGrows(lens, chunk, s.(pos := p));
    if s.repcount == 0 {
      ChunkMasks(blob, off, p);
      NextTypeOnceIff(lens, blob, s, chunk, p, h);
    }
  }

  lemma NextTypeOnceIff(lens: seq<nat>, d: seq<byte>, s: TypeState, e: seq<byte>, p: nat, h: nat)
    requires |lens| == NUMCODES && Accepted(lens, MAXBITS) && Masked(d, s.pos, e, p, h) && s.repcount == 0
    ensures var t := NextType(lens, d, s);
            && t.pos >= s.pos
            && (NextType(lens, e, s.(pos := p)) == t.(pos := t.pos - s.pos + p)
                <==> BitFree(lens, MAXBITS) || forall j :: s.pos <= j < t.pos && h <= j ==> BitAt(d, j) == 0)
  {
    hide NextType, Accepted, BitFree, BitAt, Masked;
    var t := NextType(lens, d, s);
    NextTypeGrows(lens, d, s);
    if BitFree(lens, MAXBITS) {
      NextTypeBitFree(lens, d, s);
      NextTypeBitFree(lens, e, s.(pos := p));
    } else {
      AgreeIffZeros(d, s.pos, e, p, h, t.pos - s.pos);
      if SameBits(d, s.pos, e, p, t.pos - s.pos) {
        NextTypeLocal(lens, d, e, s, p);
      }
      if NextType(lens, e, s.(pos := p)) == t.(pos := t.pos - s.pos + p) {
        SameType(lens, d, s, e, p, h);
      }
    }
  }

  // ---- pass 2, one hunk

  /** The bits of a field that a read of it delivers. */
  predicate Delivered(p: nat, n: nat, j: nat) {
    p <= j < p + Deliverable(p, n)
  }

  /** The bits that the fields of a hunk of this type are read from. */
  predicate Taken(par: Params, kind: nat, p: nat, j: nat) {
    if kind <= TYPE_3 then Delivered(p, par.lengthbits, j) || Delivered(p + par.lengthbits, 16, j)
    else if kind == NONE then Delivered(p, 16, j)
    else if kind == SELF then Delivered(p, par.selfbits, j)
    else if kind == PARENT then Delivered(p, par.parentbits, j)
    else false
  }

  /** Whether a hunk's fields, read through the chunk at off, come out as over the whole blob. */
  ghost predicate FieldShown(par: Params, blob: seq<byte>, kind: nat, p: nat, off: nat) {
    forall j :: Taken(par, kind, p, j) && 8 * (off + CHUNK) <= j ==> BitAt(blob, j) == 0
  }

  lemma ShlSameIff(x: nat, y: nat, n: nat)
    ensures Shl(x, n) == Shl(y, n) <==> x == y
  {
    ShlMono(x, y, n);
    ShlMono(y, x, n);
  }

  ghost predicate ZerosIn(d: seq<byte>, p: nat, n: nat, h: nat) {
    forall j :: Delivered(p, n, j) && h <= j ==> BitAt(d, j) == 0
  }

  /** A field reads alike exactly when its bits behind the mask are zeros. */
  lemma FieldIff(d: seq<byte>, x: nat, e: seq<byte>, p: nat, h: nat, n: nat)
    requires Masked(d, x, e, p, h) && x % 8 == p % 8
    ensures Field(d, x, n) == Field(e, p, n) <==> ZerosIn(d, x, n, h)
  {
    hide BitAt, Masked, SameBits, ReadBits;
    var m := Deliverable(x, n);
    ShlSameIff(ReadBits(d, x, m), ReadBits(e, p, m), n - m);
    ReadBitsSameIff(d, x, e, p, m);
    AgreeIffZeros(d, x, e, p, h, m);
  }

  lemma FieldShownIff(par: Params, d: seq<byte>, kind: nat, p: nat, off: nat)
    ensures FieldShown(par, d, kind, p, off) <==>
            var h := 8 * (off + CHUNK);
            && (kind <= TYPE_3 ==> ZerosIn(d, p, par.lengthbits, h) && ZerosIn(d, p + par.lengthbits, 16, h))
            && (kind == NONE ==> ZerosIn(d, p, 16, h))
            && (kind == SELF ==> ZerosIn(d, p, par.selfbits, h))
            && (kind == PARENT ==> ZerosIn(d, p, par.parentbits, h))
  {
    hide BitAt, Deliverable;
  }

  /** The fields of a hunk read through the chunk as over the whole blob if and only if the bits they
      are read from are zeros past the chunk. */
  lemma NextEntryIff(par: Params, blob: seq<byte>, hunk: nat, kind: nat, f: FieldState, off: nat)
    requires par.unitbytes > 0 && 8 * off <= f.pos
    ensures var (e, g) := NextEntry(par, blob, hunk, kind, f);
            && g.pos >= f.pos
            && (NextEntry(par, ChunkAt(blob, off), hunk, kind, f.(pos := f.pos - 8 * off)) == (e, g.(pos := g.pos - 8 * off))
                <==> FieldShown(par, blob, kind, f.pos, off))
  {
    hide BitAt, ChunkAt, Masked, Field, FieldShown, ZerosIn;
    var x, p, h, chunk := f.pos, f.pos - 8 * off, 8 * (off + CHUNK), ChunkAt(blob, off);
    ChunkMasks(blob, off, p);
    FieldShownIff(par, blob, kind, x, off);
    if kind <= TYPE_3 {
      FieldIff(blob, x, chunk, p, h, par.lengthbits);
      MaskedLater(blob, x, chunk, p, h, par.lengthbits);
      FieldIff(blob, x + par.lengthbits, chunk, p + par.lengthbits, h, 16);
    } else if kind == NONE {
      FieldIff(blob, x, chunk, p, h, 16);
    } else if kind == SELF {
      FieldIff(blob, x, chunk, p, h, par.selfbits);
    } else if kind == PARENT {
      FieldIff(blob, x, chunk, p, h, par.parentbits);
    }
  }
}
