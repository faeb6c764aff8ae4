/** Maps of any size whose one code is a single zero bit, so that pass 1 takes one bit for each hunk. */
module V5MapOneBit {
  import opened Bits
  import opened HuffmanCodes
  import opened HuffmanDecoderModule
  import opened HuffmanKraft
  import opened V5Map
  import opened V5MapFull
  import opened Crc16Module

  /** The only code is one bit, a zero, for the type that repeats the last self reference. */
  const LENGTHS: seq<nat> := Repeat(0, SELF_0) + [1] + Repeat(0, NUMCODES - SELF_0 - 1)

  /** The tree takes 68 bits, two of them ones; all other bits are zeros. */
  const TREE_BITS := 68

  function Blob(bytes: nat): (blob: seq<byte>)
    requires bytes >= 9
    ensures |blob| == bytes
  {
    [0, 0, 0, 0, 0x01, 0x10] + seq(bytes - 6, _ => 0)
  }

  lemma BlobBit(bytes: nat, j: nat)
    requires bytes >= 9
    ensures BitAt(Blob(bytes), j) == if j == 39 || j == 43 then 1 else 0
  {
    if j / 8 == 4 {
      OneBit(1, 0, 7 - j % 8);
    } else if j / 8 == 5 {
      OneBit(16, 4, 7 - j % 8);
    } else {
      OneBit(0, 0, 7 - j % 8);
    }
  }

  lemma OneBit(v: nat, at: nat, k: nat)
    requires (v == 1 && at == 0) || (v == 16 && at == 4) || v == 0
    requires k < 8
    ensures Shr(v, k) % 2 == if v > 0 && k == at then 1 else 0
  {
    assert Shr(v, 1) == v / 2 && Shr(v, 2) == v / 4 && Shr(v, 3) == v / 8;
    assert Shr(v, 4) == v / 16 && Shr(v, 5) == v / 32 && Shr(v, 6) == v / 64 && Shr(v, 7) == v / 128;
  }

  // ---- the tree

  lemma Nibble(bytes: nat, p: nat)
    requires bytes >= 9 && p % 4 == 0
    ensures ReadBits(Blob(bytes), p, 4) == if p == 36 || p == 40 then 1 else 0
  {
    hide BitAt, Blob;
    BlobBit(bytes, p);
    BlobBit(bytes, p + 1);
    BlobBit(bytes, p + 2);
    BlobBit(bytes, p + 3);
    assert ReadBits(Blob(bytes), p, 1) == BitAt(Blob(bytes), p);
    assert ReadBits(Blob(bytes), p, 2) == 2 * ReadBits(Blob(bytes), p, 1) + BitAt(Blob(bytes), p + 1);
    assert ReadBits(Blob(bytes), p, 3) == 2 * ReadBits(Blob(bytes), p, 2) + BitAt(Blob(bytes), p + 2);
  }

  /** The lengths of the symbols below n. */
  function Prefix(n: nat): seq<nat>
    requires n <= NUMCODES
  {
    LENGTHS[..n]
  }

  lemma LengthAt(n: nat)
    requires n < NUMCODES
    ensures |LENGTHS| == NUMCODES && LENGTHS[n] == if n == SELF_0 then 1 else 0
    ensures |Prefix(n)| == n && Prefix(n + 1) == Prefix(n) + [LENGTHS[n]]
  {
  }

  /** Where the length of symbol n is stored. */
  function At(n: nat): nat {
    if n <= SELF_0 then 4 * n else 4 * n + 4
  }

  lemma ItemAt(bytes: nat, n: nat)
    requires bytes >= 9 && n < NUMCODES
    ensures |Prefix(n)| == n && ReadItem(Blob(bytes), At(n), NUMCODES, 4, Prefix(n)) == Some(Tree(Prefix(n + 1), At(n + 1)))
  {
    hide ReadBits, Blob, LENGTHS, Prefix;
    LengthAt(n);
    Nibble(bytes, At(n));
    Nibble(bytes, At(n) + 4);
  }

  lemma {:induction false} ReadBelow(bytes: nat, n: nat)
    requires bytes >= 9 && n <= NUMCODES
    ensures ReadLens(Blob(bytes), 0, NUMCODES, 4, []) == ReadLens(Blob(bytes), At(n), NUMCODES, 4, Prefix(n))
  {
    hide Blob, LENGTHS, ReadItem, At;
    if n > 0 {
      ReadBelow(bytes, n - 1);
      ItemAt(bytes, n - 1);
    } else {
      assert Prefix(0) == [] && At(0) == 0 by { AtStart(); }
    }
  }

  lemma AtStart()
    ensures At(0) == 0 && Prefix(0) == []
  {
  }

  lemma TreeRead(bytes: nat)
    requires bytes >= 9
    ensures ReadLens(Blob(bytes), 0, NUMCODES, 4, []) == Some(Tree(LENGTHS, TREE_BITS))
  {
    hide ReadItem, Blob;
    ReadBelow(bytes, NUMCODES);
    assert Prefix(NUMCODES) == LENGTHS;
  }

  // ---- the code

  lemma {:induction false} KraftBelow(n: nat)
    requires n <= NUMCODES
    ensures Kraft(Prefix(n), MAXBITS) == if n <= SELF_0 then 0 else Pow2(MAXBITS - 1)
  {
    hide LENGTHS, Pow2;
    if n > 0 {
      KraftBelow(n - 1);
      LengthAt(n - 1);
      assert Prefix(n)[..n - 1] == Prefix(n - 1);
    }
  }

  lemma CodeAccepted()
    ensures Accepted(LENGTHS, MAXBITS)
  {
    KraftBelow(NUMCODES);
    assert Prefix(NUMCODES) == LENGTHS;
    AcceptedIffKraft(LENGTHS, MAXBITS);
  }

  lemma OnlyCode(i: nat)
    ensures Coded(LENGTHS, MAXBITS, i) <==> i == SELF_0
  {
    if i < NUMCODES { LengthAt(i); } else { LengthAt(0); }
  }

  lemma CodeIsZero()
    ensures |LENGTHS| == NUMCODES && LENGTHS[SELF_0] == 1 && Code(LENGTHS, SELF_0) == 0
  {
    hide LENGTHS;
    LengthAt(SELF_0);
    forall i | 0 <= i < NUMCODES ensures LENGTHS[i] <= 1 && (i < SELF_0 ==> LENGTHS[i] == 0) { LengthAt(i); }
    StartPastMax(LENGTHS, 1, 1);
    NoneLonger(LENGTHS[..SELF_0], 1);
  }

  /** A zero bit decodes as the one symbol. */
  lemma ZeroDecodes(data: seq<byte>, p: nat)
    requires BitAt(data, p) == 0
    ensures Sym(LENGTHS, data, p) == SELF_0 && After(LENGTHS, data, p) == p + 1
  {
    hide LENGTHS, Code;
    CodeIsZero();
    OnlyCode(SELF_0);
    assert ReadBits(data, p, 1) == 0;
    assert CodeAt(LENGTHS, MAXBITS, data, p, SELF_0);
    FindMeaning(LENGTHS, MAXBITS, data, p, 0);
    OnlyCode(Find(LENGTHS, MAXBITS, data, p, 0));
  }

  // ---- the map

  /** Hunks of one byte, and fields of no bits. */
  function Par(hunks: nat): Params {
    Params(hunks, 1, 1, 0, 0, 0, 0)
  }

  function Map(bytes: nat, hunks: nat): (m: Source)
    requires bytes >= 9
    ensures m.par == Par(hunks) && m.treeEnd == TREE_BITS && m.blob == Blob(bytes) && m.lens == LENGTHS
  {
    Source(Blob(bytes), Par(hunks), LENGTHS, TREE_BITS)
  }

  lemma MapValid(bytes: nat, hunks: nat)
    requires bytes >= 9 && hunks < TWO32
    ensures Map(bytes, hunks).Valid()
  {
    hide LENGTHS, Accepted;
    CodeAccepted();
    LengthAt(0);
  }

  /** Every hunk takes one bit. */
  lemma {:induction false} TypesOf(bytes: nat, hunks: nat, k: nat)
    requires bytes >= 9
    ensures Types(Map(bytes, hunks), k) == TypeState(TREE_BITS + k, if k == 0 then 0 else SELF_0, 0)
  {
    hide Sym, After, LENGTHS, Blob;
    if k > 0 {
      TypesOf(bytes, hunks, k - 1);
      BlobBit(bytes, TREE_BITS + k - 1);
      ZeroDecodes(Blob(bytes), TREE_BITS + k - 1);
    }
  }

  /** No hunk takes a bit of pass 2. */
  lemma {:induction false} FieldsOf(bytes: nat, hunks: nat, k: nat)
    requires bytes >= 9
    ensures Fields(Map(bytes, hunks), k) == FieldState(TREE_BITS + hunks, 0, 0, 0)
  {
    hide Types, LENGTHS, Blob;
    TypesOf(bytes, hunks, hunks);
    if k > 0 {
      FieldsOf(bytes, hunks, k - 1);
      TypesOf(bytes, hunks, k);
    }
  }

  lemma Imported(bytes: nat, hunks: nat)
    requires bytes >= 9
    ensures ImportResult(Blob(bytes), 0, NUMCODES, MAXBITS) == NoError && SourceOf(Blob(bytes), Par(hunks)) == Map(bytes, hunks)
  {
    hide ReadLens, Blob, LENGTHS, Accepted;
    assert TreeWidth(MAXBITS) == 4;
    TreeRead(bytes);
    CodeAccepted();
  }

  /** All types lie inside a blob that has a bit for each. */
  lemma InsideBlob(bytes: nat, hunks: nat)
    requires bytes >= 9 && TREE_BITS + hunks <= 8 * bytes
    ensures TypesInside(Map(bytes, hunks), hunks)
  {
    hide Types, Blob, LENGTHS;
    forall k: nat | k < hunks ensures !Stops(Types(Map(bytes, hunks), k), bytes) { TypesOf(bytes, hunks, k); }
  }

  /** The map is accepted with the checksum of its entries. */
  lemma Accepts(bytes: nat, hunks: nat)
    requires bytes >= 9 && hunks < TWO32 && TREE_BITS + hunks <= 8 * bytes
    ensures MapAccepted(Blob(bytes), Par(hunks), Crc(0xffff, MapBytes(Map(bytes, hunks), hunks)))
  {
    hide TypesInside, MapBytes, Crc, ImportResult, Blob, LENGTHS, SourceOf;
    Imported(bytes, hunks);
    InsideBlob(bytes, hunks);
  }
}
