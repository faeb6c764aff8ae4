/** A map of one byte more than a chunk that decodes in full, and that the checkpoint builder refuses. */
module V5MapRefused {
  import opened Bits
  import opened HuffmanDecoderModule
  import opened V5Map
  import opened V5MapFull
  import opened V5MapChunks
  import opened V5MapAgreement
  import opened V5MapOneBit
  import opened Crc16Module

  const BYTES := CHUNK + 1

  /** The first hunk that needs a bit past the first chunk is the last. */
  const LATE := 8 * CHUNK + 1 - TREE_BITS

  function LateMap(): (m: Source)
    ensures m.par == Par(LATE + 1) && m.treeEnd == TREE_BITS && m.blob == Blob(BYTES) && m.lens == LENGTHS
  {
    Map(BYTES, LATE + 1)
  }

  /** The first chunk is never refilled: there is always enough left in it, or too little behind it. */
  lemma {:induction false} OffsetsOf(k: nat)
    ensures TypeOff(LateMap(), 0, k) == 0
  {
    hide Types, Blob, LENGTHS;
    if k > 0 { OffsetsOf(k - 1); }
  }

  lemma ToldBelow(k: nat)
    requires k < LATE
    ensures TypeTold(LateMap(), 0, k)
  {
    hide Types, TypeOff, Blob, BitAt, LENGTHS;
    OffsetsOf(k);
    TypesOf(BYTES, LATE + 1, k);
    TypesOf(BYTES, LATE + 1, k + 1);
    TypesNext(LateMap(), k);
    BlobBit(BYTES, TREE_BITS + k);
  }

  /** The chunk ends before the last hunk, the blob does not. */
  lemma LateStops()
    ensures ChunkStops(Blob(BYTES), ChunkTypes(LateMap(), 0, LATE)) && !ChunkInside(LateMap(), 0, LATE + 1)
  {
    hide Types, TypeOff, TypeTold, TypesSame, TypesAgree, Blob, LENGTHS, ChunkTypes, NextType;
    MapValid(BYTES, LATE + 1);
    forall k: nat | k < LATE ensures TypeTold(LateMap(), 0, k) { ToldBelow(k); }
    TypesAgreeIff(LateMap(), 0, LATE);
    TypesOf(BYTES, LATE + 1, LATE);
    OffsetsOf(LATE);
    AgreeAt(LATE);
    ChunkIsFull();
  }

  lemma AgreeAt(k: nat)
    requires TypesAgree(LateMap(), 0, k)
    ensures ChunkTypes(LateMap(), 0, k).s == Types(LateMap(), k) && ChunkTypes(LateMap(), 0, k).Off(BYTES) == TypeOff(LateMap(), 0, k)
  {
    hide Types, TypeOff, Blob, LENGTHS, NextType;
    OffSame(LateMap(), 0, k);
    assert TypesSame(LateMap(), 0, k);
  }

  lemma ChunkIsFull()
    ensures |ChunkAt(Blob(BYTES), 0)| == CHUNK
  {
  }

  /** A map that decoding in full accepts, and the checkpoint builder does not. */
  lemma RefusedMap() returns (blob: seq<byte>, par: Params, mapcrc: crc16)
    ensures par.Valid() && |blob| == 4097
    ensures MapAccepted(blob, par, mapcrc) && !BuildAccepted(blob, par, mapcrc)
  {
    hide ChunkInside, MapAccepted, MapBytes, Crc, ImportResult, Blob, LENGTHS, SourceOf;
    blob, par := Blob(BYTES), Par(LATE + 1);
    mapcrc := Crc(0xffff, MapBytes(LateMap(), LATE + 1));
    Imported(BYTES, LATE + 1);
    Accepts(BYTES, LATE + 1);
    LateStops();
  }
}
