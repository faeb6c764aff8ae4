/** Both passes over the map as the checkpoint builder runs them: through a rolling chunk of the blob,
    past whose end a stream reads zeros. */
module V5MapChunks {
  import opened Bits
  import opened HuffmanDecoderModule
  import opened V5Map
  import opened V5MapFull
  import opened V5MapWindows
  import opened Crc16Module

  const CHUNK := 4096
  const MARGIN := 16

  /** The chunk at byte off of the blob. */
  function ChunkAt(blob: seq<byte>, off: nat): seq<byte> {
    Cut(blob, off, off + CHUNK)
  }

  function ChunkLen(bytes: nat, off: nat): nat {
    if off + CHUNK <= bytes then CHUNK else if off <= bytes then bytes - off else 0
  }

  /** The chunk in use after making room at bit pos, when it started at byte off. */
  function NextOff(bytes: nat, off: nat, pos: nat): (next: nat)
    requires 8 * off <= pos
    ensures off <= next && 8 * next <= pos && (off <= bytes ==> next <= bytes)
  {
    var local, valid := pos / 8 - off, ChunkLen(bytes, off);
    if local < valid && valid - local >= MARGIN then off
    else if pos / 8 + MARGIN >= bytes then off
    else pos / 8
  }

  /** A chunk is given up exactly when it ends within 16 bytes and the blob does not; so there are 16 bytes ahead, or the
      end of the blob is. */
  lemma RoomMade(bytes: nat, off: nat, pos: nat)
    requires 8 * off <= pos && off <= bytes
    ensures var next, here := NextOff(bytes, off, pos), pos / 8;
            && next == (if off + 4096 < here + 16 < bytes then here else off)
            && (here + 16 <= next + 4096 || bytes <= here + 16)
  {
  }

  // ---- pass 1

  /** A pass 1 stream between two hunks: its chunk, and the state it has decoded. */
  datatype TypeStream = TypeStream(off: nat, s: TypeState)
  {
    predicate Valid() { 8 * off <= s.pos }

    /** The chunk with which the next hunk is decoded. */
    function Off(bytes: nat): (next: nat)
      requires Valid()
      ensures 8 * next <= s.pos && (off <= bytes ==> next <= bytes)
    {
      NextOff(bytes, off, s.pos)
    }

    /** The state as the stream over that chunk sees it. */
    function Local(bytes: nat): TypeState
      requires Valid()
    {
      s.(pos := s.pos - 8 * Off(bytes))
    }
  }

  function ChunkType(lens: seq<nat>, blob: seq<byte>, t: TypeStream): (next: TypeStream)
    requires t.Valid()
    ensures next.Valid() && next.off == t.Off(|blob|)
  {
    var off := t.Off(|blob|);
    var s := NextType(lens, ChunkAt(blob, off), t.Local(|blob|));
    TypeStream(off, s.(pos := s.pos + 8 * off))
  }

  /** The overflow check of the next hunk, against the chunk. */
  predicate ChunkStops(blob: seq<byte>, t: TypeStream)
    requires t.Valid()
  {
    Stops(t.Local(|blob|), |ChunkAt(blob, t.Off(|blob|))|)
  }

  /** A pass 1 stream that began with the chunk at byte o, before hunk k. */
  function ChunkTypes(m: Source, o: nat, k: nat): (t: TypeStream)
    requires 8 * o <= m.treeEnd
    ensures t.Valid()
  {
    if k == 0 then TypeStream(o, TypeState(m.treeEnd, 0, 0)) else ChunkType(m.lens, m.blob, ChunkTypes(m, o, k - 1))
  }

  ghost predicate ChunkInside(m: Source, o: nat, n: nat)
    requires 8 * o <= m.treeEnd
  {
    forall k: nat :: k < n ==> !ChunkStops(m.blob, ChunkTypes(m, o, k))
  }

  // ---- pass 2, with types from a pass 1 stream of its own

  datatype FieldStream = FieldStream(off: nat, f: FieldState)
  {
    predicate Valid() { 8 * off <= f.pos }

    function Off(bytes: nat): (next: nat)
      requires Valid()
      ensures 8 * next <= f.pos
    {
      NextOff(bytes, off, f.pos)
    }

    function Local(bytes: nat): FieldState
      requires Valid()
    {
      f.(pos := f.pos - 8 * Off(bytes))
    }
  }

  function ChunkField(par: Params, blob: seq<byte>, hunk: nat, kind: nat, t: FieldStream): (r: (Entry, FieldStream))
    requires par.unitbytes > 0 && t.Valid()
    ensures r.1.Valid() && r.1.off == t.Off(|blob|)
  {
    var off := t.Off(|blob|);
    var (e, f) := NextEntry(par, ChunkAt(blob, off), hunk, kind, t.Local(|blob|));
    (e, FieldStream(off, f.(pos := f.pos + 8 * off)))
  }

  /** The second pass 1 stream begins with the byte the first symbol lies in. */
  function ChunkKind(m: Source, k: nat): nat {
    ChunkTypes(m, m.treeEnd / 8, k + 1).s.lastcomp
  }

  /** Where the first pass 1 stream ends. */
  function ChunkEnd(m: Source): nat {
    ChunkTypes(m, 0, m.par.hunkcount).s.pos
  }

  /** The pass 2 stream before hunk k. */
  function ChunkFields(m: Source, k: nat): (t: FieldStream)
    requires m.par.unitbytes > 0
    ensures t.Valid()
  {
    if k == 0 then FieldStream(ChunkEnd(m) / 8, FieldState(ChunkEnd(m), m.par.firstoffs, 0, 0))
    else ChunkField(m.par, m.blob, k - 1, ChunkKind(m, k - 1), ChunkFields(m, k - 1)).1
  }

  function ChunkEntry(m: Source, k: nat): Entry
    requires m.par.unitbytes > 0
  {
    ChunkField(m.par, m.blob, k, ChunkKind(m, k), ChunkFields(m, k)).0
  }

  function ChunkMapBytes(m: Source, n: nat): (s: seq<byte>)
    requires m.par.unitbytes > 0
  {
    if n == 0 then [] else ChunkMapBytes(m, n - 1) + EntryBytes(ChunkEntry(m, n - 1))
  }

  /** The checkpoint of bucket c. */
  function ChunkPoint(m: Source, c: nat): Checkpoint
    requires m.par.unitbytes > 0
  {
    Checkpoint(STRIDE * c, ChunkTypes(m, 0, STRIDE * c).s, ChunkFields(m, STRIDE * c).f)
  }

  /** The builder's verdict. */
  ghost predicate BuildAccepted(blob: seq<byte>, par: Params, mapcrc: crc16)
    requires par.Valid()
  {
    && ImportResult(blob, 0, NUMCODES, MAXBITS) == NoError
    && var m := SourceOf(blob, par);
       && ChunkInside(m, 0, par.hunkcount) && ChunkInside(m, m.treeEnd / 8, par.hunkcount)
       && Crc(0xffff, ChunkMapBytes(m, par.hunkcount)) == mapcrc
  }
}
