/** Building the checkpoints: one traversal of pass 1 to find where it ends, then pass 1 again
    alongside pass 2, each reading the blob through a rolling chunk. */
module V5MapBuild {
  import opened Bits
  import opened BitstreamModule
  import opened HuffmanCodes
  import opened HuffmanDecoderModule
  import opened V5Map
  import opened V5MapFull
  import opened V5MapWindows
  import opened V5MapChunks
  import opened V5MapAgreement
  import opened V5MapLowRam
  import opened Crc16Module

  // ---- the stream

  /** Which reads of the file fail, counted from 0. */
  type ReadFaults = nat -> bool

  ghost predicate Faultless(fails: ReadFaults) {
    forall n :: !fails(n)
  }

  /** A bit stream over a blob of which only one chunk is held. */
  class BuildStream {
    const blob: seq<byte>
    const fails: ReadFaults
    var fetches: nat
    var windowOff: nat
    var bs: Bitstream

    ghost predicate Valid()
      reads this, bs
    {
      bs.Valid() && bs.data == ChunkAt(blob, windowOff)
    }

    /** The position in the blob, in bits. */
    ghost function Position(): nat
      reads this, bs
      requires Valid()
    {
      8 * windowOff + bs.Position()
    }

    constructor (blob: seq<byte>, fails: ReadFaults)
      ensures this.blob == blob && this.fails == fails && fresh(bs)
    {
      this.blob, this.fails, fetches, windowOff := blob, fails, 0, 0;
      bs := new Bitstream([]);
    }

    /** Fetches the chunk at a byte of the blob and skips to a bit of it. It fails exactly if there is
        something to read and the read fails. */
    method Fill(off: nat, skip: nat) returns (ok: bool)
      requires skip < 8
      modifies this`fetches, this`windowOff, this`bs
      ensures ok <==> !(ChunkAt(blob, off) != [] && fails(old(fetches)))
      ensures fetches == old(fetches) + if ChunkAt(blob, off) != [] then 1 else 0
      ensures ok ==> Valid() && windowOff == off && Position() == 8 * off + skip && fresh(bs) && bs.bits >= 0
      ensures !ok ==> windowOff == old(windowOff) && bs == old(bs)
    {
      var chunk := ChunkAt(blob, off);
      if |chunk| != 0 {
        var failed := fails(fetches);
        fetches := fetches + 1;
        if failed { return false; }
      }
      windowOff := off;
      bs := new Bitstream(chunk);
      if skip != 0 {
        var _ := bs.ReadNarrow(skip);
      }
      ok := true;
    }

    method PositionBits() returns (r: nat)
      requires Valid()
      ensures r == Position()
    {
      var p := bs.PositionBits();
      r := windowOff * 8 + p;
    }

    /** Makes room for the next hunk: refills the chunk from the current byte on when little of it
        is left, but not near the end of the blob. It fails exactly if it refills and the read fails. */
    method Ensure() returns (ok: bool)
      requires Valid()
      modifies this, bs
      ensures Valid() && Position() == old(Position()) && (bs == old(bs) || fresh(bs))
      ensures var next := NextOff(|blob|, old(windowOff), Position());
              && (ok <==> !(next != old(windowOff) && fails(old(fetches))))
              && fetches == old(fetches) + (if next != old(windowOff) then 1 else 0)
              && windowOff == if ok then next else old(windowOff)
      ensures old(bs.bits) >= 0 ==> bs.bits >= 0
    {
      var p := bs.PositionBits();
      var localByte := p / 8;
      var globalByte := windowOff + localByte;
      if localByte < |bs.data| && |bs.data| - localByte >= MARGIN { return true; }
      if globalByte + MARGIN >= |blob| { return true; }
      assert ChunkAt(blob, globalByte) != [];
      ok := Fill(globalByte, p % 8);
    }
  }

  /** A pass 1 stream, begun at byte o, stands before hunk k. */
  ghost predicate TypesAt(m: Source, s: BuildStream, o: nat, k: nat, lastcomp: nat, repcount: nat)
    reads s, s.bs
    requires 8 * o <= m.treeEnd
  {
    && s.Valid() && s.blob == m.blob && s.bs.bits >= 0
    && ChunkTypes(m, o, k) == TypeStream(s.windowOff, TypeState(s.Position(), lastcomp, repcount))
  }

  /** The pass 2 stream stands before hunk k. */
  ghost predicate FieldsAt(m: Source, s: BuildStream, k: nat, curoffset: nat, lastSelf: nat, lastParent: nat)
    reads s, s.bs
    requires m.par.unitbytes > 0
  {
    && s.Valid() && s.blob == m.blob
    && ChunkFields(m, k) == FieldStream(s.windowOff, FieldState(s.Position(), curoffset, lastSelf, lastParent))
  }

  /** Makes room and decodes the type of hunk k. */
  method TypeHunk(ghost m: Source, s: BuildStream, ghost o: nat, ghost k: nat,
                  decoder: HuffmanDecoder, lastcomp: nat, repcount: nat)
    returns (ok: bool, kind: nat, pending: nat)
    requires m.Valid() && TypeDecoder(decoder) && decoder.lowram && decoder.Lens() == m.lens && 8 * o <= m.treeEnd
    requires TypesAt(m, s, o, k, lastcomp, repcount) && lastcomp < 256
    modifies s, s.bs
    ensures s.Valid() && kind < 256 && (s.bs == old(s.bs) || fresh(s.bs))
    ensures ok ==> !ChunkStops(m.blob, ChunkTypes(m, o, k)) && TypesAt(m, s, o, k + 1, kind, pending)
    ensures Faultless(s.fails) && !ok ==> ChunkStops(m.blob, ChunkTypes(m, o, k))
  {
    hide NextType, CoveredNext, ChunkAt, NextOff;
    ghost var t := ChunkTypes(m, o, k);
    ok := s.Ensure();
    kind, pending := lastcomp, repcount;
    if !ok { return; }
    assert t.Local(|m.blob|) == TypeState(s.bs.Position(), lastcomp, repcount);
    var overflow: bool;
    overflow, kind, pending := ReadType(decoder, s.bs, lastcomp, repcount);
    ok := !overflow;
  }

  /** Makes room and reads the fields of hunk k. */
  method FieldHunk(ghost m: Source, par: Params, s: BuildStream, k: nat, kind: nat, cur: nat, self: nat, parent: nat)
    returns (ok: bool, e: Entry, curoffset: nat, lastSelf: nat, lastParent: nat)
    requires m.Valid() && m.par == par && FieldsAt(m, s, k, cur, self, parent) && kind == ChunkKind(m, k)
    modifies s, s.bs
    ensures s.Valid() && (s.bs == old(s.bs) || fresh(s.bs))
    ensures ok ==> e == ChunkEntry(m, k) && FieldsAt(m, s, k + 1, curoffset, lastSelf, lastParent)
    ensures Faultless(s.fails) ==> ok
  {
    hide NextEntry, ChunkAt, NextOff, ChunkKind;
    ghost var t := ChunkFields(m, k);
    e, curoffset, lastSelf, lastParent := Entry(0, 0, 0, 0), cur, self, parent;
    ok := s.Ensure();
    if !ok { return; }
    assert t.Local(|m.blob|) == FieldState(s.bs.Position(), cur, self, parent);
    e, curoffset, lastSelf, lastParent := ReadFields(par, s.bs, k, kind, cur, self, parent);
  }

  // ---- checkpoints

  /** The checkpoints below hunk h with their pass 1 part. */
  ghost predicate TypePoints(m: Source, cps: seq<Checkpoint>, h: nat) {
    && |cps| == CheckpointCount(h)
    && forall c :: 0 <= c < |cps| ==> cps[c].hunknum == STRIDE * c && cps[c].types == ChunkTypes(m, 0, STRIDE * c).s
  }

  lemma CountNext(h: nat)
    ensures h % STRIDE == 0 ==> CheckpointCount(h) == h / STRIDE && CheckpointCount(h + 1) == CheckpointCount(h) + 1
    ensures h % STRIDE != 0 ==> CheckpointCount(h + 1) == CheckpointCount(h)
  {
  }

  lemma CountMono(h: nat, n: nat)
    requires h <= n
    ensures CheckpointCount(h) <= CheckpointCount(n)
  {
  }

  lemma TypePointsNext(m: Source, cps: seq<Checkpoint>, h: nat, f: FieldState)
    requires TypePoints(m, cps, h)
    ensures h % STRIDE == 0 ==> TypePoints(m, cps + [Checkpoint(h, ChunkTypes(m, 0, h).s, f)], h + 1)
    ensures h % STRIDE != 0 ==> TypePoints(m, cps, h + 1)
  {
    hide ChunkTypes;
    CountNext(h);
  }

  /** What a checkpoint's pass 2 part holds until the second traversal fills it in. */
  const NO_FIELDS := FieldState(0, 0, 0, 0)

  lemma TypePointsNone(m: Source)
    ensures TypePoints(m, [], 0) && CheckpointCount(0) == 0
  {
  }

  /** The first traversal of pass 1: where it ends, and its state at every stride. */
  method TraverseTypes(ghost m: Source, par: Params, s: BuildStream, decoder: HuffmanDecoder)
    returns (ok: bool, cps: seq<Checkpoint>, endBit: nat)
    requires m.Valid() && m.par == par && TypeDecoder(decoder) && decoder.lowram && decoder.Lens() == m.lens
    requires TypesAt(m, s, 0, 0, 0, 0)
    modifies s, s.bs
    ensures ok ==> ChunkInside(m, 0, par.hunkcount) && TypePoints(m, cps, par.hunkcount) && endBit == ChunkEnd(m)
    ensures Faultless(s.fails) && ChunkInside(m, 0, par.hunkcount) ==> ok
  {
    hide ChunkTypes, ChunkStops, TypePoints, TypeDecoder, CheckpointCount;
    cps, endBit := [], 0;
    var lastcomp, repcount := 0, 0;
    var h := 0;
    TypePointsNone(m);
    while h < par.hunkcount
      invariant h <= par.hunkcount && lastcomp < 256 && (s.bs == old(s.bs) || fresh(s.bs))
      invariant TypeDecoder(decoder) && decoder.Lens() == m.lens
      invariant TypesAt(m, s, 0, h, lastcomp, repcount) && TypePoints(m, cps, h) && ChunkInside(m, 0, h)
    {
      TypePointsNext(m, cps, h, NO_FIELDS);
      if h % STRIDE == 0 {
        var p := s.PositionBits();
        cps := cps + [Checkpoint(h, TypeState(p, lastcomp, repcount), NO_FIELDS)];
      }
      ok, lastcomp, repcount := TypeHunk(m, s, 0, h, decoder, lastcomp, repcount);
      if !ok { return; }
      h := h + 1;
    }
    endBit := s.PositionBits();
    ok := true;
  }

  /** The checkpoints below hunk h are complete. */
  ghost predicate FieldPoints(m: Source, cps: seq<Checkpoint>, h: nat)
    requires m.par.unitbytes > 0
  {
    && CheckpointCount(h) <= |cps|
    && forall c :: 0 <= c < CheckpointCount(h) ==> cps[c].fields == ChunkFields(m, STRIDE * c).f
  }

  lemma FieldPointsNext(m: Source, cps: seq<Checkpoint>, h: nat, n: nat)
    requires m.par.unitbytes > 0 && h < n && FieldPoints(m, cps, h) && TypePoints(m, cps, n)
    ensures CheckpointCount(h) <= |cps|
    ensures h % STRIDE == 0 ==>
            && CheckpointCount(h) < |cps|
            && var cps' := cps[CheckpointCount(h) := cps[CheckpointCount(h)].(fields := ChunkFields(m, h).f)];
               FieldPoints(m, cps', h + 1) && TypePoints(m, cps', n)
    ensures h % STRIDE != 0 ==> FieldPoints(m, cps, h + 1)
  {
    hide ChunkTypes, ChunkFields;
    CountNext(h);
    CountMono(h + 1, n);
  }

  /** What the second traversal has computed before hunk h: checkpoints and checksum. */
  ghost predicate EntriesTo(m: Source, cps: seq<Checkpoint>, h: nat, crc: crc16)
    requires m.par.unitbytes > 0
  {
    && TypePoints(m, cps, m.par.hunkcount) && FieldPoints(m, cps, h)
    && crc == Crc(0xffff, ChunkMapBytes(m, h))
  }

  /** The second traversal: pass 1 again for the types, pass 2 for the fields, the checksum as the
      entries come by, and the pass 2 state at every stride. */
  method TraverseEntries(ghost m: Source, par: Params, mirror: BuildStream, pass2: BuildStream,
                         decoder: HuffmanDecoder, cps0: seq<Checkpoint>)
    returns (ok: bool, cps: seq<Checkpoint>, crc: crc16)
    requires m.Valid() && m.par == par && TypeDecoder(decoder) && decoder.lowram && decoder.Lens() == m.lens
    requires mirror != pass2 && mirror.bs != pass2.bs && TypePoints(m, cps0, par.hunkcount)
    requires TypesAt(m, mirror, m.treeEnd / 8, 0, 0, 0) && FieldsAt(m, pass2, 0, par.firstoffs, 0, 0)
    modifies mirror, mirror.bs, pass2, pass2.bs
    ensures ok ==> ChunkInside(m, m.treeEnd / 8, par.hunkcount) && EntriesTo(m, cps, par.hunkcount, crc)
    ensures Faultless(mirror.fails) && Faultless(pass2.fails) && ChunkInside(m, m.treeEnd / 8, par.hunkcount) ==> ok
  {
    hide ChunkTypes, ChunkStops, ChunkFields, EntriesTo, PointsTo, TypePoints, TypeDecoder, CheckpointCount, TypesAt, FieldsAt;
    ghost var o := m.treeEnd / 8;
    cps, crc := cps0, 0xffff;
    var lastcomp, repcount := 0, 0;
    var curoffset, lastSelf, lastParent := par.firstoffs, 0, 0;
    var count, h := 0, 0;
    NothingYet(m, cps);
    while h < par.hunkcount
      invariant h <= par.hunkcount && lastcomp < 256 && mirror.bs != pass2.bs && count == CheckpointCount(h)
      invariant mirror.bs == old(mirror.bs) || fresh(mirror.bs)
      invariant pass2.bs == old(pass2.bs) || fresh(pass2.bs)
      invariant TypeDecoder(decoder) && decoder.Lens() == m.lens
      invariant TypesAt(m, mirror, o, h, lastcomp, repcount) && FieldsAt(m, pass2, h, curoffset, lastSelf, lastParent)
      invariant ChunkInside(m, o, h) && EntriesTo(m, cps, h, crc)
    {
      cps, count := StorePoint(m, pass2, h, cps, count, curoffset, lastSelf, lastParent, crc);
      ok, lastcomp, repcount, curoffset, lastSelf, lastParent, crc :=
        EntryHunk(m, par, mirror, pass2, h, decoder, lastcomp, repcount, curoffset, lastSelf, lastParent, cps, crc);
      if !ok { return; }
      h := h + 1;
    }
    ok := true;
  }

  /** Completes the checkpoint at hunk h, if it has one. */
  method StorePoint(ghost m: Source, pass2: BuildStream, h: nat, cps0: seq<Checkpoint>, count0: nat,
                    curoffset: nat, lastSelf: nat, lastParent: nat, ghost crc: crc16)
    returns (cps: seq<Checkpoint>, count: nat)
    requires m.par.unitbytes > 0 && h < m.par.hunkcount && FieldsAt(m, pass2, h, curoffset, lastSelf, lastParent)
    requires EntriesTo(m, cps0, h, crc) && count0 == CheckpointCount(h)
    ensures PointsTo(m, cps, h, crc) && count == CheckpointCount(h + 1)
  {
    hide ChunkTypes, ChunkFields, EntriesTo, PointsTo, CheckpointCount;
    cps, count := cps0, count0;
    PointNext(m, cps, h, crc);
    if h % STRIDE == 0 {
      var p := pass2.PositionBits();
      cps := cps[count := cps[count].(fields := FieldState(p, curoffset, lastSelf, lastParent))];
      count := count + 1;
    }
  }

  lemma NothingYet(m: Source, cps: seq<Checkpoint>)
    requires m.par.unitbytes > 0 && TypePoints(m, cps, m.par.hunkcount)
    ensures EntriesTo(m, cps, 0, 0xffff) && CheckpointCount(0) == 0
  {
  }

  /** The checkpoints are complete up to hunk h and its checkpoint, if it has one; the checksum is not. */
  ghost predicate PointsTo(m: Source, cps: seq<Checkpoint>, h: nat, crc: crc16)
    requires m.par.unitbytes > 0
  {
    && TypePoints(m, cps, m.par.hunkcount) && FieldPoints(m, cps, h + 1)
    && crc == Crc(0xffff, ChunkMapBytes(m, h))
  }

  lemma PointNext(m: Source, cps: seq<Checkpoint>, h: nat, crc: crc16)
    requires m.par.unitbytes > 0 && h < m.par.hunkcount && EntriesTo(m, cps, h, crc)
    ensures CheckpointCount(h) <= |cps|
    ensures h % STRIDE == 0 ==>
            && CheckpointCount(h) < |cps| && CheckpointCount(h + 1) == CheckpointCount(h) + 1
            && PointsTo(m, cps[CheckpointCount(h) := cps[CheckpointCount(h)].(fields := ChunkFields(m, h).f)], h, crc)
    ensures h % STRIDE != 0 ==> CheckpointCount(h + 1) == CheckpointCount(h) && PointsTo(m, cps, h, crc)
  {
    hide ChunkTypes, ChunkFields, TypePoints, FieldPoints, Crc, ChunkMapBytes;
    CountNext(h);
    FieldPointsNext(m, cps, h, m.par.hunkcount);
  }

  lemma EntryNext(m: Source, cps: seq<Checkpoint>, h: nat, crc: crc16)
    requires m.par.unitbytes > 0 && PointsTo(m, cps, h, crc)
    ensures EntriesTo(m, cps, h + 1, Crc(crc, EntryBytes(ChunkEntry(m, h))))
  {
    hide TypePoints, FieldPoints, Crc, ChunkEntry, EntryBytes;
    CrcConcat(0xffff, ChunkMapBytes(m, h), EntryBytes(ChunkEntry(m, h)));
  }

  /** Both streams over hunk h, and its entry into the checksum. */
  method EntryHunk(ghost m: Source, par: Params, mirror: BuildStream, pass2: BuildStream, h: nat, decoder: HuffmanDecoder,
                   lastcomp0: nat, repcount0: nat, cur: nat, self: nat, parent: nat,
                   ghost cps: seq<Checkpoint>, crc0: crc16)
    returns (ok: bool, lastcomp: nat, repcount: nat, curoffset: nat, lastSelf: nat, lastParent: nat, crc: crc16)
    requires m.Valid() && m.par == par && TypeDecoder(decoder) && decoder.lowram && decoder.Lens() == m.lens
    requires mirror != pass2 && mirror.bs != pass2.bs && lastcomp0 < 256
    requires TypesAt(m, mirror, m.treeEnd / 8, h, lastcomp0, repcount0) && FieldsAt(m, pass2, h, cur, self, parent)
    requires PointsTo(m, cps, h, crc0)
    modifies mirror, mirror.bs, pass2, pass2.bs
    ensures mirror.bs != pass2.bs && lastcomp < 256
    ensures mirror.bs == old(mirror.bs) || fresh(mirror.bs)
    ensures pass2.bs == old(pass2.bs) || fresh(pass2.bs)
    ensures ok ==> !ChunkStops(m.blob, ChunkTypes(m, m.treeEnd / 8, h))
                   && TypesAt(m, mirror, m.treeEnd / 8, h + 1, lastcomp, repcount)
                   && FieldsAt(m, pass2, h + 1, curoffset, lastSelf, lastParent)
                   && EntriesTo(m, cps, h + 1, crc)
    ensures Faultless(mirror.fails) && Faultless(pass2.fails) && !ok ==>
            ChunkStops(m.blob, ChunkTypes(m, m.treeEnd / 8, h))
  {
    hide ChunkTypes, ChunkStops, ChunkFields, EntriesTo, PointsTo, EntryBytes, Crc, TypeDecoder, ChunkEntry;
    crc := crc0;
    curoffset, lastSelf, lastParent := cur, self, parent;
    ok, lastcomp, repcount := TypeHunk(m, mirror, m.treeEnd / 8, h, decoder, lastcomp0, repcount0);
    if !ok { return; }
    var e: Entry;
    ok, e, curoffset, lastSelf, lastParent := FieldHunk(m, par, pass2, h, lastcomp, cur, self, parent);
    if !ok { return; }
    EntryNext(m, cps, h, crc0);
    crc := Crc16Update(crc0, EntryBytes(e));
  }

  // ---- the tree in the first chunk

  lemma ReadBitsSame(d: seq<byte>, e: seq<byte>, p: nat, n: nat, limit: nat)
    requires Agree(d, e, 0, limit, 0, 0) && p + n <= limit
    ensures ReadBits(d, p, n) == ReadBits(e, p, n)
  {
    forall j | p <= j < p + n ensures BitAt(d, j) == BitAt(e, j - p + p) {
      assert BitAt(d, j) == BitAt(e, j - 0 + 0);
    }
    ReadBitsAgree(d, e, p, p, n);
  }

  lemma ReadItemSame(d: seq<byte>, e: seq<byte>, p: nat, n: nat, acc: seq<nat>, limit: nat)
    requires Agree(d, e, 0, limit, 0, 0) && p + 12 <= limit
    ensures ReadItem(d, p, n, 4, acc) == ReadItem(e, p, n, 4, acc)
    ensures ReadItem(d, p, n, 4, acc).Some? ==> ReadItem(d, p, n, 4, acc).value.pos <= p + 12
  {
    hide ReadBits;
    ReadBitsSame(d, e, p, 4, limit);
    ReadBitsSame(d, e, p + 4, 4, limit);
    ReadBitsSame(d, e, p + 8, 4, limit);
  }

  /** A tree takes at most 12 bits a symbol, and is read from those bits alone. */
  lemma {:induction false} ReadLensSame(d: seq<byte>, e: seq<byte>, p: nat, n: nat, acc: seq<nat>, limit: nat)
    requires Agree(d, e, 0, limit, 0, 0) && |acc| <= n && p + 12 * (n - |acc|) <= limit
    ensures ReadLens(d, p, n, 4, acc) == ReadLens(e, p, n, 4, acc)
    ensures ReadLens(d, p, n, 4, acc).Some? ==> ReadLens(d, p, n, 4, acc).value.pos <= limit
    decreases n - |acc|
  {
    hide ReadItem;
    if |acc| < n {
      ReadItemSame(d, e, p, n, acc, limit);
      var item := ReadItem(d, p, n, 4, acc);
      if item.Some? {
        ReadItemLonger(d, p, n, acc);
        ReadLensSame(d, e, item.value.pos, n, item.value.lens, limit);
      }
    }
  }

  lemma ReadItemLonger(d: seq<byte>, p: nat, n: nat, acc: seq<nat>)
    requires |acc| < n && ReadItem(d, p, n, 4, acc).Some?
    ensures |acc| < |ReadItem(d, p, n, 4, acc).value.lens| <= n
    ensures ReadItem(d, p, n, 4, acc).value.pos <= p + 12 * (|ReadItem(d, p, n, 4, acc).value.lens| - |acc|)
  {
  }

  /** The first chunk always holds the whole tree. */
  lemma ImportFromChunk(blob: seq<byte>)
    ensures ImportResult(ChunkAt(blob, 0), 0, NUMCODES, MAXBITS) == ImportResult(blob, 0, NUMCODES, MAXBITS)
    ensures ReadLens(ChunkAt(blob, 0), 0, NUMCODES, TreeWidth(MAXBITS), [])
         == ReadLens(blob, 0, NUMCODES, TreeWidth(MAXBITS), [])
  {
    hide ReadLens, Accepted;
    if |blob| <= CHUNK {
      assert ChunkAt(blob, 0) == blob;
    } else {
      var chunk := ChunkAt(blob, 0);
      CutAgrees(blob, 0, CHUNK, 192);
      assert Agree(blob, chunk, 0, 192, 0, 0);
      ReadLensSame(blob, chunk, 0, NUMCODES, [], 192);
    }
  }

  // ---- the whole build

  lemma PointsComplete(m: Source, cps: seq<Checkpoint>, crc: crc16)
    requires m.par.unitbytes > 0 && EntriesTo(m, cps, m.par.hunkcount, crc)
    ensures PointsOf(m, cps)
  {
    hide ChunkTypes, ChunkFields;
  }

  ghost predicate PointsOf(m: Source, cps: seq<Checkpoint>)
    requires m.par.unitbytes > 0
  {
    |cps| == CheckpointCount(m.par.hunkcount) && forall c :: 0 <= c < |cps| ==> cps[c] == ChunkPoint(m, c)
  }

  /** Opens the first stream and reads the tree from it. */
  method OpenTypes(blob: seq<byte>, fails: ReadFaults)
    returns (ok: bool, decoder: HuffmanDecoder, pass1: BuildStream)
    ensures ok ==> ImportResult(blob, 0, NUMCODES, MAXBITS) == NoError
    ensures Faultless(fails) && ImportResult(blob, 0, NUMCODES, MAXBITS) == NoError ==> ok
    ensures fresh(pass1) && fresh(pass1.bs) && pass1.blob == blob && pass1.fails == fails
    ensures ok ==>
            && pass1.Valid() && TypeDecoder(decoder) && decoder.lowram && pass1.bs.bits >= 0 && pass1.windowOff == 0
            && ReadLens(blob, 0, NUMCODES, TreeWidth(MAXBITS), []) == Some(Tree(decoder.Lens(), pass1.Position()))
  {
    hide ReadLens, Accepted, ChunkAt, ImportResult, HuffmanDecoder.Built, Bitstream.Valid, Bitstream.Position;
    ImportFromChunk(blob);
    decoder := new HuffmanDecoder(NUMCODES, MAXBITS, true);
    pass1 := new BuildStream(blob, fails);
    ok := pass1.Fill(0, 0);
    if !ok { return; }
    assert pass1.bs.Position() == 0;
    var err := decoder.ImportTreeRle(pass1.bs);
    ok := err == NoError;
  }

  /** The second traversal, on streams of its own. */
  method SecondTraversal(ghost m: Source, par: Params, blob: seq<byte>, decoder: HuffmanDecoder,
                         symbolsStart: nat, endBit: nat, cps0: seq<Checkpoint>, fails1: ReadFaults, fails2: ReadFaults)
    returns (ok: bool, cps: seq<Checkpoint>, crc: crc16)
    requires m.Valid() && m.par == par && TypeDecoder(decoder) && decoder.lowram && decoder.Lens() == m.lens
    requires m.blob == blob && symbolsStart == m.treeEnd && endBit == ChunkEnd(m) && TypePoints(m, cps0, par.hunkcount)
    ensures ok ==> ChunkInside(m, m.treeEnd / 8, par.hunkcount) && PointsOf(m, cps)
                   && crc == Crc(0xffff, ChunkMapBytes(m, par.hunkcount))
    ensures Faultless(fails1) && Faultless(fails2) && ChunkInside(m, m.treeEnd / 8, par.hunkcount) ==> ok
  {
    hide Crc, ChunkMapBytes, TypeDecoder, ChunkInside, TypePoints, FieldPoints, PointsOf, ChunkEnd, ChunkAt;
    cps, crc := cps0, 0xffff;
    var mirror := new BuildStream(blob, fails1);
    ok := mirror.Fill(symbolsStart / 8, symbolsStart % 8);
    if !ok { return; }
    var pass2 := new BuildStream(blob, fails2);
    ok := pass2.Fill(endBit / 8, endBit % 8);
    if !ok { return; }
    StreamsStart(m);
    ok, cps, crc := TraverseEntries(m, par, mirror, pass2, decoder, cps0);
    if ok { PointsComplete(m, cps, crc); }
  }

  lemma StreamsStart(m: Source)
    requires m.par.unitbytes > 0
    ensures ChunkTypes(m, m.treeEnd / 8, 0) == TypeStream(m.treeEnd / 8, TypeState(m.treeEnd, 0, 0))
    ensures ChunkFields(m, 0) == FieldStream(ChunkEnd(m) / 8, FieldState(ChunkEnd(m), m.par.firstoffs, 0, 0))
  {
  }

  /** Builds the checkpoint map. Its verdict is that of the chunked passes, unless a read fails; it is the
      verdict of decoding in full, and the map a valid lazy one, if every chunk tells its hunk. */
  method BuildMapCheckpoints(blob: seq<byte>, par: Params, mapcrc: crc16, fails: nat -> ReadFaults)
    returns (ok: bool, lm: LowRamMap?)
    requires par.Valid()
    ensures ok ==> BuildAccepted(blob, par, mapcrc)
    ensures Faultless(fails(0)) && Faultless(fails(1)) && Faultless(fails(2)) && BuildAccepted(blob, par, mapcrc) ==> ok
    ensures ok ==> lm != null && lm.fails == fails(3) && lm.Untouched() && fresh(lm) && fresh(lm.pass1Window) && fresh(lm.pass2Window)
    ensures ok ==> var m := SourceOf(blob, par);
                   && lm.m == m && lm.par == par && lm.blob == blob
                   && PointsOf(m, lm.checkpoints) && lm.pass1EndBitpos == ChunkEnd(m)
    ensures ImportResult(blob, 0, NUMCODES, MAXBITS) == NoError && BuildTold(SourceOf(blob, par)) ==>
            && (BuildAccepted(blob, par, mapcrc) <==> MapAccepted(blob, par, mapcrc))
            && (ok ==> lm.Valid())
  {
    hide BuildAccepted, MapAccepted, ImportResult, SourceOf, PointsOf, BuildTold, ChunkEnd, Faultless;
    lm := null;
    BuildToldSuffices(blob, par, mapcrc);
    var decoder, cps, endBit;
    ok, decoder, cps, endBit := BuildPoints(blob, par, mapcrc, fails);
    if !ok { return; }
    ghost var m := SourceOf(blob, par);
    lm := new LowRamMap(m, par, blob, decoder, cps, endBit, fails(3));
    if BuildTold(m) { BuiltWell(m, cps, mapcrc); }
  }

  /** The build up to the checkpoints and their decoder. */
  method BuildPoints(blob: seq<byte>, par: Params, mapcrc: crc16, fails: nat -> ReadFaults)
    returns (ok: bool, decoder: HuffmanDecoder, cps: seq<Checkpoint>, endBit: nat)
    requires par.Valid()
    ensures ok ==> ImportResult(blob, 0, NUMCODES, MAXBITS) == NoError && BuildAccepted(blob, par, mapcrc)
    ensures Faultless(fails(0)) && Faultless(fails(1)) && Faultless(fails(2)) && BuildAccepted(blob, par, mapcrc) ==> ok
    ensures ok ==> var m := SourceOf(blob, par);
                   && TypeDecoder(decoder) && decoder.lowram && decoder.Lens() == m.lens
                   && m.Valid() && m.blob == blob && m.par == par && m.treeEnd <= 8 * |blob|
                   && PointsOf(m, cps) && endBit == ChunkEnd(m) && ChunkInside(m, 0, par.hunkcount)
  {
    hide Crc, ChunkMapBytes, ReadLens, Accepted, TypePoints, ChunkInside, PointsOf, ChunkEnd, Faultless;
    cps, endBit := [], 0;
    var pass1;
    ok, decoder, pass1 := OpenTypes(blob, fails(0));
    if !ok { return; }
    var symbolsStart := pass1.PositionBits();
    ghost var m := SourceOf(blob, par);
    StartsAtTree(m, decoder, pass1);
    ok, cps, endBit := TraverseTypes(m, par, pass1, decoder);
    if !ok { return; }
    var crc;
    ok, cps, crc := SecondTraversal(m, par, blob, decoder, symbolsStart, endBit, cps, fails(1), fails(2));
    ok := ok && crc == mapcrc;
  }

  lemma BuildToldSuffices(blob: seq<byte>, par: Params, mapcrc: crc16)
    requires par.Valid()
    ensures ImportResult(blob, 0, NUMCODES, MAXBITS) == NoError && BuildTold(SourceOf(blob, par)) ==>
            (BuildAccepted(blob, par, mapcrc) <==> MapAccepted(blob, par, mapcrc))
  {
    hide BuildTold, BuildAgrees, BuildAccepted, MapAccepted, ReadLens, Accepted;
    if ImportResult(blob, 0, NUMCODES, MAXBITS) == NoError && BuildTold(SourceOf(blob, par)) {
      SourceFits(blob, par);
      BuildAgreesIff(SourceOf(blob, par));
      AgreementSuffices(blob, par, mapcrc);
    }
  }

  lemma SourceFits(blob: seq<byte>, par: Params)
    requires par.Valid() && ImportResult(blob, 0, NUMCODES, MAXBITS) == NoError
    ensures var m := SourceOf(blob, par); m.Valid() && m.treeEnd <= 8 * |m.blob| && m.blob == blob && m.par == par
  {
    hide ReadLens, Accepted;
  }

  /** A build that agrees has the full decoder's states as checkpoints. */
  lemma BuiltWell(m: Source, cps: seq<Checkpoint>, mapcrc: crc16)
    requires m.Valid() && m.treeEnd <= 8 * |m.blob| && BuildTold(m) && PointsOf(m, cps)
    requires ChunkInside(m, 0, m.par.hunkcount)
    ensures TypesInside(m, m.par.hunkcount) && ChunkEnd(m) == Types(m, m.par.hunkcount).pos
    ensures |cps| == CheckpointCount(m.par.hunkcount) && forall c :: 0 <= c < |cps| ==> cps[c] == CheckpointAt(m, c)
  {
    hide BuildTold, ChunkInside, TypesInside, ChunkPoint, CheckpointAt, TypesAgree, FieldsAgree, ChunkEnd;
    BuildAgreesIff(m);
    InsideSame(m, 0, m.par.hunkcount);
    PointSame(m, 0);
    forall c | 0 <= c < |cps| ensures cps[c] == CheckpointAt(m, c) { PointSame(m, c); }
  }

  /** After the tree, the first stream stands before hunk 0. */
  lemma StartsAtTree(m: Source, decoder: HuffmanDecoder, pass1: BuildStream)
    requires m.par.Valid() && pass1.Valid() && pass1.blob == m.blob
    requires ImportResult(m.blob, 0, NUMCODES, MAXBITS) == NoError && m == SourceOf(m.blob, m.par)
    requires TypeDecoder(decoder) && pass1.bs.bits >= 0 && pass1.windowOff == 0
    requires ReadLens(m.blob, 0, NUMCODES, TreeWidth(MAXBITS), []) == Some(Tree(decoder.Lens(), pass1.Position()))
    ensures m.Valid() && decoder.Lens() == m.lens && m.treeEnd == pass1.Position() <= 8 * |m.blob|
    ensures TypesAt(m, pass1, 0, 0, 0, 0)
  {
    hide ReadLens, Accepted;
  }
}
