/** Whole runs of the chunked passes against the passes over the whole blob: they agree on every hunk
    if and only if every hunk is shown by the chunk it is decoded from. */
module V5MapAgreement {
  import opened Bits
  import opened HuffmanCodes
  import opened HuffmanDecoderModule
  import opened V5Map
  import opened V5MapFull
  import opened V5MapWindows
  import opened V5MapChunks
  import opened V5MapGap
  import opened Crc16Module

  // ---- pass 1

  /** The chunk with which hunk k is decoded, as long as decoding goes as over the whole blob. */
  function TypeOff(m: Source, o: nat, k: nat): (off: nat)
    requires 8 * o <= m.treeEnd
    ensures 8 * off <= Types(m, k).pos && (o <= |m.blob| ==> off <= |m.blob|)
  {
    if k == 0 then NextOff(|m.blob|, o, m.treeEnd)
    else
      NextTypeGrows(m.lens, m.blob, Types(m, k - 1));
      NextOff(|m.blob|, TypeOff(m, o, k - 1), Types(m, k).pos)
  }

  /** The chunk shows the types of hunk k, and does not end before a symbol that the blob still holds. */
  ghost predicate TypeTold(m: Source, o: nat, k: nat)
    requires 8 * o <= m.treeEnd
  {
    var s, off := Types(m, k), TypeOff(m, o, k);
    && TypeShown(m.lens, m.blob, s, off)
    && !(s.repcount == 0 && 8 * (off + CHUNK) < s.pos <= 8 * |m.blob|)
  }

  predicate TypesSame(m: Source, o: nat, k: nat)
    requires 8 * o <= m.treeEnd
  {
    ChunkTypes(m, o, k).s == Types(m, k)
  }

  predicate StopsSame(m: Source, o: nat, k: nat)
    requires 8 * o <= m.treeEnd
  {
    ChunkStops(m.blob, ChunkTypes(m, o, k)) <==> Stops(Types(m, k), |m.blob|)
  }

  /** A pass 1 stream goes through the states of the full decoder, and stops where that does. */
  ghost predicate TypesAgree(m: Source, o: nat, n: nat)
    requires 8 * o <= m.treeEnd
  {
    && (forall k: nat :: k <= n ==> TypesSame(m, o, k))
    && (forall k: nat :: k < n ==> StopsSame(m, o, k))
  }

  ghost predicate TypesTold(m: Source, o: nat, n: nat)
    requires 8 * o <= m.treeEnd
  {
    forall k: nat :: k < n ==> TypeTold(m, o, k)
  }

  lemma {:induction false} OffSame(m: Source, o: nat, k: nat)
    requires 8 * o <= m.treeEnd && forall j: nat :: j <= k ==> TypesSame(m, o, j)
    ensures ChunkTypes(m, o, k).Off(|m.blob|) == TypeOff(m, o, k)
  {
    hide Types, NextType, ChunkAt;
    assert TypesSame(m, o, k);
    if k > 0 {
      OffSame(m, o, k - 1);
    } else {
      assert Types(m, 0).pos == m.treeEnd by { FirstTypes(m); }
    }
  }

  lemma FirstTypes(m: Source)
    ensures Types(m, 0) == TypeState(m.treeEnd, 0, 0)
  {
  }

  /** The chunk's overflow check errs exactly between the chunk's end and the blob's. */
  lemma StopsIff(blob: seq<byte>, t: TypeStream)
    requires t.Valid() && t.off <= |blob|
    ensures var off := t.Off(|blob|);
            (ChunkStops(blob, t) <==> Stops(t.s, |blob|))
            <==> !(t.s.repcount == 0 && 8 * (off + CHUNK) < t.s.pos <= 8 * |blob|)
  {
    var off := t.Off(|blob|);
    assert off <= |blob|;
    assert |ChunkAt(blob, off)| == ChunkLen(|blob|, off);
  }

  lemma {:induction false} ChunkOffInside(m: Source, o: nat, k: nat)
    requires 8 * o <= m.treeEnd && o <= |m.blob|
    ensures ChunkTypes(m, o, k).off <= |m.blob|
  {
    hide NextType, ChunkAt;
    if k > 0 { ChunkOffInside(m, o, k - 1); }
  }

  /** One hunk more agrees exactly if the chunk tells it. */
  lemma TypeStepIff(m: Source, o: nat, k: nat)
    requires m.Valid() && 8 * o <= m.treeEnd && o <= |m.blob| && TypesAgree(m, o, k)
    ensures TypesSame(m, o, k + 1) && StopsSame(m, o, k) <==> TypeTold(m, o, k)
  {
    hide Types, NextType, ChunkAt, ChunkStops, Stops, TypeShown, TypeOff, Accepted;
    var t, s, off := ChunkTypes(m, o, k), Types(m, k), TypeOff(m, o, k);
    OffSame(m, o, k);
    ChunkOffInside(m, o, k);
    assert TypesSame(m, o, k);
    StopsIff(m.blob, t);
    NextTypeIff(m.lens, m.blob, s, off);
    TypesNext(m, k);
    MovedSame(NextType(m.lens, ChunkAt(m.blob, off), s.(pos := s.pos - 8 * off)), Types(m, k + 1), 8 * off);
  }

  lemma TypesNext(m: Source, k: nat)
    ensures Types(m, k + 1) == NextType(m.lens, m.blob, Types(m, k))
  {
  }

  lemma MovedSame(u: TypeState, t: TypeState, d: nat)
    requires d <= t.pos
    ensures u.(pos := u.pos + d) == t <==> u == t.(pos := t.pos - d)
  {
  }

  /** A pass 1 stream agrees with the full decoder if and only if its chunks tell every hunk. */
  lemma {:induction false} TypesAgreeIff(m: Source, o: nat, n: nat)
    requires m.Valid() && 8 * o <= m.treeEnd && o <= |m.blob|
    ensures TypesAgree(m, o, n) <==> TypesTold(m, o, n)
  {
    hide TypesSame, StopsSame, TypeTold, Types;
    if n == 0 {
      assert TypesSame(m, o, 0) by { FirstSame(m, o); }
    } else {
      TypesAgreeIff(m, o, n - 1);
      if TypesAgree(m, o, n - 1) { TypeStepIff(m, o, n - 1); }
      TypesAgreeParts(m, o, n);
    }
  }

  lemma FirstSame(m: Source, o: nat)
    requires 8 * o <= m.treeEnd
    ensures TypesSame(m, o, 0)
  {
  }

  lemma TypesAgreeParts(m: Source, o: nat, n: nat)
    requires 8 * o <= m.treeEnd && n > 0
    ensures TypesAgree(m, o, n) <==> TypesAgree(m, o, n - 1) && TypesSame(m, o, n) && StopsSame(m, o, n - 1)
    ensures TypesTold(m, o, n) <==> TypesTold(m, o, n - 1) && TypeTold(m, o, n - 1)
  {
    hide TypesSame, StopsSame, TypeTold;
  }

  // ---- pass 2

  function FieldOff(m: Source, k: nat): (off: nat)
    requires m.par.unitbytes > 0
    ensures 8 * off <= Fields(m, k).pos
  {
    if k == 0 then NextOff(|m.blob|, Fields(m, 0).pos / 8, Fields(m, 0).pos)
    else
      FieldsStep(m, k - 1);
      NextOff(|m.blob|, FieldOff(m, k - 1), Fields(m, k).pos)
  }

  /** The chunk shows the fields of hunk k. */
  ghost predicate FieldTold(m: Source, k: nat)
    requires m.par.unitbytes > 0
  {
    FieldShown(m.par, m.blob, Kind(m, k), Fields(m, k).pos, FieldOff(m, k))
  }

  predicate FieldsSame(m: Source, k: nat)
    requires m.par.unitbytes > 0
  {
    ChunkFields(m, k).f == Fields(m, k)
  }

  predicate EntrySame(m: Source, k: nat)
    requires m.par.unitbytes > 0
  {
    ChunkEntry(m, k) == EntryOf(m, k)
  }

  /** The pass 2 stream goes through the states of the full decoder, and yields its entries. */
  ghost predicate FieldsAgree(m: Source, n: nat)
    requires m.par.unitbytes > 0
  {
    && (forall k: nat :: k <= n ==> FieldsSame(m, k))
    && (forall k: nat :: k < n ==> EntrySame(m, k))
  }

  ghost predicate FieldsTold(m: Source, n: nat)
    requires m.par.unitbytes > 0
  {
    forall k: nat :: k < n ==> FieldTold(m, k)
  }

  /** Both pass 1 streams agree with the full decoder. */
  ghost predicate BothTypesAgree(m: Source) {
    TypesAgree(m, 0, m.par.hunkcount) && TypesAgree(m, m.treeEnd / 8, m.par.hunkcount)
  }

  lemma FieldsStart(m: Source)
    requires m.par.unitbytes > 0 && BothTypesAgree(m)
    ensures FieldsSame(m, 0) && ChunkFields(m, 0).off == Fields(m, 0).pos / 8
  {
    assert TypesSame(m, 0, m.par.hunkcount);
  }

  lemma {:induction false} FieldOffSame(m: Source, k: nat)
    requires m.par.unitbytes > 0 && BothTypesAgree(m) && forall j: nat :: j <= k ==> FieldsSame(m, j)
    ensures ChunkFields(m, k).Off(|m.blob|) == FieldOff(m, k)
  {
    hide Fields, NextEntry, ChunkAt, BothTypesAgree, ChunkKind;
    assert FieldsSame(m, k);
    if k > 0 {
      FieldOffSame(m, k - 1);
    } else {
      FieldsStart(m);
    }
  }

  lemma KindSame(m: Source, k: nat)
    requires BothTypesAgree(m) && k < m.par.hunkcount
    ensures ChunkKind(m, k) == Kind(m, k)
  {
    assert TypesSame(m, m.treeEnd / 8, k + 1);
  }

  /** One hunk more agrees exactly if the chunk tells it. */
  lemma FieldStepIff(m: Source, k: nat)
    requires m.Valid() && BothTypesAgree(m) && k < m.par.hunkcount && FieldsAgree(m, k)
    ensures FieldsSame(m, k + 1) && EntrySame(m, k) <==> FieldTold(m, k)
  {
    hide Fields, NextEntry, ChunkAt, FieldShown, FieldOff, BothTypesAgree, Kind, ChunkKind, EntryOf, Source.Valid;
    SourceSane(m);
    var f, off := Fields(m, k), FieldOff(m, k);
    FieldOffSame(m, k);
    KindSame(m, k);
    assert FieldsSame(m, k);
    NextEntryIff(m.par, m.blob, k, Kind(m, k), f, off);
    FieldsStep(m, k);
    var (e, g) := NextEntry(m.par, ChunkAt(m.blob, off), k, Kind(m, k), f.(pos := f.pos - 8 * off));
    FieldsMoved(g, Fields(m, k + 1), 8 * off);
  }

  lemma SourceSane(m: Source)
    requires m.Valid()
    ensures m.par.unitbytes > 0 && m.par.Valid()
  {
  }

  lemma FieldsMoved(u: FieldState, t: FieldState, d: nat)
    requires d <= t.pos
    ensures u.(pos := u.pos + d) == t <==> u == t.(pos := t.pos - d)
  {
  }

  /** Given the types, the pass 2 stream agrees if and only if its chunks tell every hunk. */
  lemma {:induction false} FieldsAgreeIff(m: Source, n: nat)
    requires m.Valid() && BothTypesAgree(m) && n <= m.par.hunkcount
    ensures FieldsAgree(m, n) <==> FieldsTold(m, n)
  {
    hide FieldsSame, EntrySame, FieldTold, BothTypesAgree, Fields;
    if n == 0 {
      FieldsStart(m);
    } else {
      FieldsAgreeIff(m, n - 1);
      if FieldsAgree(m, n - 1) { FieldStepIff(m, n - 1); }
      FieldsAgreeParts(m, n);
    }
  }

  lemma FieldsAgreeParts(m: Source, n: nat)
    requires m.par.unitbytes > 0 && n > 0
    ensures FieldsAgree(m, n) <==> FieldsAgree(m, n - 1) && FieldsSame(m, n) && EntrySame(m, n - 1)
    ensures FieldsTold(m, n) <==> FieldsTold(m, n - 1) && FieldTold(m, n - 1)
  {
    hide FieldsSame, EntrySame, FieldTold;
  }

  // ---- the build

  /** The chunked build decodes every hunk like the full decoder: states, stops and entries. */
  ghost predicate BuildAgrees(m: Source)
    requires m.par.unitbytes > 0
  {
    BothTypesAgree(m) && FieldsAgree(m, m.par.hunkcount)
  }

  /** Every chunk tells the hunk decoded from it, in all three streams. */
  ghost predicate BuildTold(m: Source)
    requires m.par.unitbytes > 0
  {
    && TypesTold(m, 0, m.par.hunkcount) && TypesTold(m, m.treeEnd / 8, m.par.hunkcount)
    && FieldsTold(m, m.par.hunkcount)
  }

  /** The chunked build decodes like the full decoder if and only if the bits that a chunk fails to show
      of a hunk are zeros, and no chunk ends before a symbol that the blob still holds. */
  lemma BuildAgreesIff(m: Source)
    requires m.Valid() && m.treeEnd <= 8 * |m.blob|
    ensures BuildAgrees(m) <==> BuildTold(m)
  {
    hide TypesAgree, TypesTold, FieldsAgree, FieldsTold;
    TypesAgreeIff(m, 0, m.par.hunkcount);
    TypesAgreeIff(m, m.treeEnd / 8, m.par.hunkcount);
    if BothTypesAgree(m) { FieldsAgreeIff(m, m.par.hunkcount); }
  }

  /** A hunk that is not told is decoded where the refill is skipped for being near the blob's end,
      with fewer bits left in the chunk than a hunk can take. */
  lemma UntoldType(m: Source, o: nat, k: nat)
    requires m.Valid() && 8 * o <= m.treeEnd && !TypeTold(m, o, k)
    ensures var off, pos := TypeOff(m, o, k), Types(m, k).pos;
            off + CHUNK < |m.blob| <= pos / 8 + MARGIN && 8 * (off + CHUNK) < pos + 24
  {
    hide NextType, Types;
    NextTypeShort(m.lens, m.blob, Types(m, k));
    LateOffset(m, o, k);
    var off, pos, end := TypeOff(m, o, k), Types(m, k).pos, NextType(m.lens, m.blob, Types(m, k)).pos;
    if ZerosPast(m.blob, off, pos, end) {
      assert 8 * (off + CHUNK) < pos <= 8 * |m.blob|;
    } else {
      LitBit(m.blob, off, pos, end);
    }
  }

  lemma LitBit(blob: seq<byte>, off: nat, lo: nat, hi: nat)
    requires !ZerosPast(blob, off, lo, hi)
    ensures 8 * (off + CHUNK) < hi && off + CHUNK < |blob|
  {
    var j :| lo <= j < hi && 8 * (off + CHUNK) <= j && BitAt(blob, j) != 0;
    assert j / 8 < |blob|;
  }

  /** A chunk with less than the margin left is only kept near the blob's end. */
  lemma LateOffset(m: Source, o: nat, k: nat)
    requires 8 * o <= m.treeEnd
    ensures var off, pos := TypeOff(m, o, k), Types(m, k).pos;
            off + CHUNK < |m.blob| && 8 * (off + CHUNK) < pos + 48 ==> |m.blob| <= pos / 8 + MARGIN
  {
    hide Types;
    FirstTypes(m);
  }

  lemma LateFieldOffset(m: Source, k: nat)
    requires m.par.unitbytes > 0
    ensures var off, pos := FieldOff(m, k), Fields(m, k).pos;
            off + CHUNK < |m.blob| && 8 * (off + CHUNK) < pos + 48 ==> |m.blob| <= pos / 8 + MARGIN
  {
    hide Fields;
  }

  lemma NextTypeShort(lens: seq<nat>, data: seq<byte>, s: TypeState)
    requires |lens| == NUMCODES
    ensures s.pos <= NextType(lens, data, s).pos <= s.pos + 24
  {
    hide Symbol, Length, Find;
    if s.repcount == 0 {
      var p := s.pos;
      LengthBound(lens, MAXBITS, data, p);
      LengthBound(lens, MAXBITS, data, After(lens, data, p));
      LengthBound(lens, MAXBITS, data, After(lens, data, After(lens, data, p)));
    }
  }

  lemma UntoldField(m: Source, k: nat)
    requires m.Valid() && !FieldTold(m, k)
    ensures var off, pos := FieldOff(m, k), Fields(m, k).pos;
            off + CHUNK < |m.blob| <= pos / 8 + MARGIN && 8 * (off + CHUNK) < pos + 48
  {
    hide NextType, NextEntry, Fields, Kind, FieldOff;
    var off, pos := FieldOff(m, k), Fields(m, k).pos;
    var j: nat :| Taken(m.par, Kind(m, k), pos, j) && 8 * (off + CHUNK) <= j && BitAt(m.blob, j) != 0;
    assert j / 8 < |m.blob| && pos <= j < pos + 48;
    LateFieldOffset(m, k);
  }

  /** A blob of one chunk is told in full. */
  lemma OneChunkTold(m: Source)
    requires m.Valid() && |m.blob| <= 4096
    ensures BuildTold(m)
  {
    hide TypeTold, FieldTold, Types, Fields;
    var n := m.par.hunkcount;
    forall k: nat | k < n ensures TypeTold(m, 0, k) && TypeTold(m, m.treeEnd / 8, k) && FieldTold(m, k) {
      if !TypeTold(m, 0, k) { UntoldType(m, 0, k); }
      if !TypeTold(m, m.treeEnd / 8, k) { UntoldType(m, m.treeEnd / 8, k); }
      if !FieldTold(m, k) { UntoldField(m, k); }
    }
  }

  // ---- what agreement gives

  lemma InsideSame(m: Source, o: nat, n: nat)
    requires 8 * o <= m.treeEnd && TypesAgree(m, o, n)
    ensures ChunkInside(m, o, n) <==> TypesInside(m, n)
  {
    hide Types, ChunkTypes, Stops, ChunkStops;
    forall k: nat | k < n ensures ChunkStops(m.blob, ChunkTypes(m, o, k)) <==> Stops(Types(m, k), |m.blob|) {
      assert StopsSame(m, o, k);
    }
  }

  lemma {:induction false} MapBytesSame(m: Source, n: nat)
    requires m.par.unitbytes > 0 && FieldsAgree(m, n)
    ensures ChunkMapBytes(m, n) == MapBytes(m, n)
  {
    hide EntryOf, ChunkEntry, EntryBytes;
    if n > 0 {
      MapBytesSame(m, n - 1);
      assert EntrySame(m, n - 1);
    }
  }

  /** A build that agrees gives the verdict of decoding in full, and the full decoder's states as
      checkpoints. */
  lemma AgreementSuffices(blob: seq<byte>, par: Params, mapcrc: crc16)
    requires par.Valid() && ImportResult(blob, 0, NUMCODES, MAXBITS) == NoError && BuildAgrees(SourceOf(blob, par))
    ensures BuildAccepted(blob, par, mapcrc) <==> MapAccepted(blob, par, mapcrc)
  {
    hide Crc, TypesAgree, FieldsAgree, TypesInside, ChunkInside, MapBytes, ChunkMapBytes, ReadLens, Accepted;
    var m := SourceOf(blob, par);
    InsideSame(m, 0, par.hunkcount);
    InsideSame(m, m.treeEnd / 8, par.hunkcount);
    MapBytesSame(m, par.hunkcount);
  }

  /** No sound stop is missed, and no other made. */
  ghost predicate StopsSound(m: Source)
    requires m.par.unitbytes > 0
  {
    var n := m.par.hunkcount;
    TypesInside(m, n) <==> ChunkInside(m, 0, n) && ChunkInside(m, m.treeEnd / 8, n)
  }

  /** A remark: the verdicts compared part by part. They are the same for every stored checksum, if and only
      if both run to the end of pass 1 or neither does, and the checksums over their entries are then equal. */
  lemma VerdictSameIff(blob: seq<byte>, par: Params)
    requires par.Valid() && ImportResult(blob, 0, NUMCODES, MAXBITS) == NoError
    ensures (forall mapcrc :: BuildAccepted(blob, par, mapcrc) <==> MapAccepted(blob, par, mapcrc)) <==>
            var m := SourceOf(blob, par);
            && StopsSound(m)
            && (TypesInside(m, par.hunkcount) ==>
                  Crc(0xffff, ChunkMapBytes(m, par.hunkcount)) == Crc(0xffff, MapBytes(m, par.hunkcount)))
  {
    hide Crc, TypesInside, ChunkInside, MapBytes, ChunkMapBytes, ReadLens, Accepted, ImportResult;
    var m := SourceOf(blob, par);
    var a, b := Crc(0xffff, MapBytes(m, par.hunkcount)), Crc(0xffff, ChunkMapBytes(m, par.hunkcount));
    if forall mapcrc :: BuildAccepted(blob, par, mapcrc) <==> MapAccepted(blob, par, mapcrc) {
      assert BuildAccepted(blob, par, a) <==> MapAccepted(blob, par, a);
      assert BuildAccepted(blob, par, b) <==> MapAccepted(blob, par, b);
    }
  }

  lemma PointSame(m: Source, c: nat)
    requires m.par.unitbytes > 0 && BuildAgrees(m) && STRIDE * c <= m.par.hunkcount
    ensures ChunkPoint(m, c) == CheckpointAt(m, c) && ChunkEnd(m) == Types(m, m.par.hunkcount).pos
  {
    assert TypesSame(m, 0, STRIDE * c) && TypesSame(m, 0, m.par.hunkcount);
    assert FieldsSame(m, STRIDE * c);
  }
}
