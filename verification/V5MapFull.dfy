/** Decoding the whole version 5 map into memory, in two passes over one bit stream. */
module V5MapFull {
  import opened Bits
  import opened BitstreamModule
  import opened HuffmanCodes
  import opened HuffmanDecoderModule
  import opened V5Map
  import opened Crc16Module

  /** A decoder for the map's type code. */
  ghost predicate TypeDecoder(decoder: HuffmanDecoder)
    reads decoder, decoder.numbits, decoder.lookup
  {
    decoder.Built() && decoder.numcodes == NUMCODES && decoder.maxbits == MAXBITS
  }

  method ReadSymbol(decoder: HuffmanDecoder, bitbuf: Bitstream) returns (v: nat)
    requires TypeDecoder(decoder) && bitbuf.Valid()
    modifies bitbuf
    ensures bitbuf.Valid()
    ensures decoder.lowram || Covered(decoder.Lens(), MAXBITS, bitbuf.data, old(bitbuf.Position())) ==>
            && v == Sym(decoder.Lens(), bitbuf.data, old(bitbuf.Position()))
            && bitbuf.Position() == After(decoder.Lens(), bitbuf.data, old(bitbuf.Position()))
            && bitbuf.bits >= 0
  {
    v := decoder.DecodeOne(bitbuf);
  }

  /** The repeat count after a run symbol. */
  method ReadRun(decoder: HuffmanDecoder, bitbuf: Bitstream, val: nat) returns (count: nat)
    requires TypeDecoder(decoder) && bitbuf.Valid() && IsRun(val)
    modifies bitbuf
    ensures bitbuf.Valid()
    ensures decoder.lowram || RunCovered(decoder.Lens(), bitbuf.data, val, old(bitbuf.Position())) ==>
            && (count, bitbuf.Position()) == RunCount(decoder.Lens(), bitbuf.data, val, old(bitbuf.Position()))
            && bitbuf.bits >= 0
  {
    hide Symbol, Length, Covered;
    if val == RLE_SMALL {
      count := ReadSymbol(decoder, bitbuf);
      count := 2 + count;
    } else {
      var high := ReadSymbol(decoder, bitbuf);
      var low := ReadSymbol(decoder, bitbuf);
      count := 18 + high * 16 + low;
    }
  }

  lemma SymSmall(lens: seq<nat>, data: seq<byte>, p: nat)
    requires |lens| == NUMCODES
    ensures Sym(lens, data, p) < 256
  {
    LengthBound(lens, MAXBITS, data, p);
  }

  /** Pass 1 for one hunk: its type and the repeats still pending, or an overflow. */
  method ReadType(decoder: HuffmanDecoder, bitbuf: Bitstream, lastcomp: nat, repcount: nat)
    returns (overflow: bool, kind: nat, pending: nat)
    requires TypeDecoder(decoder) && bitbuf.Valid() && lastcomp < 256
    modifies bitbuf
    ensures bitbuf.Valid() && kind < 256
    ensures old(bitbuf.bits) >= 0 ==>
            var s := TypeState(old(bitbuf.Position()), lastcomp, repcount);
            && (overflow <==> Stops(s, |bitbuf.data|))
            && (!overflow && (decoder.lowram || CoveredNext(decoder.Lens(), bitbuf.data, s)) ==>
                  && TypeState(bitbuf.Position(), kind, pending) == NextType(decoder.Lens(), bitbuf.data, s)
                  && bitbuf.bits >= 0)
  {
    hide Symbol, Length, Covered, Bitstream.Valid, Bitstream.Position;
    overflow, kind, pending := false, lastcomp, 0;
    if repcount > 0 {
      pending := repcount - 1;
    } else {
      overflow := bitbuf.Overflow();
      if overflow { return; }
      SymSmall(decoder.Lens(), bitbuf.data, bitbuf.Position());
      var val := ReadSymbol(decoder, bitbuf);
      val := val % 256;
      if IsRun(val) {
        pending := ReadRun(decoder, bitbuf, val);
      } else {
        kind := val;
      }
    }
  }

  /** Pass 2 for one hunk. */
  method ReadFields(par: Params, bitbuf: Bitstream, hunk: nat, kind: nat, cur: nat, self: nat, parent: nat)
    returns (e: Entry, curoffset: nat, lastSelf: nat, lastParent: nat)
    requires par.Valid() && bitbuf.Valid()
    modifies bitbuf
    ensures bitbuf.Valid()
    ensures NextEntry(par, bitbuf.data, hunk, kind, FieldState(old(bitbuf.Position()), cur, self, parent))
         == (e, FieldState(bitbuf.Position(), curoffset, lastSelf, lastParent))
  {
    hide PeekValue, Bitstream.Valid, Bitstream.Position;
    curoffset, lastSelf, lastParent := cur, self, parent;
    var newKind, offset, length, crc := kind, curoffset, 0, 0;
    if kind <= TYPE_3 {
      length := bitbuf.Read(par.lengthbits);
      curoffset := (curoffset + length) % TWO64;
      crc := bitbuf.Read(16);
    } else if kind == NONE {
      length := par.hunkbytes;
      curoffset := (curoffset + length) % TWO64;
      crc := bitbuf.Read(16);
    } else if kind == SELF {
      offset := bitbuf.Read(par.selfbits);
      lastSelf := offset;
    } else if kind == PARENT {
      offset := bitbuf.Read(par.parentbits);
      lastParent := offset;
    } else if kind == SELF_1 || kind == SELF_0 {
      if kind == SELF_1 { lastSelf := (lastSelf + 1) % TWO32; }
      newKind, offset := SELF, lastSelf;
    } else if kind == PARENT_SELF {
      newKind, offset := PARENT, ParentUnit(par, hunk);
      lastParent := offset;
    } else if kind == PARENT_1 || kind == PARENT_0 {
      if kind == PARENT_1 { lastParent := (lastParent + par.hunkbytes / par.unitbytes) % TWO64; }
      newKind, offset := PARENT, lastParent;
    }
    e := Entry(newKind, length, offset, crc);
  }

  /** The map that a blob describes, once its tree has been read. */
  ghost function SourceOf(blob: seq<byte>, par: Params): Source
    requires ImportResult(blob, 0, NUMCODES, MAXBITS) == NoError
  {
    var t := ReadLens(blob, 0, NUMCODES, TreeWidth(MAXBITS), []);
    Source(blob, par, t.value.lens, t.value.pos)
  }

  /** The verdict on a map: the tree is good, pass 1 stays inside the blob, and the checksum over
      all entries agrees. */
  ghost predicate MapAccepted(blob: seq<byte>, par: Params, mapcrc: crc16)
    requires par.Valid()
  {
    && ImportResult(blob, 0, NUMCODES, MAXBITS) == NoError
    && var m := SourceOf(blob, par);
       && TypesInside(m, par.hunkcount)
       && Crc(0xffff, MapBytes(m, par.hunkcount)) == mapcrc
  }

  /** Writes the entry of hunk h. */
  method PutEntry(rawmap: array<byte>, h: nat, e: Entry)
    requires 12 * h + 12 <= rawmap.Length
    modifies rawmap
    ensures rawmap[..12 * h] == old(rawmap[..12 * h])
    ensures rawmap[12 * h..12 * h + 12] == EntryBytes(e)
    ensures rawmap[12 * h + 12..] == old(rawmap[12 * h + 12..])
  {
    var bytes := EntryBytes(e);
    var i := 0;
    while i < 12
      invariant i <= 12
      invariant rawmap[..12 * h] == old(rawmap[..12 * h])
      invariant rawmap[12 * h..12 * h + i] == bytes[..i]
      invariant rawmap[12 * h + 12..] == old(rawmap[12 * h + 12..])
    {
      rawmap[12 * h + i] := bytes[i];
      i := i + 1;
    }
  }

  /** The type bytes that pass 1 left for hunks h and up. */
  ghost predicate KindsFrom(m: Source, raw: seq<byte>, h: nat, n: nat) {
    12 * n <= |raw| && forall j: nat :: h <= j < n ==> raw[12 * j] == Kind(m, j)
  }

  /** Pass 1: the type of every hunk into the first byte of its entry. */
  method DecodeTypes(ghost m: Source, decoder: HuffmanDecoder, bitbuf: Bitstream, rawmap: array<byte>) returns (ok: bool)
    requires m.Valid() && rawmap.Length == 12 * m.par.hunkcount
    requires TypeDecoder(decoder) && decoder.Lens() == m.lens
    requires bitbuf.Valid() && bitbuf.bits >= 0 && bitbuf.data == m.blob && bitbuf.Position() == m.treeEnd
    modifies bitbuf, rawmap
    ensures bitbuf.Valid()
    ensures decoder.lowram || TypesCovered(m, m.par.hunkcount) ==>
            && ok == TypesInside(m, m.par.hunkcount)
            && (ok ==> KindsFrom(m, rawmap[..], 0, m.par.hunkcount)
                       && bitbuf.Position() == Types(m, m.par.hunkcount).pos)
  {
    hide NextType, Stops, Bitstream.Valid, Bitstream.Position;
    ghost var n := m.par.hunkcount;
    ghost var covered := decoder.lowram || TypesCovered(m, n);
    var hunks := rawmap.Length / 12;
    var lastcomp, repcount := 0, 0;
    var h := 0;
    while h < hunks
      invariant h <= n && bitbuf.Valid() && lastcomp < 256 && TypeDecoder(decoder) && decoder.Lens() == m.lens
      invariant covered ==> bitbuf.bits >= 0 && TypeState(bitbuf.Position(), lastcomp, repcount) == Types(m, h)
      invariant covered ==> TypesInside(m, h) && KindsFrom(m, rawmap[..], 0, h)
    {
      var overflow: bool;
      overflow, lastcomp, repcount := ReadType(decoder, bitbuf, lastcomp, repcount);
      if overflow { return false; }
      rawmap[12 * h] := lastcomp;
      h := h + 1;
    }
    return true;
  }

  /** Pass 2: turns the type bytes into whole entries. */
  method DecodeEntries(ghost m: Source, ghost good: bool, par: Params, bitbuf: Bitstream, rawmap: array<byte>)
    requires m.Valid() && m.par == par && rawmap.Length == 12 * par.hunkcount && bitbuf.Valid()
    requires good ==> KindsFrom(m, rawmap[..], 0, par.hunkcount)
                      && bitbuf.data == m.blob && bitbuf.Position() == Fields(m, 0).pos
    modifies bitbuf, rawmap
    ensures good ==> rawmap[..] == MapBytes(m, par.hunkcount)
  {
    hide NextEntry, Kind, EntryBytes, MapBytes;
    var curoffset, lastSelf, lastParent := par.firstoffs, 0, 0;
    var h := 0;
    while h < par.hunkcount
      invariant h <= par.hunkcount && bitbuf.Valid()
      invariant good ==> FieldState(bitbuf.Position(), curoffset, lastSelf, lastParent) == Fields(m, h)
      invariant good ==> EntriesBelow(m, rawmap[..], h)
    {
      ghost var before := rawmap[..];
      assert good ==> before[12 * h] == Kind(m, h);
      var e: Entry;
      e, curoffset, lastSelf, lastParent :=
        ReadFields(par, bitbuf, h, rawmap[12 * h], curoffset, lastSelf, lastParent);
      PutEntry(rawmap, h, e);
      if good {
        EntriesNext(m, before, rawmap[..], h);
      }
      h := h + 1;
    }
    assert rawmap[..12 * h] == rawmap[..];
  }

  /** Pass 2 has completed the entries below h; above, only their types are there. */
  ghost predicate EntriesBelow(m: Source, raw: seq<byte>, h: nat)
    requires m.par.unitbytes > 0
  {
    && 12 * h <= |raw| == 12 * m.par.hunkcount
    && raw[..12 * h] == MapBytes(m, h)
    && KindsFrom(m, raw, h, m.par.hunkcount)
  }

  lemma EntriesNext(m: Source, before: seq<byte>, after: seq<byte>, h: nat)
    requires m.Valid() && h < m.par.hunkcount && EntriesBelow(m, before, h) && |after| == |before|
    requires after[..12 * h] == before[..12 * h]
    requires after[12 * h..12 * h + 12] == EntryBytes(EntryOf(m, h))
    requires after[12 * h + 12..] == before[12 * h + 12..]
    ensures EntriesBelow(m, after, h + 1)
  {
    assert after[..12 * h + 12] == after[..12 * h] + after[12 * h..12 * h + 12];
    KindsKept(m, before, after, h, m.par.hunkcount);
  }

  lemma KindsKept(m: Source, before: seq<byte>, after: seq<byte>, h: nat, n: nat)
    requires |before| == |after| && 12 * h + 12 <= |before| && before[12 * h + 12..] == after[12 * h + 12..]
    requires KindsFrom(m, before, h, n)
    ensures KindsFrom(m, after, h + 1, n)
  {
    forall j: nat | h + 1 <= j < n ensures after[12 * j] == Kind(m, j) {
      assert before[12 * h + 12..][12 * j - (12 * h + 12)] == after[12 * h + 12..][12 * j - (12 * h + 12)];
      assert before[12 * j] == Kind(m, j);
    }
  }

  /** Decodes the whole map. Unless pass 1 meets a code that is not assigned, it succeeds exactly on
      accepted maps and then holds every entry. */
  method DecompressV5Map(blob: seq<byte>, par: Params, mapcrc: crc16) returns (ok: bool, rawmap: array<byte>)
    requires par.Valid()
    ensures ok ==> ImportResult(blob, 0, NUMCODES, MAXBITS) == NoError
    ensures ImportResult(blob, 0, NUMCODES, MAXBITS) == NoError
            && TypesCovered(SourceOf(blob, par), par.hunkcount) ==>
            && ok == MapAccepted(blob, par, mapcrc)
            && (ok ==> rawmap[..] == MapBytes(SourceOf(blob, par), par.hunkcount))
  {
    var bitbuf := new Bitstream(blob);
    var decoder := new HuffmanDecoder(NUMCODES, MAXBITS, false);
    rawmap := new byte[12 * par.hunkcount];
    var err := decoder.ImportTreeRle(bitbuf);
    if err != NoError { return false, rawmap; }
    ghost var m := SourceOf(blob, par);
    assert m.lens == decoder.Lens() && m.treeEnd == bitbuf.Position();
    ok := DecodeTypes(m, decoder, bitbuf, rawmap);
    if !ok { return false, rawmap; }
    DecodeEntries(m, TypesCovered(m, par.hunkcount), par, bitbuf, rawmap);
    var crc := Crc16Update(0xffff, rawmap[..]);
    ok := crc == mapcrc;
  }
}
