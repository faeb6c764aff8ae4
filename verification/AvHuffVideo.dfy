/** Decoding the rows of a losslessly coded picture, byte by byte from one bit stream. */
module AvHuffVideo {
  import opened Bits
  import opened BitstreamModule
  import opened HuffmanCodes
  import opened HuffmanDecoderModule
  import opened DeltaRle
  import opened ChdErrors

  ghost predicate PlaneDecoder(decoder: HuffmanDecoder)
    reads decoder, decoder.numbits, decoder.lookup
  {
    decoder.Built() && decoder.numcodes == NUMCODES && decoder.maxbits == MAXBITS
  }

  /** The symbol the next sample needs, if any, has a code. */
  ghost predicate StepCovered(lens: seq<nat>, data: seq<byte>, pos: nat, q: Plane) {
    q.rle == 0 ==> Covered(lens, MAXBITS, data, pos)
  }

  /** One sample. */
  method DecodeDelta(decoder: HuffmanDecoder, bitbuf: Bitstream, q: Plane) returns (next: Plane)
    requires PlaneDecoder(decoder) && bitbuf.Valid()
    modifies bitbuf
    ensures bitbuf.Valid()
    ensures old(bitbuf.bits) >= 0
            && (decoder.lowram || StepCovered(decoder.Lens(), bitbuf.data, old(bitbuf.Position()), q)) ==>
            && (bitbuf.Position(), next) == Step(decoder.Lens(), bitbuf.data, old(bitbuf.Position()), q)
            && bitbuf.bits >= 0
  {
    hide Symbol, Length, Covered, RunLength, Bitstream.Valid, Bitstream.Position;
    if q.rle != 0 {
      return q.(rle := q.rle - 1);
    }
    var data := decoder.DecodeOne(bitbuf);
    if data < RUN_0 {
      next := Plane((q.prev + data) % 256, 0);
    } else {
      next := Plane(q.prev, RunLength(data) - 1);
    }
  }

  /** Two pixels: Y, Cb, Y, Cr. */
  function Pair(t: Tables, data: seq<byte>, s: Picture): Picture {
    Tick(t, data, Tick(t, data, Tick(t, data, Tick(t, data, s, 0), 1), 0), 2)
  }

  function PairBytes(t: Tables, data: seq<byte>, s: Picture): seq<byte> {
    var a := Tick(t, data, s, 0);
    var b := Tick(t, data, a, 1);
    var c := Tick(t, data, b, 0);
    [a.y.prev, b.cb.prev, c.y.prev, Tick(t, data, c, 2).cr.prev]
  }

  ghost predicate TickCovered(t: Tables, data: seq<byte>, s: Picture, p: nat) {
    StepCovered(t.Get(p), data, s.pos, s.Get(p))
  }

  ghost predicate PairCovered(t: Tables, data: seq<byte>, s: Picture) {
    var a := Tick(t, data, s, 0);
    var b := Tick(t, data, a, 1);
    var c := Tick(t, data, b, 0);
    TickCovered(t, data, s, 0) && TickCovered(t, data, a, 1) && TickCovered(t, data, b, 0) && TickCovered(t, data, c, 2)
  }

  /** Every symbol of the first k pixel pairs of a row has a code. */
  ghost predicate RowCovered(t: Tables, data: seq<byte>, s: Picture, k: nat) {
    forall j: nat :: j < k ==> PairCovered(t, data, Ticks(t, data, s, 4 * j))
  }

  ghost predicate PictureCovered(t: Tables, data: seq<byte>, s: Picture, pairs: nat, rows: nat) {
    forall k: nat :: k < rows ==> RowCovered(t, data, Rows(t, data, s, 4 * pairs, k), pairs)
  }

  /** Pixel pairs are four ticks of the row. */
  lemma PairTicks(t: Tables, data: seq<byte>, s: Picture, k: nat)
    ensures var before := Ticks(t, data, s, 4 * k);
            && Ticks(t, data, s, 4 * (k + 1)) == Pair(t, data, before)
            && RowBytes(t, data, s, 4 * (k + 1)) == RowBytes(t, data, s, 4 * k) + PairBytes(t, data, before)
  {
    hide Tick;
    var n := 4 * k;
    assert PlaneOf(n) == 0 && PlaneOf(n + 1) == 1 && PlaneOf(n + 2) == 0 && PlaneOf(n + 3) == 2;
    var a := Tick(t, data, Ticks(t, data, s, n), 0);
    var b := Tick(t, data, a, 1);
    var c := Tick(t, data, b, 0);
    assert Ticks(t, data, s, n + 1) == a;
    assert Ticks(t, data, s, n + 2) == b;
    assert Ticks(t, data, s, n + 3) == c;
    assert RowBytes(t, data, s, n + 1) == RowBytes(t, data, s, n) + [a.y.prev];
    assert RowBytes(t, data, s, n + 2) == RowBytes(t, data, s, n + 1) + [b.cb.prev];
    assert RowBytes(t, data, s, n + 3) == RowBytes(t, data, s, n + 2) + [c.y.prev];
  }

  class AvHuffCodec {
    const ycontext: HuffmanDecoder
    const cbcontext: HuffmanDecoder
    const crcontext: HuffmanDecoder
    // the last sample and the pending run of every plane
    var y: Plane
    var cb: Plane
    var cr: Plane

    constructor (ycontext: HuffmanDecoder, cbcontext: HuffmanDecoder, crcontext: HuffmanDecoder)
      ensures this.ycontext == ycontext && this.cbcontext == cbcontext && this.crcontext == crcontext
    {
      this.ycontext, this.cbcontext, this.crcontext := ycontext, cbcontext, crcontext;
      y, cb, cr := Plane(0, 0), Plane(0, 0), Plane(0, 0);
    }

    /** The trees of all three planes have been imported. */
    ghost predicate Ready()
      reads ycontext, ycontext.numbits, ycontext.lookup, cbcontext, cbcontext.numbits, cbcontext.lookup,
            crcontext, crcontext.numbits, crcontext.lookup
    {
      PlaneDecoder(ycontext) && PlaneDecoder(cbcontext) && PlaneDecoder(crcontext)
    }

    ghost function Lens(): Tables
      reads ycontext.numbits, cbcontext.numbits, crcontext.numbits
    {
      Tables(ycontext.Lens(), cbcontext.Lens(), crcontext.Lens())
    }

    ghost predicate LowRam() {
      ycontext.lowram && cbcontext.lowram && crcontext.lowram
    }

    /** The destination is none of the decoders' tables. */
    ghost predicate Separate(dest: array<byte>) {
      && dest as object !in {ycontext.numbits as object, ycontext.lookup, cbcontext.numbits as object, cbcontext.lookup}
      && dest as object !in {crcontext.numbits as object, crcontext.lookup}
    }

    /** The decoders are three, for the codes of a picture, and share no table. */
    ghost predicate Distinct()
      reads ycontext, cbcontext, crcontext
    {
      && ycontext.Shape() && cbcontext.Shape() && crcontext.Shape()
      && ycontext.numcodes == cbcontext.numcodes == crcontext.numcodes == NUMCODES
      && ycontext.maxbits == cbcontext.maxbits == crcontext.maxbits == MAXBITS
      && ycontext != cbcontext && ycontext != crcontext && cbcontext != crcontext
      && {ycontext.numbits as object, ycontext.codes, ycontext.lookup}
         !! {cbcontext.numbits as object, cbcontext.codes, cbcontext.lookup}
      && {ycontext.numbits as object, ycontext.codes, ycontext.lookup}
         !! {crcontext.numbits as object, crcontext.codes, crcontext.lookup}
      && {cbcontext.numbits as object, cbcontext.codes, cbcontext.lookup}
         !! {crcontext.numbits as object, crcontext.codes, crcontext.lookup}
    }

    /** Imports the three trees of a picture. */
    method ImportTrees(bitbuf: Bitstream) returns (ok: bool)
      requires Distinct() && bitbuf.Valid() && bitbuf.bits >= 0 && bitbuf.Position() == 8
      modifies ycontext, ycontext.numbits, ycontext.codes, ycontext.lookup,
               cbcontext, cbcontext.numbits, cbcontext.codes, cbcontext.lookup,
               crcontext, crcontext.numbits, crcontext.codes, crcontext.lookup, bitbuf
      ensures bitbuf.Valid() && bitbuf.bits >= 0 && ok == TreesOf(bitbuf.data).Trees?
      ensures ok ==> Ready() && TreesOf(bitbuf.data) == Trees(Lens(), bitbuf.Position())
    {
      hide TreeAt, HuffmanDecoder.Built, Bitstream.Valid, Bitstream.Position;
      ok := ImportTree(ycontext, bitbuf);
      if !ok { return; }
      ok := ImportTree(cbcontext, bitbuf);
      if !ok { return; }
      ok := ImportTree(crcontext, bitbuf);
    }

    /** Decodes a losslessly coded picture: trees, rows, and the check that the stream ends with the data. */
    method DecodeVideoLossless(source: seq<byte>, width: nat, height: nat, dest: array<byte>, at: nat)
      returns (r: Outcome)
      requires Distinct() && Separate(dest) && dest as object !in {ycontext.codes as object, cbcontext.codes, crcontext.codes}
      requires RowStart(at, 2 * width, height) <= dest.Length
      modifies this, dest, ycontext, ycontext.numbits, ycontext.codes, ycontext.lookup,
               cbcontext, cbcontext.numbits, cbcontext.codes, cbcontext.lookup,
               crcontext, crcontext.numbits, crcontext.codes, crcontext.lookup
      ensures r == Ok || r == Failed(ChdError.InvalidData)
      ensures var trees := TreesOf(source);
              if trees.NoTrees? then r == Failed(ChdError.InvalidData)
              else
                LowRam() || PictureCovered(trees.tables, source,
                              Picture(trees.pos, Plane(0, 0), Plane(0, 0), Plane(0, 0)), width / 2, height) ==>
                Pictured(source, trees, width, height, dest[..], at, r == Ok)
      ensures OnlyRows(old(dest[..]), dest[..], at, 2 * width, 4 * (width / 2), height)
      ensures TreesOf(source).NoTrees? ==> dest[..] == old(dest[..])
    {
      hide TreesOf, RowsAt, PictureCovered, Rows, RowStart, OnlyRows, AvHuffCodec.Ready;
      UnchangedRows(dest[..], at, 2 * width, 4 * (width / 2), height);
      var bitbuf := new Bitstream(source);
      var _ := bitbuf.ReadNarrow(8);
      var ok := ImportTrees(bitbuf);
      if !ok { return Failed(ChdError.InvalidData); }
      ok := DecodeRows(bitbuf, width, height, dest, at);
      r := if ok then Ok else Failed(ChdError.InvalidData);
    }

    ghost function Now(bitbuf: Bitstream): Picture
      reads this, bitbuf
      requires bitbuf.Valid()
    {
      Picture(bitbuf.Position(), y, cb, cr)
    }

    /** Decodes two pixels. */
    method DecodePair(bitbuf: Bitstream) returns (r: seq<byte>)
      requires Ready() && bitbuf.Valid()
      modifies this, bitbuf
      ensures bitbuf.Valid() && |r| == 4
      ensures old(bitbuf.bits) >= 0 && (LowRam() || PairCovered(Lens(), bitbuf.data, old(Now(bitbuf)))) ==>
              && Now(bitbuf) == Pair(Lens(), bitbuf.data, old(Now(bitbuf)))
              && r == PairBytes(Lens(), bitbuf.data, old(Now(bitbuf)))
              && bitbuf.bits >= 0
    {
      hide Step, StepCovered, HuffmanDecoder.Built, Bitstream.Valid, Bitstream.Position;
      y := DecodeDelta(ycontext, bitbuf, y);
      var y0 := y.prev;
      cb := DecodeDelta(cbcontext, bitbuf, cb);
      y := DecodeDelta(ycontext, bitbuf, y);
      cr := DecodeDelta(crcontext, bitbuf, cr);
      r := [y0, cb.prev, y.prev, cr.prev];
    }

    /** Decodes two pixels to their place. */
    method PutPair(bitbuf: Bitstream, dest: array<byte>, at: nat) returns (r: seq<byte>)
      requires Ready() && bitbuf.Valid() && at + 4 <= dest.Length && Separate(dest)
      modifies this, bitbuf, dest
      ensures Ready() && bitbuf.Valid() && Lens() == old(Lens())
      ensures |r| == 4 && dest[..] == Patched(old(dest[..]), at, r)
      ensures old(bitbuf.bits) >= 0 && (LowRam() || PairCovered(Lens(), bitbuf.data, old(Now(bitbuf)))) ==>
              && Now(bitbuf) == Pair(Lens(), bitbuf.data, old(Now(bitbuf)))
              && r == PairBytes(Lens(), bitbuf.data, old(Now(bitbuf)))
              && bitbuf.bits >= 0
    {
      hide Bitstream.Valid, Bitstream.Position, AvHuffCodec.Ready, Patched, PairCovered, Pair, PairBytes;
      r := DecodePair(bitbuf);
      PutFour(dest, at, r);
    }

    /** Decodes one row of pixel pairs to its place. */
    method DecodeRow(bitbuf: Bitstream, pairs: nat, dest: array<byte>, at: nat)
      requires Ready() && bitbuf.Valid() && at + 4 * pairs <= dest.Length && Separate(dest)
      modifies this, bitbuf, dest
      ensures Ready() && bitbuf.Valid() && Lens() == old(Lens())
      ensures dest[..] == Patched(old(dest[..]), at, dest[at..at + 4 * pairs])
      ensures old(bitbuf.bits) >= 0 && (LowRam() || RowCovered(Lens(), bitbuf.data, old(Now(bitbuf)), pairs)) ==>
              RowDone(Lens(), bitbuf.data, old(Now(bitbuf)), pairs, bitbuf.bits, Now(bitbuf), dest[at..at + 4 * pairs])
    {
      hide Bitstream.Valid, Bitstream.Position, AvHuffCodec.Ready, Patched, RowDone, RowCovered, PairCovered, Pair, PairBytes, Ticks, RowBytes;
      ghost var t, s, before := Lens(), Now(bitbuf), dest[..];
      ghost var good := bitbuf.bits >= 0 && (LowRam() || RowCovered(t, bitbuf.data, s, pairs));
      ghost var bytes := [];
      if good {
        NoTicks(t, bitbuf.data, s, bitbuf.bits);
      }
      PatchedNothing(before, at);
      var dx := 0;
      while dx < pairs
        invariant dx <= pairs && Ready() && bitbuf.Valid() && Lens() == t
        invariant |bytes| == 4 * dx && dest[..] == Patched(before, at, bytes)
        invariant good ==> RowDone(t, bitbuf.data, s, dx, bitbuf.bits, Now(bitbuf), bytes)
      {
        ghost var bits, now := bitbuf.bits, Now(bitbuf);
        if good {
          RowBegun(t, bitbuf.data, s, dx, bits, now, bytes, pairs, LowRam());
        }
        var r := PutPair(bitbuf, dest, at + 4 * dx);
        if good {
          RowNext(t, bitbuf.data, s, dx, bits, now, bytes, bitbuf.bits, Now(bitbuf), r);
        }
        PatchedMore(before, at, bytes, r);
        bytes := bytes + r;
        dx := dx + 1;
      }
      PatchedAt(before, at, bytes);
    }

    /** Decodes row dy to its place; pending runs end with it. */
    method PutRow(bitbuf: Bitstream, width: nat, dest: array<byte>, at: nat, dy: nat,
                  ghost good: bool, ghost s: Picture)
      requires Ready() && bitbuf.Valid() && Separate(dest) && RowStart(at, 2 * width, dy) + 2 * width <= dest.Length
      requires good ==> (LowRam() || RowCovered(Lens(), bitbuf.data, Now(bitbuf), width / 2))
                        && RowsDone(Lens(), bitbuf.data, s, width, dest[..], at, dy, bitbuf.bits, Now(bitbuf))
      modifies this, bitbuf, dest
      ensures Ready() && bitbuf.Valid() && Lens() == old(Lens())
      ensures good ==> RowsDone(Lens(), bitbuf.data, s, width, dest[..], at, dy + 1, bitbuf.bits, Now(bitbuf))
      ensures var n, p := 4 * (width / 2), RowStart(at, 2 * width, dy); dest[..] == Patched(old(dest[..]), p, dest[p..p + n])
    {
      hide Bitstream.Valid, Bitstream.Position, AvHuffCodec.Ready, RowStart, Patched, RowDone, RowCovered, RowsAt, Ticks, RowBytes, Rows;
      ghost var before, now := dest[..], Now(bitbuf);
      DecodeRow(bitbuf, width / 2, dest, RowStart(at, 2 * width, dy));
      if good {
        RowsNext(Lens(), bitbuf.data, s, 4 * (width / 2), before, dest[..], at, 2 * width, dy, bitbuf.bits, now, Now(bitbuf));
      }
      y, cb, cr := y.(rle := 0), cb.(rle := 0), cr.(rle := 0);
    }

    /** Decodes a picture whose trees have been imported: every row holds its samples, pending runs
        end with their row, and the stream must end exactly where the data does. Nothing is written
        outside the rows. */
    method DecodeRows(bitbuf: Bitstream, width: nat, height: nat, dest: array<byte>, at: nat) returns (ok: bool)
      requires Ready() && bitbuf.Valid() && bitbuf.bits >= 0 && Separate(dest)
      requires RowStart(at, 2 * width, height) <= dest.Length
      modifies this, bitbuf, dest
      ensures var t, data := Lens(), bitbuf.data;
              var s := Picture(old(bitbuf.Position()), Plane(0, 0), Plane(0, 0), Plane(0, 0));
              var n := 4 * (width / 2);
              LowRam() || PictureCovered(t, data, s, width / 2, height) ==>
              && RowsAt(t, data, s, n, dest[..], at, 2 * width, height)
              && (ok <==> var end := Rows(t, data, s, n, height).pos; end <= 8 * |data| && (end + 7) / 8 == |data|)
      ensures OnlyRows(old(dest[..]), dest[..], at, 2 * width, 4 * (width / 2), height)
    {
      hide Bitstream.Valid, Bitstream.Position, AvHuffCodec.Ready, RowStart, RowsDone, RowCovered, PictureCovered, Rows, RowsAt, OnlyRows, Patched;
      ghost var before, n := dest[..], 4 * (width / 2);
      ghost var t, data := Lens(), bitbuf.data;
      ghost var s := Picture(bitbuf.Position(), Plane(0, 0), Plane(0, 0), Plane(0, 0));
      ghost var good := LowRam() || PictureCovered(t, data, s, width / 2, height);
      y, cb, cr := Plane(0, 0), Plane(0, 0), Plane(0, 0);
      NoRows(t, data, s, width, dest[..], at, bitbuf.bits);
      UnchangedRows(before, at, 2 * width, n, 0);
      var dy := 0;
      while dy < height
        invariant dy <= height && Ready() && bitbuf.Valid() && Lens() == t
        invariant good ==> RowsDone(t, data, s, width, dest[..], at, dy, bitbuf.bits, Now(bitbuf))
        invariant OnlyRows(before, dest[..], at, 2 * width, n, dy)
      {
        RowsApart(at, 2 * width, dy, height);
        if good {
          PictureRow(t, data, s, width, height, dy, LowRam(), dest[..], at, bitbuf.bits, Now(bitbuf));
        }
        ghost var above := dest[..];
        PutRow(bitbuf, width, dest, at, dy, good, s);
        ghost var p := RowStart(at, 2 * width, dy);
        OnlyRowsNext(before, above, at, 2 * width, n, dy, dest[p..p + n]);
        dy := dy + 1;
      }
      if good {
        RowsMeant(t, data, s, width, dest[..], at, height, bitbuf.bits, Now(bitbuf));
      }
      ok := EndsWithData(bitbuf);
    }
  }

  // ---- the picture with its trees

  /** The code lengths stored at p, and the byte boundary behind them; nothing, if they cannot be imported. */
  ghost function TreeAt(data: seq<byte>, p: nat): Option<Tree> {
    if ImportResult(data, p, NUMCODES, MAXBITS) != NoError then None
    else
      var t := ReadLens(data, p, NUMCODES, TreeWidth(MAXBITS), []).value;
      Some(Tree(t.lens, 8 * ((t.pos + 7) / 8)))
  }

  datatype Trees = NoTrees | Trees(tables: Tables, pos: nat)

  /** The three trees of a picture, behind the byte that tells lossless from lossy. */
  ghost function TreesOf(data: seq<byte>): Trees {
    var y := TreeAt(data, 8);
    if y.None? then NoTrees
    else
      var cb := TreeAt(data, y.value.pos);
      if cb.None? then NoTrees
      else
        var cr := TreeAt(data, cb.value.pos);
        if cr.None? then NoTrees
        else Trees(Tables(y.value.lens, cb.value.lens, cr.value.lens), cr.value.pos)
  }

  /** The outcome of decoding a picture, unless a sample needs a code that is not assigned. */
  ghost predicate Pictured(data: seq<byte>, trees: Trees, width: nat, height: nat, dest: seq<byte>, at: nat, ok: bool) {
    trees.Trees? ==>
      var s, n := Picture(trees.pos, Plane(0, 0), Plane(0, 0), Plane(0, 0)), 4 * (width / 2);
      && RowsAt(trees.tables, data, s, n, dest, at, 2 * width, height)
      && (ok <==> var end := Rows(trees.tables, data, s, n, height).pos;
                  end <= 8 * |data| && (end + 7) / 8 == |data|)
  }

  /** Imports one tree and moves to the byte behind it. */
  method ImportTree(decoder: HuffmanDecoder, bitbuf: Bitstream) returns (ok: bool)
    requires decoder.Shape() && decoder.numcodes == NUMCODES && decoder.maxbits == MAXBITS
    requires bitbuf.Valid() && bitbuf.bits >= 0
    modifies decoder`subtable, decoder.numbits, decoder.codes, decoder.lookup, bitbuf
    ensures bitbuf.Valid() && bitbuf.bits >= 0
    ensures var t := TreeAt(bitbuf.data, old(bitbuf.Position()));
            ok == t.Some? && (ok ==> PlaneDecoder(decoder) && t.value == Tree(decoder.Lens(), bitbuf.Position()))
  {
    hide ReadLens, ImportResult, HuffmanDecoder.Built, Bitstream.Valid, Bitstream.Position;
    var err := decoder.ImportTreeRle(bitbuf);
    if err != NoError { return false; }
    var _ := bitbuf.Flush();
    ok := true;
  }

  /** Whether the stream has been read exactly to the last byte of its data. */
  method EndsWithData(bitbuf: Bitstream) returns (ok: bool)
    requires bitbuf.Valid()
    modifies bitbuf
    ensures bitbuf.Valid()
    ensures old(bitbuf.bits) >= 0 ==>
            (ok <==> var end := old(bitbuf.Position()); end <= 8 * |bitbuf.data| && (end + 7) / 8 == |bitbuf.data|)
  {
    var overflow := bitbuf.Overflow();
    var end := bitbuf.Flush();
    ok := !overflow && end == |bitbuf.data|;
  }

  /** A buffer with some of its bytes replaced. */
  function Patched(d: seq<byte>, at: nat, bytes: seq<byte>): (r: seq<byte>)
    requires at + |bytes| <= |d|
    ensures |r| == |d|
  {
    d[..at] + bytes + d[at + |bytes|..]
  }

  lemma PatchedNothing(d: seq<byte>, at: nat)
    requires at <= |d|
    ensures Patched(d, at, []) == d
  {
  }

  lemma PatchedMore(d: seq<byte>, at: nat, a: seq<byte>, b: seq<byte>)
    requires at + |a| + |b| <= |d|
    ensures Patched(Patched(d, at, a), at + |a|, b) == Patched(d, at, a + b)
  {
  }

  lemma PatchedAt(d: seq<byte>, at: nat, bytes: seq<byte>)
    requires at + |bytes| <= |d|
    ensures Patched(d, at, bytes)[at..at + |bytes|] == bytes
  {
  }

  lemma PatchedElsewhere(d: seq<byte>, at: nat, bytes: seq<byte>, lo: nat, hi: nat)
    requires at + |bytes| <= |d| && lo <= hi <= at
    ensures Patched(d, at, bytes)[lo..hi] == d[lo..hi]
  {
  }

  method PutFour(dest: array<byte>, at: nat, r: seq<byte>)
    requires |r| == 4 && at + 4 <= dest.Length
    modifies dest
    ensures dest[..] == Patched(old(dest[..]), at, r)
  {
    dest[at], dest[at + 1], dest[at + 2], dest[at + 3] := r[0], r[1], r[2], r[3];
  }

  /** What a row's decoding has reached after k pixel pairs. */
  ghost predicate RowDone(t: Tables, data: seq<byte>, s: Picture, k: nat, bits: int, now: Picture, bytes: seq<byte>) {
    bits >= 0 && now == Ticks(t, data, s, 4 * k) && bytes == RowBytes(t, data, s, 4 * k)
  }

  lemma NoTicks(t: Tables, data: seq<byte>, s: Picture, bits: nat)
    ensures RowDone(t, data, s, 0, bits, s, [])
  {
  }

  lemma RowBegun(t: Tables, data: seq<byte>, s: Picture, k: nat, bits: int, now: Picture, bytes: seq<byte>,
                 pairs: nat, lowram: bool)
    requires RowDone(t, data, s, k, bits, now, bytes) && k < pairs && (lowram || RowCovered(t, data, s, pairs))
    ensures bits >= 0 && (lowram || PairCovered(t, data, now))
  {
    hide Ticks, RowBytes, PairCovered;
  }

  lemma RowNext(t: Tables, data: seq<byte>, s: Picture, k: nat, bits: int, now: Picture, bytes: seq<byte>,
                bits': int, now': Picture, r: seq<byte>)
    requires RowDone(t, data, s, k, bits, now, bytes)
    requires bits' >= 0 && now' == Pair(t, data, now) && r == PairBytes(t, data, now)
    ensures RowDone(t, data, s, k + 1, bits', now', bytes + r)
  {
    hide Ticks, RowBytes, Pair, PairBytes;
    PairTicks(t, data, s, k);
  }

  /** Where row k begins. */
  function RowStart(at: nat, stride: nat, k: nat): nat {
    if k == 0 then at else RowStart(at, stride, k - 1) + stride
  }

  lemma {:induction false} RowsApart(at: nat, stride: nat, j: nat, k: nat)
    requires j < k
    ensures RowStart(at, stride, j) + stride <= RowStart(at, stride, k)
  {
    if j < k - 1 { RowsApart(at, stride, j, k - 1); }
  }

  /** Byte i lies in one of the first k rows of n bytes. */
  ghost predicate InRows(i: nat, at: nat, stride: nat, n: nat, k: nat) {
    exists j: nat :: j < k && RowStart(at, stride, j) <= i < RowStart(at, stride, j) + n
  }

  /** Nothing differs but bytes of the first k rows. */
  ghost predicate OnlyRows(before: seq<byte>, after: seq<byte>, at: nat, stride: nat, n: nat, k: nat) {
    && |after| == |before|
    && forall i: nat :: i < |before| && !InRows(i, at, stride, n, k) ==> after[i] == before[i]
  }

  lemma UnchangedRows(d: seq<byte>, at: nat, stride: nat, n: nat, k: nat)
    ensures OnlyRows(d, d, at, stride, n, k)
  {
  }

  lemma OnlyRowsNext(before: seq<byte>, above: seq<byte>, at: nat, stride: nat, n: nat, k: nat, row: seq<byte>)
    requires OnlyRows(before, above, at, stride, n, k) && |row| == n && RowStart(at, stride, k) + n <= |above|
    ensures OnlyRows(before, Patched(above, RowStart(at, stride, k), row), at, stride, n, k + 1)
  {
    hide RowStart;
    var p, after := RowStart(at, stride, k), Patched(above, RowStart(at, stride, k), row);
    forall i: nat | i < |before| && !InRows(i, at, stride, n, k + 1) ensures after[i] == before[i] {
      assert !(p <= i < p + n);
    }
  }

  /** Row k of a picture holds the given bytes at its front. */
  ghost predicate RowAt(dest: seq<byte>, at: nat, stride: nat, k: nat, row: seq<byte>) {
    var p := RowStart(at, stride, k);
    p + |row| <= |dest| && dest[p..p + |row|] == row
  }

  /** The first k rows are in place. */
  ghost predicate RowsAt(t: Tables, data: seq<byte>, s: Picture, n: nat, dest: seq<byte>, at: nat, stride: nat, k: nat) {
    forall j: nat :: j < k ==> RowAt(dest, at, stride, j, RowBytes(t, data, Rows(t, data, s, n, j), n))
  }

  /** What a picture's decoding has reached after k rows. */
  ghost predicate RowsDone(t: Tables, data: seq<byte>, s: Picture, width: nat, dest: seq<byte>, at: nat, k: nat,
                           bits: int, now: Picture)
  {
    && bits >= 0 && now == Rows(t, data, s, 4 * (width / 2), k)
    && RowsAt(t, data, s, 4 * (width / 2), dest, at, 2 * width, k)
  }

  lemma NoRows(t: Tables, data: seq<byte>, s: Picture, width: nat, dest: seq<byte>, at: nat, bits: nat)
    ensures RowsDone(t, data, s, width, dest, at, 0, bits, s)
  {
  }

  lemma RowsMeant(t: Tables, data: seq<byte>, s: Picture, width: nat, dest: seq<byte>, at: nat, k: nat,
                  bits: int, now: Picture)
    requires RowsDone(t, data, s, width, dest, at, k, bits, now)
    ensures bits >= 0 && now == Rows(t, data, s, 4 * (width / 2), k)
    ensures RowsAt(t, data, s, 4 * (width / 2), dest, at, 2 * width, k)
  {
  }

  lemma PictureRow(t: Tables, data: seq<byte>, s: Picture, width: nat, rows: nat, k: nat, lowram: bool,
                   dest: seq<byte>, at: nat, bits: int, now: Picture)
    requires k < rows && (lowram || PictureCovered(t, data, s, width / 2, rows))
    requires RowsDone(t, data, s, width, dest, at, k, bits, now)
    ensures lowram || RowCovered(t, data, now, width / 2)
  {
    hide RowCovered, Rows;
  }

  /** A row more: the rows above it are where they were. */
  lemma RowsNext(t: Tables, data: seq<byte>, s: Picture, n: nat, before: seq<byte>, after: seq<byte>,
                 at: nat, stride: nat, k: nat, bits: int, now: Picture, now': Picture)
    requires n % 4 == 0 && n <= stride && RowStart(at, stride, k) + n <= |before| == |after|
    requires now == Rows(t, data, s, n, k) && RowsAt(t, data, s, n, before, at, stride, k)
    requires var p := RowStart(at, stride, k);
             after == Patched(before, p, after[p..p + n]) && RowDone(t, data, now, n / 4, bits, now', after[p..p + n])
    ensures bits >= 0 && now'.Flushed() == Rows(t, data, s, n, k + 1)
    ensures RowsAt(t, data, s, n, after, at, stride, k + 1)
  {
    hide Ticks, RowBytes, Patched, RowStart;
    var p := RowStart(at, stride, k);
    forall j: nat | j < k + 1 ensures RowAt(after, at, stride, j, RowBytes(t, data, Rows(t, data, s, n, j), n)) {
      if j < k {
        var row := RowBytes(t, data, Rows(t, data, s, n, j), n);
        assert RowAt(before, at, stride, j, row);
        RowKept(before, at, stride, j, k, row, after[p..p + n]);
      }
    }
  }

  lemma RowKept(before: seq<byte>, at: nat, stride: nat, j: nat, k: nat, row: seq<byte>, bytes: seq<byte>)
    requires j < k && |row| <= stride && RowStart(at, stride, k) + |bytes| <= |before| && RowAt(before, at, stride, j, row)
    ensures RowAt(Patched(before, RowStart(at, stride, k), bytes), at, stride, j, row)
  {
    hide RowStart;
    RowsApart(at, stride, j, k);
    var p := RowStart(at, stride, j);
    PatchedElsewhere(before, RowStart(at, stride, k), bytes, p, p + |row|);
  }
}
