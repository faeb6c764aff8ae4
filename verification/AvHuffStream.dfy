/** Writing the whole stream of a losslessly coded picture: a byte, the trees of the three planes, each up to a byte
    boundary, and the rows. */
module AvHuffStream {
  import opened Bits
  import opened HuffmanCodes
  import opened HuffmanKraft
  import opened HuffmanDecoderModule
  import opened HuffmanRoundTrip
  import opened HuffmanTreeRoundTrip
  import opened DeltaRle
  import opened DeltaRleWriter
  import opened AvHuffVideo
  import opened AvHuffWriter
  import opened ChdErrors

  /** Bits up to the next byte boundary. */
  function Padded(bits: seq<bool>): (r: seq<bool>)
    ensures |r| % 8 == 0 && |bits| <= |r| < |bits| + 8
  {
    bits + seq((8 - |bits| % 8) % 8, _ => false)
  }

  /** Can be stored as the tree of a plane, in items of 5 bits. */
  ghost predicate TreeOk(items: seq<Item>) {
    AllValid(items, 5) && |LensOf(items)| == 272 && Accepted(LensOf(items), 16)
  }

  /** A picture as a writer lays it out. */
  datatype Draft = Draft(first: seq<bool>, y: seq<Item>, cb: seq<Item>, cr: seq<Item>, rows: seq<Row>)
  {
    function Lens(): Tables {
      Tables(LensOf(y), LensOf(cb), LensOf(cr))
    }

    ghost predicate Valid(width: nat, height: nat) {
      && |first| == 8 && TreeOk(y) && TreeOk(cb) && TreeOk(cr)
      && |rows| == height && AllSay(Lens(), rows, width / 2)
    }

    function Trees(): seq<bool>
      requires AllValid(y, 5) && AllValid(cb, 5) && AllValid(cr, 5)
    {
      Padded(StoredItems(y, 5)) + (Padded(StoredItems(cb, 5)) + Padded(StoredItems(cr, 5)))
    }

    function Bits(): seq<bool>
      requires AllValid(y, 5) && AllValid(cb, 5) && AllValid(cr, 5)
    {
      first + Trees() + PictureBits(Lens(), rows, |rows|)
    }

    function Source(): seq<byte>
      requires AllValid(y, 5) && AllValid(cb, 5) && AllValid(cr, 5)
    {
      Pack(Bits())
    }
  }

  /** A tree comes back, and the byte boundary behind it. */
  lemma TreeReads(data: seq<byte>, p: nat, items: seq<Item>)
    requires TreeOk(items) && p % 8 == 0 && Holds(data, p, Padded(StoredItems(items, 5)))
    requires p + |Padded(StoredItems(items, 5))| <= 8 * |data|
    ensures TreeAt(data, p) == Some(Tree(LensOf(items), p + |Padded(StoredItems(items, 5))|))
  {
    hide Holds, ReadLens, ImportResult, Accepted, StoredItems, AllValid, LensOf;
    var bits := StoredItems(items, 5);
    HoldsSplit(data, p, bits, seq((8 - |bits| % 8) % 8, _ => false));
    assert TreeWidth(MAXBITS) == 5;
    ImportsStored(data, p, NUMCODES, MAXBITS, items);
    NextByte(p, |bits|, |Padded(bits)|);
  }

  lemma NextByte(p: nat, n: nat, r: nat)
    requires p % 8 == 0 && r % 8 == 0 && n <= r < n + 8
    ensures 8 * ((p + n + 7) / 8) == p + r
  {
    assert (p + r) % 8 == 0;
  }

  /** The three trees come back, in their order. */
  lemma TreesRead(d: Draft, data: seq<byte>)
    requires |d.first| == 8 && TreeOk(d.y) && TreeOk(d.cb) && TreeOk(d.cr)
    requires Holds(data, 8, d.Trees()) && 8 + |d.Trees()| <= 8 * |data|
    ensures TreesOf(data) == AvHuffVideo.Trees(d.Lens(), 8 + |d.Trees()|)
  {
    hide Holds, TreeAt, AllValid, Accepted, Padded, StoredItems, LensOf;
    var a, b, c := Padded(StoredItems(d.y, 5)), Padded(StoredItems(d.cb, 5)), Padded(StoredItems(d.cr, 5));
    HoldsSplit(data, 8, a, b + c);
    HoldsSplit(data, 8 + |a|, b, c);
    TreeReads(data, 8, d.y);
    TreeReads(data, 8 + |a|, d.cb);
    TreeReads(data, 8 + |a| + |b|, d.cr);
  }

  /** The decoder before the first row. */
  ghost function AtRows(d: Draft): Picture
    requires AllValid(d.y, 5) && AllValid(d.cb, 5) && AllValid(d.cr, 5)
  {
    Picture(8 + |d.Trees()|, Plane(0, 0), Plane(0, 0), Plane(0, 0))
  }

  /** The decoder's row k is the row written. */
  ghost predicate RowIs(d: Draft, data: seq<byte>, s: Picture, width: nat, k: nat)
    requires k < |d.rows|
  {
    var n := 4 * (width / 2);
    RowBytes(d.Lens(), data, Rows(d.Lens(), data, s, n, k), n) == BytesOf(d.rows[k].px)
  }

  /** Whatever a writer makes of a picture, decoding accepts it, and every row comes back. */
  lemma StreamRoundTrip(d: Draft, width: nat, height: nat)
    requires d.Valid(width, height)
    ensures var data, s := d.Source(), AtRows(d);
            && TreesOf(data) == AvHuffVideo.Trees(d.Lens(), s.pos)
            && PictureCovered(d.Lens(), data, s, width / 2, height)
            && (forall k: nat :: k < height ==> RowIs(d, data, s, width, k))
            && var end := Rows(d.Lens(), data, s, 4 * (width / 2), height).pos;
               end <= 8 * |data| && (end + 7) / 8 == |data|
  {
    hide Holds, TreesOf, AllSay, AllValid, Accepted, Rows, RowBytes, RowCovered, BytesOf, PictureBits,
         Draft.Trees, Padded, LensOf;
    var data, bits, t := d.Source(), d.Bits(), d.Lens();
    var s := AtRows(d);
    PackHolds(bits);
    HoldsSplit(data, 0, d.first + d.Trees(), PictureBits(t, d.rows, height));
    HoldsSplit(data, 0, d.first, d.Trees());
    TreesRead(d, data);
    assert TablesOk(t) by { DraftTables(d, width, height); }
    PictureReads(t, data, s, d.rows, width / 2, height);
    forall k: nat | k < height
      ensures RowCovered(t, data, Rows(t, data, s, 4 * (width / 2), k), width / 2)
      ensures RowIs(d, data, s, width, k)
    {
      assert RowBack(t, data, s, d.rows, width / 2, k);
    }
  }

  lemma DraftTables(d: Draft, width: nat, height: nat)
    requires d.Valid(width, height)
    ensures TablesOk(d.Lens())
  {
    hide Accepted;
  }

  // ---- through the decoder

  lemma {:induction false} RowStartIs(at: nat, stride: nat, k: nat)
    ensures RowStart(at, stride, k) == at + stride * k
  {
    if k > 0 {
      RowStartIs(at, stride, k - 1);
      assert stride * k == stride * (k - 1) + stride;
    }
  }

  /** Row k of the picture lies at its place of the destination. */
  ghost predicate RowDelivered(d: Draft, width: nat, dest: seq<byte>, at: nat, k: nat)
    requires k < |d.rows|
  {
    var p, n := at + 2 * width * k, 4 * |d.rows[k].px|;
    p + n <= |dest| && dest[p..p + n] == BytesOf(d.rows[k].px)
  }

  /** The decoder accepts what was written, and delivers every row at its place. */
  method DecodeWritten(codec: AvHuffCodec, source: seq<byte>, width: nat, height: nat, dest: array<byte>, at: nat,
                       ghost d: Draft)
    returns (r: Outcome)
    requires codec.Distinct() && codec.Separate(dest)
    requires dest as object !in {codec.ycontext.codes as object, codec.cbcontext.codes, codec.crcontext.codes}
    requires d.Valid(width, height) && source == d.Source() && at + 2 * width * height <= dest.Length
    modifies codec, dest,
             codec.ycontext, codec.ycontext.numbits, codec.ycontext.codes, codec.ycontext.lookup,
             codec.cbcontext, codec.cbcontext.numbits, codec.cbcontext.codes, codec.cbcontext.lookup,
             codec.crcontext, codec.crcontext.numbits, codec.crcontext.codes, codec.crcontext.lookup
    ensures r == Ok && forall k: nat :: k < height ==> RowDelivered(d, width, dest[..], at, k)
  {
    hide Draft.Source, Draft.Trees, AllSay, AllValid, Accepted, Rows, RowBytes, PictureCovered, TreesOf,
         OnlyRows, BytesOf, RowStart, LensOf;
    StreamRoundTrip(d, width, height);
    RowStartIs(at, 2 * width, height);
    r := codec.DecodeVideoLossless(source, width, height, dest, at);
    RowsLie(d, width, height, dest[..], at, AtRows(d));
  }

  lemma RowsLie(d: Draft, width: nat, height: nat, dest: seq<byte>, at: nat, s: Picture)
    requires d.Valid(width, height)
    requires var n := 4 * (width / 2);
             && RowsAt(d.Lens(), d.Source(), s, n, dest, at, 2 * width, height)
             && forall k: nat :: k < height ==> RowIs(d, d.Source(), s, width, k)
    ensures forall k: nat :: k < height ==> RowDelivered(d, width, dest, at, k)
  {
    hide Draft.Source, AllValid, Accepted, Says, Rows, RowBytes, RowStart, LensOf;
    forall k: nat | k < height ensures RowDelivered(d, width, dest, at, k) {
      var n := 4 * (width / 2);
      RowStartIs(at, 2 * width, k);
      assert RowIs(d, d.Source(), s, width, k);
      assert RowAt(dest, at, 2 * width, k, RowBytes(d.Lens(), d.Source(), Rows(d.Lens(), d.Source(), s, n, k), n));
    }
  }

  // ---- every picture can be written

  /** 240 codes of 8 bits and 32 of 9. */
  const EVEN: seq<nat> := Repeat(8, 240) + Repeat(9, 32)

  lemma {:induction false} KraftEven(n: nat)
    requires n <= 272
    ensures Kraft(EVEN[..n], 16) == if n <= 240 then 256 * n else 61440 + 128 * (n - 240)
  {
    hide Pow2;
    if n > 0 {
      KraftEven(n - 1);
      assert EVEN[..n][..n - 1] == EVEN[..n - 1];
      SmallPowers();
    }
  }

  lemma SmallPowers()
    ensures Pow2(5) == 32 && Pow2(7) == 128 && Pow2(8) == 256 && Pow2(16) == 0x1_0000
  {
    ShlByConstants(1);
    ShlByConstants(256);
    ShlShl(1, 8, 8);
    assert Pow2(5) == 2 * Pow2(4) && Pow2(6) == 2 * Pow2(5);
  }

  lemma EvenOk()
    ensures TreeOk(Singles(EVEN)) && LensOf(Singles(EVEN)) == EVEN
  {
    hide Accepted, LensOf;
    KraftEven(272);
    assert EVEN[..272] == EVEN;
    SmallPowers();
    AcceptedIffKraft(EVEN, 16);
    SinglesLens(EVEN);
  }

  /** The last samples before row k. */
  function LastPixels(px: seq<seq<Pixels>>, k: nat): Last
    requires k <= |px|
  {
    if k == 0 then Last(0, 0, 0)
    else
      var row := px[k - 1];
      if row == [] then LastPixels(px, k - 1) else Last(row[|row| - 1].y1, row[|row| - 1].cb, row[|row| - 1].cr)
  }

  /** A row in run codes and differences. */
  function PlainRow(px: seq<Pixels>, last: Last): Row {
    Row(px, EncodeDeltas(DeltasOf(last.y, Luma(px))), EncodeDeltas(DeltasOf(last.cb, Blue(px))),
        EncodeDeltas(DeltasOf(last.cr, Red(px))))
  }

  function PlainRows(px: seq<seq<Pixels>>): (rows: seq<Row>)
    ensures |rows| == |px| && forall k :: 0 <= k < |px| ==> rows[k].px == px[k]
  {
    seq(|px|, k requires 0 <= k < |px| => PlainRow(px[k], LastPixels(px, k)))
  }

  lemma {:induction false} PlainLast(px: seq<seq<Pixels>>, rows: seq<Row>, k: nat)
    requires k <= |px| == |rows| && forall j :: 0 <= j < |px| ==> rows[j].px == px[j]
    ensures LastBefore(rows, k) == LastPixels(px, k)
  {
    if k > 0 { PlainLast(px, rows, k - 1); }
  }

  lemma PlainQueue(prev: byte, samples: seq<byte>)
    ensures var q := Queue(EncodeDeltas(DeltasOf(prev, samples)), 0); Speakable(EVEN, q) && Due(q, prev, samples)
  {
    hide EncodeDeltas, DeltasOf;
    EncodeExpands(DeltasOf(prev, samples));
    NoZeros(DeltasOf(prev, samples));
  }

  /** Every picture whose rows are of one width can be written. */
  lemma AnyPicture(px: seq<seq<Pixels>>, width: nat, first: seq<bool>)
    requires |first| == 8 && forall k :: 0 <= k < |px| ==> |px[k]| == width / 2
    ensures Draft(first, Singles(EVEN), Singles(EVEN), Singles(EVEN), PlainRows(px)).Valid(width, |px|)
  {
    hide TreeOk, PlainRow, Speakable, Due, LensOf;
    EvenOk();
    var d := Draft(first, Singles(EVEN), Singles(EVEN), Singles(EVEN), PlainRows(px));
    forall k: nat | k < |px| ensures Says(d.Lens(), d.rows[k].Start(), LastBefore(d.rows, k), d.rows[k].px) {
      var last := LastPixels(px, k);
      PlainLast(px, d.rows, k);
      assert d.rows[k].Start() == PlainRow(px[k], last).Start();
      PlainStart(px[k], last);
    }
  }

  lemma PlainStart(px: seq<Pixels>, last: Last)
    ensures Says(Tables(EVEN, EVEN, EVEN), PlainRow(px, last).Start(), last, px)
  {
    hide Speakable, Due;
    PlainQueue(last.y, Luma(px));
    PlainQueue(last.cb, Blue(px));
    PlainQueue(last.cr, Red(px));
  }
}
