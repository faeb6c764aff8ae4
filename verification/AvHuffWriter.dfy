/** Writing a picture: the codes of three planes interleaved pixel pair by pixel pair, row by row; and what decoding the
    rows gives. */
module AvHuffWriter {
  import opened Bits
  import opened HuffmanCodes
  import opened HuffmanRoundTrip
  import opened DeltaRle
  import opened DeltaRleWriter
  import opened AvHuffVideo

  // ---- one sample

  /** What a plane still has to say in a row: further samples of a run already written, then codes. */
  datatype Queue = Queue(codes: seq<nat>, pending: nat)
  {
    predicate Empty() {
      pending == 0 && codes == []
    }

    /** The differences to come. */
    function Left(): seq<byte> {
      Zeros(pending) + Differences(codes)
    }

    function Next(): Queue {
      if Empty() then this
      else if pending > 0 then Queue(codes, pending - 1)
      else if codes[0] < 256 then Queue(codes[1..], 0)
      else if codes[0] < 272 then Queue(codes[1..], RUNS[codes[0] - 256] - 1)
      else Queue(codes[1..], 0)
    }

    /** The bits written for the next sample. */
    function Emitted(lens: seq<nat>): seq<bool> {
      if pending > 0 || codes == [] || !Coded(lens, MAXBITS, codes[0]) then []
      else CodeBits(HuffmanCodes.Code(lens, codes[0]), lens[codes[0]])
    }
  }

  /** The codes of a plane can be written. */
  ghost predicate Speakable(lens: seq<nat>, q: Queue) {
    AllCodes(q.codes) && AllCoded(lens, MAXBITS, q.codes)
  }

  /** The differences to come begin with those of these samples. */
  ghost predicate Due(q: Queue, prev: byte, samples: seq<byte>) {
    DeltasOf(prev, samples) <= q.Left()
  }

  lemma ZerosFirst(n: nat, rest: seq<byte>)
    requires n > 0
    ensures Zeros(n) + rest == [0] + (Zeros(n - 1) + rest)
  {
    assert Zeros(n) == [0] + Zeros(n - 1);
  }

  lemma NoZeros(rest: seq<byte>)
    ensures Zeros(0) + rest == rest
  {
  }

  /** Taking one difference off a queue. */
  lemma TakeOne(q: Queue)
    requires !q.Empty() && AllCodes(q.codes)
    ensures AllCodes(q.Next().codes)
    ensures q.Left() == [if q.pending == 0 && q.codes[0] < 256 then q.codes[0] else 0] + q.Next().Left()
  {
    hide Differences, Zeros;
    if q.pending > 0 {
      ZerosFirst(q.pending, Differences(q.codes));
    } else {
      var c, rest := q.codes[0], q.codes[1..];
      assert q.codes == [c] + rest;
      DifferencesFirst(c, rest);
      NoZeros(Differences(q.codes));
      if c < 256 {
        NoZeros(Differences(rest));
      } else {
        ZerosFirst(RUNS[c - 256], Differences(rest));
      }
    }
  }

  lemma DueMeans(q: Queue, prev: byte, samples: seq<byte>)
    requires Due(q, prev, samples) && samples != [] && AllCodes(q.codes)
    ensures !q.Empty()
    ensures (if q.pending == 0 && q.codes[0] < 256 then q.codes[0] else 0) == (samples[0] - prev) % 256
    ensures Due(q.Next(), samples[0], samples[1..])
  {
    hide Differences, Zeros;
    var ds := DeltasOf(prev, samples);
    assert ds[0] == q.Left()[0];
    if q.Empty() { NothingLeft(q); assert false; }
    TakeOne(q);
    assert q.Left()[1..] == q.Next().Left();
    assert ds[1..] <= q.Left()[1..];
  }

  lemma NothingLeft(q: Queue)
    requires q.Empty()
    ensures q.Left() == []
  {
  }

  /** The next code of a plane comes back. */
  lemma CodeReads(lens: seq<nat>, data: seq<byte>, pos: nat, q: Queue)
    requires Accepted(lens, MAXBITS) && Speakable(lens, q) && q.pending == 0 && q.codes != []
    requires Holds(data, pos, q.Emitted(lens))
    ensures Covered(lens, MAXBITS, data, pos) && q.codes[0] < 272
    ensures Symbol(lens, MAXBITS, data, pos) == q.codes[0] && Length(lens, MAXBITS, data, pos) == |q.Emitted(lens)|
  {
    hide Accepted, Holds;
    assert Coded(lens, MAXBITS, q.codes[0]);
    DecodesCode(lens, MAXBITS, data, pos, q.codes[0]);
  }

  lemma SpeakableNext(lens: seq<nat>, q: Queue)
    requires Speakable(lens, q)
    ensures Speakable(lens, q.Next())
  {
    var n := q.Next().codes;
    if n != q.codes {
      forall i | 0 <= i < |n| ensures n[i] < 272 && Coded(lens, MAXBITS, n[i]) { assert n[i] == q.codes[i + 1]; }
    }
  }

  /** The next sample of a plane comes back. */
  lemma SampleReads(lens: seq<nat>, data: seq<byte>, pos: nat, q: Queue, prev: byte, samples: seq<byte>)
    requires Accepted(lens, MAXBITS) && Speakable(lens, q) && samples != [] && Due(q, prev, samples)
    requires Holds(data, pos, q.Emitted(lens))
    ensures Speakable(lens, q.Next()) && Due(q.Next(), samples[0], samples[1..])
    ensures StepCovered(lens, data, pos, Plane(prev, q.pending))
    ensures Step(lens, data, pos, Plane(prev, q.pending)) == (pos + |q.Emitted(lens)|, Plane(samples[0], q.Next().pending))
  {
    hide Accepted, Holds, Symbol, Length, Covered, RunLength, Due, AllCoded, CodeBits, HuffmanCodes.Code, DeltasOf;
    DueMeans(q, prev, samples);
    SpeakableNext(lens, q);
    DeltaBack(prev, samples[0]);
    if q.pending == 0 {
      CodeReads(lens, data, pos, q);
      if q.codes[0] >= 256 { RunTable(q.codes[0] - 256); }
    }
  }

  // ---- pixel pairs and rows

  /** Two pixels, in the order of their bytes. */
  datatype Pixels = Pixels(y0: byte, cb: byte, y1: byte, cr: byte)

  function Luma(px: seq<Pixels>): seq<byte> {
    if px == [] then [] else [px[0].y0] + ([px[0].y1] + Luma(px[1..]))
  }

  function Blue(px: seq<Pixels>): seq<byte> {
    if px == [] then [] else [px[0].cb] + Blue(px[1..])
  }

  function Red(px: seq<Pixels>): seq<byte> {
    if px == [] then [] else [px[0].cr] + Red(px[1..])
  }

  function BytesOf(px: seq<Pixels>): (s: seq<byte>)
    ensures |s| == 4 * |px|
  {
    if px == [] then []
    else
      var p := px[|px| - 1];
      BytesOf(px[..|px| - 1]) + [p.y0, p.cb, p.y1, p.cr]
  }

  /** The queues of the three planes. */
  datatype Writer = Writer(y: Queue, cb: Queue, cr: Queue)
  {
    /** After a pair of pixels, with two samples of Y. */
    function Next(): Writer {
      Writer(y.Next().Next(), cb.Next(), cr.Next())
    }

    function Emitted(t: Tables): seq<bool> {
      y.Emitted(t.y) + (cb.Emitted(t.cb) + (y.Next().Emitted(t.y) + cr.Emitted(t.cr)))
    }
  }

  /** The last samples of the three planes. */
  datatype Last = Last(y: byte, cb: byte, cr: byte)

  /** The decoder's planes stand at the queues. */
  ghost predicate Follows(s: Picture, w: Writer) {
    s.y.rle == w.y.pending && s.cb.rle == w.cb.pending && s.cr.rle == w.cr.pending
  }

  function LastOf(s: Picture): Last {
    Last(s.y.prev, s.cb.prev, s.cr.prev)
  }

  ghost predicate TablesOk(t: Tables) {
    Accepted(t.y, MAXBITS) && Accepted(t.cb, MAXBITS) && Accepted(t.cr, MAXBITS)
  }

  /** The queues say what these pixels are. */
  ghost predicate Says(t: Tables, w: Writer, last: Last, px: seq<Pixels>) {
    && Speakable(t.y, w.y) && Speakable(t.cb, w.cb) && Speakable(t.cr, w.cr)
    && Due(w.y, last.y, Luma(px)) && Due(w.cb, last.cb, Blue(px)) && Due(w.cr, last.cr, Red(px))
  }

  lemma PlanesOf(px: seq<Pixels>)
    requires px != []
    ensures Luma(px) != [] && Luma(px)[0] == px[0].y0
    ensures Luma(px)[1..] != [] && Luma(px)[1..][0] == px[0].y1 && Luma(px)[1..][1..] == Luma(px[1..])
    ensures Blue(px) != [] && Blue(px)[0] == px[0].cb && Blue(px)[1..] == Blue(px[1..])
    ensures Red(px) != [] && Red(px)[0] == px[0].cr && Red(px)[1..] == Red(px[1..])
  {
    assert Luma(px)[1..] == [px[0].y1] + Luma(px[1..]);
  }

  /** A pair of pixels comes back. */
  lemma PairReads(t: Tables, data: seq<byte>, s: Picture, w: Writer, px: seq<Pixels>)
    requires TablesOk(t) && px != [] && Follows(s, w) && Says(t, w, LastOf(s), px) && Holds(data, s.pos, w.Emitted(t))
    ensures PairCovered(t, data, s)
    ensures PairBytes(t, data, s) == [px[0].y0, px[0].cb, px[0].y1, px[0].cr]
    ensures var u := Pair(t, data, s);
            && u.pos == s.pos + |w.Emitted(t)| && Follows(u, w.Next()) && Says(t, w.Next(), LastOf(u), px[1..])
            && LastOf(u) == Last(px[0].y1, px[0].cb, px[0].cr)
  {
    hide Accepted, Holds, Step, StepCovered, Due, Speakable, Queue.Next, Queue.Emitted, Luma, Blue, Red;
    PlanesOf(px);
    var a, b, c, d := w.y.Emitted(t.y), w.cb.Emitted(t.cb), w.y.Next().Emitted(t.y), w.cr.Emitted(t.cr);
    HoldsSplit(data, s.pos, a, b + (c + d));
    HoldsSplit(data, s.pos + |a|, b, c + d);
    HoldsSplit(data, s.pos + |a| + |b|, c, d);
    SampleReads(t.y, data, s.pos, w.y, s.y.prev, Luma(px));
    SampleReads(t.cb, data, s.pos + |a|, w.cb, s.cb.prev, Blue(px));
    SampleReads(t.y, data, s.pos + |a| + |b|, w.y.Next(), px[0].y0, Luma(px)[1..]);
    SampleReads(t.cr, data, s.pos + |a| + |b| + |c|, w.cr, s.cr.prev, Red(px));
  }

  /** The queues after k pairs of pixels, and the bits written for them. */
  function WriterAt(w: Writer, k: nat): Writer {
    if k == 0 then w else WriterAt(w, k - 1).Next()
  }

  function RowBits(t: Tables, w: Writer, k: nat): seq<bool> {
    if k == 0 then [] else RowBits(t, w, k - 1) + WriterAt(w, k - 1).Emitted(t)
  }

  /** What decoding k pairs of a row has come to. */
  ghost predicate RowRead(t: Tables, data: seq<byte>, s: Picture, w: Writer, px: seq<Pixels>, k: nat)
    requires k <= |px|
  {
    var u := Ticks(t, data, s, 4 * k);
    && u.pos == s.pos + |RowBits(t, w, k)| && Follows(u, WriterAt(w, k)) && Says(t, WriterAt(w, k), LastOf(u), px[k..])
    && LastOf(u) == (if k == 0 then LastOf(s) else Last(px[k - 1].y1, px[k - 1].cb, px[k - 1].cr))
    && RowBytes(t, data, s, 4 * k) == BytesOf(px[..k]) && RowCovered(t, data, s, k)
  }

  /** A row comes back pair by pair. */
  lemma {:induction false} RowReads(t: Tables, data: seq<byte>, s: Picture, w: Writer, px: seq<Pixels>, k: nat)
    requires TablesOk(t) && k <= |px| && Follows(s, w) && Says(t, w, LastOf(s), px) && Holds(data, s.pos, RowBits(t, w, k))
    ensures RowRead(t, data, s, w, px, k)
  {
    hide TablesOk, Holds, Says, Follows, PairCovered, Pair, PairBytes, RowBytes, Ticks, Writer.Next, Writer.Emitted;
    if k == 0 {
      RowStarts(t, data, s, w, px);
    } else {
      var u := Ticks(t, data, s, 4 * (k - 1));
      HoldsSplit(data, s.pos, RowBits(t, w, k - 1), WriterAt(w, k - 1).Emitted(t));
      RowReads(t, data, s, w, px, k - 1);
      PairReads(t, data, u, WriterAt(w, k - 1), px[k - 1..]);
      PairTicks(t, data, s, k - 1);
      assert px[..k][..k - 1] == px[..k - 1];
      assert px[k - 1..][1..] == px[k..];
    }
  }

  lemma RowStarts(t: Tables, data: seq<byte>, s: Picture, w: Writer, px: seq<Pixels>)
    requires Follows(s, w) && Says(t, w, LastOf(s), px)
    ensures RowRead(t, data, s, w, px, 0)
  {
    assert px[0..] == px && px[..0] == [];
    assert Ticks(t, data, s, 4 * 0) == s && RowBytes(t, data, s, 4 * 0) == [];
  }

  // ---- pictures

  /** A row: its pixels, and the codes written for each plane of it. */
  datatype Row = Row(px: seq<Pixels>, y: seq<nat>, cb: seq<nat>, cr: seq<nat>)
  {
    /** No run goes on from the row before. */
    function Start(): Writer {
      Writer(Queue(y, 0), Queue(cb, 0), Queue(cr, 0))
    }
  }

  /** The last samples before row k, over all rows. */
  function LastBefore(rows: seq<Row>, k: nat): Last
    requires k <= |rows|
  {
    if k == 0 then Last(0, 0, 0)
    else
      var px := rows[k - 1].px;
      if px == [] then LastBefore(rows, k - 1) else Last(px[|px| - 1].y1, px[|px| - 1].cb, px[|px| - 1].cr)
  }

  /** The rows are of one width, and their codes say what their pixels are; a row's last run may be longer than the row. */
  ghost predicate AllSay(t: Tables, rows: seq<Row>, pairs: nat) {
    forall k :: 0 <= k < |rows| ==> |rows[k].px| == pairs && Says(t, rows[k].Start(), LastBefore(rows, k), rows[k].px)
  }

  function PictureBits(t: Tables, rows: seq<Row>, k: nat): seq<bool>
    requires k <= |rows|
  {
    if k == 0 then [] else PictureBits(t, rows, k - 1) + RowBits(t, rows[k - 1].Start(), |rows[k - 1].px|)
  }

  /** Row k comes back. */
  ghost predicate RowBack(t: Tables, data: seq<byte>, s: Picture, rows: seq<Row>, pairs: nat, k: nat)
    requires k < |rows|
  {
    var row := Rows(t, data, s, 4 * pairs, k);
    RowBytes(t, data, row, 4 * pairs) == BytesOf(rows[k].px) && RowCovered(t, data, row, pairs)
  }

  lemma FollowsStart(s: Picture, row: Row)
    requires s == s.Flushed()
    ensures Follows(s, row.Start())
  {
  }

  /** One row more. */
  lemma NextRow(t: Tables, data: seq<byte>, s: Picture, rows: seq<Row>, pairs: nat, k: nat)
    requires TablesOk(t) && k < |rows| && AllSay(t, rows, pairs)
    requires var row := Rows(t, data, s, 4 * pairs, k);
             row == row.Flushed() && LastOf(row) == LastBefore(rows, k)
             && Holds(data, row.pos, RowBits(t, rows[k].Start(), pairs))
    ensures RowBack(t, data, s, rows, pairs, k)
    ensures var row, u := Rows(t, data, s, 4 * pairs, k), Rows(t, data, s, 4 * pairs, k + 1);
            u == u.Flushed() && LastOf(u) == LastBefore(rows, k + 1)
            && u.pos == row.pos + |RowBits(t, rows[k].Start(), pairs)|
  {
    hide TablesOk, Holds, Says, RowBytes, RowCovered, Ticks, RowBits, Follows;
    var row := Rows(t, data, s, 4 * pairs, k);
    FollowsStart(row, rows[k]);
    RowReads(t, data, row, rows[k].Start(), rows[k].px, pairs);
    assert rows[k].px[..pairs] == rows[k].px;
  }

  /** A picture comes back row by row. */
  lemma {:induction false} PictureReads(t: Tables, data: seq<byte>, s: Picture, rows: seq<Row>, pairs: nat, k: nat)
    requires TablesOk(t) && k <= |rows| && AllSay(t, rows, pairs)
    requires s == Picture(s.pos, Plane(0, 0), Plane(0, 0), Plane(0, 0)) && Holds(data, s.pos, PictureBits(t, rows, k))
    ensures var u := Rows(t, data, s, 4 * pairs, k);
            u == u.Flushed() && LastOf(u) == LastBefore(rows, k) && u.pos == s.pos + |PictureBits(t, rows, k)|
    ensures forall j: nat :: j < k ==> RowBack(t, data, s, rows, pairs, j)
  {
    hide TablesOk, Holds, AllSay, RowBack, Rows, LastBefore, RowBits;
    if k == 0 {
      PictureStarts(t, data, s, rows, pairs);
    } else {
      HoldsSplit(data, s.pos, PictureBits(t, rows, k - 1), RowBits(t, rows[k - 1].Start(), |rows[k - 1].px|));
      PictureReads(t, data, s, rows, pairs, k - 1);
      assert |rows[k - 1].px| == pairs by { OneWidth(t, rows, pairs, k - 1); }
      NextRow(t, data, s, rows, pairs, k - 1);
    }
  }

  lemma OneWidth(t: Tables, rows: seq<Row>, pairs: nat, k: nat)
    requires AllSay(t, rows, pairs) && k < |rows|
    ensures |rows[k].px| == pairs
  {
  }

  lemma PictureStarts(t: Tables, data: seq<byte>, s: Picture, rows: seq<Row>, pairs: nat)
    requires s == Picture(s.pos, Plane(0, 0), Plane(0, 0), Plane(0, 0))
    ensures Rows(t, data, s, 4 * pairs, 0) == s == s.Flushed() && LastOf(s) == LastBefore(rows, 0)
  {
  }
}
