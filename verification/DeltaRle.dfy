/** Delta and run-length coded planes: what the interleaved decoding of a picture means for each plane
    by itself. */
module DeltaRle {
  import opened Bits
  import opened HuffmanCodes

  /** Byte values and 16 run codes, of at most 16 bits. */
  const NUMCODES := 272
  const MAXBITS := 16
  const RUN_0 := 0x100
  const RUN_8 := 0x108

  /** How many unchanged samples a run code stands for. */
  function RunLength(code: nat): (n: nat)
    requires RUN_0 <= code
    ensures n >= 8
  {
    if code < RUN_8 then 8 + (code - RUN_0)
    else
      RunAtLeast(code - RUN_8);
      Shl(16, code - RUN_8)
  }

  lemma {:induction false} RunAtLeast(n: nat)
    ensures Shl(16, n) >= 16
  {
    if n > 0 { RunAtLeast(n - 1); }
  }

  // ---- the meaning of codes

  function Zeros(n: nat): seq<byte> {
    seq(n, _ => 0)
  }

  /** The differences a code stands for: itself, or a run of zeros. */
  function Deltas(code: nat): seq<byte> {
    if code < RUN_0 then [code] else Zeros(RunLength(code))
  }

  function Expand(codes: seq<nat>): seq<byte> {
    if codes == [] then [] else Expand(codes[..|codes| - 1]) + Deltas(codes[|codes| - 1])
  }

  /** The last sample after some differences, modulo 256. */
  function Total(prev: byte, deltas: seq<byte>): byte {
    if deltas == [] then prev else (Total(prev, deltas[..|deltas| - 1]) + deltas[|deltas| - 1] as int) % 256
  }

  /** The samples after some differences: all their partial sums, modulo 256. */
  function PrefixSums(prev: byte, deltas: seq<byte>): (s: seq<byte>)
    ensures |s| == |deltas|
  {
    if deltas == [] then [] else PrefixSums(prev, deltas[..|deltas| - 1]) + [Total(prev, deltas)]
  }

  lemma {:induction false} TotalConcat(prev: byte, a: seq<byte>, b: seq<byte>)
    ensures Total(prev, a + b) == Total(Total(prev, a), b)
  {
    if b == [] {
      assert a + b == a;
    } else {
      assert (a + b)[..|a + b| - 1] == a + b[..|b| - 1];
      TotalConcat(prev, a, b[..|b| - 1]);
    }
  }

  /** Sums carry over from one piece to the next. */
  lemma {:induction false} PrefixSumsConcat(prev: byte, a: seq<byte>, b: seq<byte>)
    ensures PrefixSums(prev, a + b) == PrefixSums(prev, a) + PrefixSums(Total(prev, a), b)
  {
    if b == [] {
      assert a + b == a;
    } else {
      assert (a + b)[..|a + b| - 1] == a + b[..|b| - 1];
      PrefixSumsConcat(prev, a, b[..|b| - 1]);
      TotalConcat(prev, a, b);
    }
  }

  // ---- the decoder

  datatype Plane = Plane(prev: byte, rle: nat)

  /** The three planes of a picture while its stream has been read up to pos. */
  datatype Picture = Picture(pos: nat, y: Plane, cb: Plane, cr: Plane)
  {
    function Get(p: nat): Plane {
      if p == 0 then y else if p == 1 then cb else cr
    }

    function Set(p: nat, v: Plane): Picture {
      if p == 0 then this.(y := v) else if p == 1 then this.(cb := v) else this.(cr := v)
    }

    /** Pending runs end with the row. */
    function Flushed(): Picture {
      Picture(pos, y.(rle := 0), cb.(rle := 0), cr.(rle := 0))
    }
  }

  /** The code lengths of the three planes. */
  datatype Tables = Tables(y: seq<nat>, cb: seq<nat>, cr: seq<nat>)
  {
    function Get(p: nat): seq<nat> {
      if p == 0 then y else if p == 1 then cb else cr
    }
  }

  /** Whose sample comes j-th in a row: Y, Cb, Y, Cr and so on. */
  function PlaneOf(j: nat): (p: nat)
    ensures p < 3
  {
    if j % 4 == 1 then 1 else if j % 4 == 3 then 2 else 0
  }

  function Code(t: Tables, data: seq<byte>, s: Picture, p: nat): nat {
    Symbol(t.Get(p), MAXBITS, data, s.pos)
  }

  /** One sample: part of a pending run, a difference, or the first of a new run. */
  function Step(lens: seq<nat>, data: seq<byte>, pos: nat, q: Plane): (nat, Plane) {
    if q.rle != 0 then (pos, q.(rle := q.rle - 1))
    else
      var v := Symbol(lens, MAXBITS, data, pos);
      (pos + Length(lens, MAXBITS, data, pos),
       if v < RUN_0 then Plane((q.prev + v) % 256, 0) else q.(rle := RunLength(v) - 1))
  }

  /** One sample of plane p. */
  function Tick(t: Tables, data: seq<byte>, s: Picture, p: nat): Picture {
    var (pos, q) := Step(t.Get(p), data, s.pos, s.Get(p));
    s.(pos := pos).Set(p, q)
  }

  /** The picture after n samples of a row that starts at s. */
  function Ticks(t: Tables, data: seq<byte>, s: Picture, n: nat): Picture {
    if n == 0 then s else Tick(t, data, Ticks(t, data, s, n - 1), PlaneOf(n - 1))
  }

  /** The first n bytes of the row. */
  function RowBytes(t: Tables, data: seq<byte>, s: Picture, n: nat): (r: seq<byte>)
    ensures |r| == n
  {
    if n == 0 then []
    else RowBytes(t, data, s, n - 1) + [Ticks(t, data, s, n).Get(PlaneOf(n - 1)).prev]
  }

  /** Those of them that belong to plane p. */
  function Samples(t: Tables, data: seq<byte>, s: Picture, p: nat, n: nat): seq<byte> {
    if n == 0 then []
    else if PlaneOf(n - 1) != p then Samples(t, data, s, p, n - 1)
    else Samples(t, data, s, p, n - 1) + [RowBytes(t, data, s, n)[n - 1]]
  }

  /** The codes plane p reads for them. */
  function Codes(t: Tables, data: seq<byte>, s: Picture, p: nat, n: nat): seq<nat> {
    if n == 0 then []
    else
      var before := Ticks(t, data, s, n - 1);
      if PlaneOf(n - 1) != p || before.Get(p).rle != 0 then Codes(t, data, s, p, n - 1)
      else Codes(t, data, s, p, n - 1) + [Code(t, data, before, p)]
  }

  // ---- each plane by itself

  /** What the codes of a plane stand for is its differences so far, then zeros for the pending run. */
  ghost predicate Meaning(prev: byte, codes: seq<nat>, samples: seq<byte>, q: Plane) {
    exists deltas :: MeaningOf(prev, codes, samples, q, deltas)
  }

  ghost predicate MeaningOf(prev: byte, codes: seq<nat>, samples: seq<byte>, q: Plane, deltas: seq<byte>) {
    && Expand(codes) == deltas + Zeros(q.rle)
    && samples == PrefixSums(prev, deltas) && q.prev == Total(prev, deltas)
  }

  /** A sample out of a pending run. */
  lemma MeaningPending(prev: byte, codes: seq<nat>, samples: seq<byte>, q: Plane, deltas: seq<byte>)
    requires MeaningOf(prev, codes, samples, q, deltas) && q.rle > 0
    ensures MeaningOf(prev, codes, samples + [q.prev], q.(rle := q.rle - 1), deltas + [0])
  {
    assert Zeros(q.rle) == [0] + Zeros(q.rle - 1);
    assert deltas + Zeros(q.rle) == (deltas + [0]) + Zeros(q.rle - 1);
    assert (deltas + [0])[..|deltas|] == deltas;
  }

  lemma ExpandAppend(codes: seq<nat>, v: nat)
    ensures Expand(codes + [v]) == Expand(codes) + Deltas(v)
  {
    assert (codes + [v])[..|codes|] == codes;
  }

  /** A sample from a difference. */
  lemma MeaningDelta(prev: byte, codes: seq<nat>, samples: seq<byte>, q: Plane, deltas: seq<byte>, v: nat)
    requires MeaningOf(prev, codes, samples, q, deltas) && q.rle == 0 && v < RUN_0
    ensures var next := (q.prev + v) % 256;
            MeaningOf(prev, codes + [v], samples + [next], Plane(next, 0), deltas + [v])
  {
    ExpandAppend(codes, v);
    assert deltas + Zeros(0) == deltas;
    assert (deltas + [v])[..|deltas|] == deltas;
    assert deltas + [v] + Zeros(0) == deltas + [v];
  }

  /** The first sample of a new run. */
  lemma MeaningRun(prev: byte, codes: seq<nat>, samples: seq<byte>, q: Plane, deltas: seq<byte>, v: nat)
    requires MeaningOf(prev, codes, samples, q, deltas) && q.rle == 0 && v >= RUN_0
    ensures MeaningOf(prev, codes + [v], samples + [q.prev], q.(rle := RunLength(v) - 1), deltas + [0])
  {
    ExpandAppend(codes, v);
    assert deltas + Zeros(0) == deltas;
    MeaningPending(prev, codes + [v], samples, q.(rle := RunLength(v)), deltas);
  }

  lemma MeaningTick(prev: byte, t: Tables, data: seq<byte>, s: Picture, p: nat, codes: seq<nat>, samples: seq<byte>)
    requires p < 3 && Meaning(prev, codes, samples, s.Get(p))
    ensures var next := Tick(t, data, s, p);
            var more := if s.Get(p).rle != 0 then codes else codes + [Code(t, data, s, p)];
            Meaning(prev, more, samples + [next.Get(p).prev], next.Get(p))
  {
    hide MeaningOf, RunLength, Symbol, Length;
    var q := s.Get(p);
    var deltas :| MeaningOf(prev, codes, samples, q, deltas);
    if q.rle != 0 {
      MeaningPending(prev, codes, samples, q, deltas);
    } else {
      var v := Code(t, data, s, p);
      if v < RUN_0 {
        MeaningDelta(prev, codes, samples, q, deltas, v);
      } else {
        MeaningRun(prev, codes, samples, q, deltas, v);
      }
    }
  }

  /** However the planes are interleaved, the samples of each are the partial sums of its own codes'
      differences; whatever these stand for beyond is zeros. */
  lemma {:induction false} RowMeaning(t: Tables, data: seq<byte>, s: Picture, p: nat, n: nat)
    requires p < 3 && s.Get(p).rle == 0
    ensures Meaning(s.Get(p).prev, Codes(t, data, s, p, n), Samples(t, data, s, p, n), Ticks(t, data, s, n).Get(p))
  {
    hide Meaning, Tick;
    if n == 0 {
      NoMeaning(s.Get(p));
    } else {
      RowMeaning(t, data, s, p, n - 1);
      var before := Ticks(t, data, s, n - 1);
      if PlaneOf(n - 1) == p {
        MeaningTick(s.Get(p).prev, t, data, before, p, Codes(t, data, s, p, n - 1), Samples(t, data, s, p, n - 1));
      } else {
        TickOther(t, data, before, PlaneOf(n - 1), p);
      }
    }
  }

  lemma NoMeaning(q: Plane)
    requires q.rle == 0
    ensures Meaning(q.prev, [], [], q)
  {
    assert MeaningOf(q.prev, [], [], q, []);
  }

  lemma TickOther(t: Tables, data: seq<byte>, s: Picture, p: nat, other: nat)
    requires p < 3 && other < 3 && p != other
    ensures Tick(t, data, s, p).Get(other) == s.Get(other)
  {
  }

  // ---- whole pictures

  /** The picture before row k, when rows have n samples. */
  function Rows(t: Tables, data: seq<byte>, s: Picture, n: nat, k: nat): Picture {
    if k == 0 then s else Ticks(t, data, Rows(t, data, s, n, k - 1), n).Flushed()
  }

  /** The samples of plane p in the first k rows. */
  function PlaneSamples(t: Tables, data: seq<byte>, s: Picture, n: nat, p: nat, k: nat): seq<byte> {
    if k == 0 then []
    else PlaneSamples(t, data, s, n, p, k - 1) + Samples(t, data, Rows(t, data, s, n, k - 1), p, n)
  }

  /** The differences plane p's codes stand for, cut off at the end of every row. */
  function PlaneDeltas(t: Tables, data: seq<byte>, s: Picture, n: nat, p: nat, k: nat): seq<byte> {
    if k == 0 then []
    else
      var row := Rows(t, data, s, n, k - 1);
      PlaneDeltas(t, data, s, n, p, k - 1) + Cut(Expand(Codes(t, data, row, p, n)), |Samples(t, data, row, p, n)|)
  }

  function Cut(s: seq<byte>, n: nat): seq<byte> {
    if n <= |s| then s[..n] else s
  }

  lemma RowSums(t: Tables, data: seq<byte>, row: Picture, p: nat, n: nat)
    requires p < 3 && row.Get(p).rle == 0
    ensures var samples := Samples(t, data, row, p, n);
            var deltas := Cut(Expand(Codes(t, data, row, p, n)), |samples|);
            samples == PrefixSums(row.Get(p).prev, deltas)
            && Ticks(t, data, row, n).Get(p).prev == Total(row.Get(p).prev, deltas)
  {
    hide Samples, Codes, Ticks, Expand, PrefixSums, Total;
    RowMeaning(t, data, row, p, n);
    var samples, codes, q := Samples(t, data, row, p, n), Codes(t, data, row, p, n), Ticks(t, data, row, n).Get(p);
    var deltas :| MeaningOf(row.Get(p).prev, codes, samples, q, deltas);
    assert Cut(deltas + Zeros(q.rle), |deltas|) == deltas;
  }

  /** A plane of a picture is the partial sums, from row to row, of its differences. */
  lemma {:induction false} PictureMeaning(t: Tables, data: seq<byte>, s: Picture, n: nat, p: nat, k: nat)
    requires p < 3 && s == s.Flushed()
    ensures PlaneSamples(t, data, s, n, p, k) == PrefixSums(s.Get(p).prev, PlaneDeltas(t, data, s, n, p, k))
    ensures Rows(t, data, s, n, k).Get(p) == Plane(Total(s.Get(p).prev, PlaneDeltas(t, data, s, n, p, k)), 0)
  {
    hide Samples, Codes, Ticks, Expand, Cut;
    if k > 0 {
      PictureMeaning(t, data, s, n, p, k - 1);
      var row := Rows(t, data, s, n, k - 1);
      RowSums(t, data, row, p, n);
      var a := PlaneDeltas(t, data, s, n, p, k - 1);
      var b := Cut(Expand(Codes(t, data, row, p, n)), |Samples(t, data, row, p, n)|);
      PrefixSumsConcat(s.Get(p).prev, a, b);
      TotalConcat(s.Get(p).prev, a, b);
    }
  }
}
