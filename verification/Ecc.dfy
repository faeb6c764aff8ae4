/** The P and Q parity of a raw CD sector (ECMA-130, Annex A): the lines of the product code, the
    parity computed from scratch, the four-rows-at-once form, and verification. */
module Ecc {
  import opened Gf256

  // Layout of a sector, in bytes.
  const SECTOR := 2352
  const DATA_OFFSET := 12
  const MODE_OFFSET := 15
  const P_OFFSET := 2076
  const P_BYTES := 86
  const P_COMP := 24
  const Q_OFFSET := 2248
  const Q_BYTES := 52
  const Q_COMP := 43

  /** A line of the product code: column r of P or diagonal r of Q. */
  datatype Line = P(r: nat) | Q(r: nat)
  {
    predicate Valid() {
      if P? then r < P_BYTES else r < Q_BYTES
    }

    function Comps(): nat {
      if P? then P_COMP else Q_COMP
    }

    /** The data offset of component c: the tables `poffsets` and `qoffsets`. */
    function Offset(c: nat): nat {
      if P? then r + P_BYTES * c else (86 * (r / 2) + r % 2 + 88 * c) % 2236
    }

    /** How much of the sector the data of the line lies in. */
    function Extent(): nat {
      if P? then P_OFFSET else Q_OFFSET
    }

    /** Where the first check symbol lies. */
    function At(): nat {
      if P? then P_OFFSET + r else Q_OFFSET + r
    }

    /** Where the second check symbol lies. */
    function At2(): nat {
      if P? then P_OFFSET + P_BYTES + r else Q_OFFSET + Q_BYTES + r
    }

    lemma OffsetInExtent(c: nat)
      requires Valid() && c < Comps()
      ensures DATA_OFFSET + Offset(c) < Extent()
    {
    }
  }

  /** A data byte as the code sees it: the header of a mode 2 sector counts as zero. */
  function Data(s: seq<bv8>, offset: nat): bv8
    requires DATA_OFFSET + offset < |s| && MODE_OFFSET < |s|
  {
    if s[MODE_OFFSET] == 2 && offset < 4 then 0 else s[DATA_OFFSET + offset]
  }

  /** The first n data symbols of a line. */
  function LineData(s: seq<bv8>, line: Line, n: nat): (w: seq<bv8>)
    requires line.Valid() && n <= line.Comps() && line.Extent() <= |s|
    ensures |w| == n
  {
    if n == 0 then []
    else
      line.OffsetInExtent(n - 1);
      LineData(s, line, n - 1) + [Data(s, line.Offset(n - 1))]
  }

  /** The source's accumulators after n components. */
  function V1(s: seq<bv8>, line: Line, n: nat): bv8
    requires line.Valid() && n <= line.Comps() && line.Extent() <= |s|
  {
    XTime(Horner(LineData(s, line, n)))
  }

  function V2(s: seq<bv8>, line: Line, n: nat): bv8
    requires line.Valid() && n <= line.Comps() && line.Extent() <= |s|
  {
    Sum(LineData(s, line, n))
  }

  function Parity1(s: seq<bv8>, line: Line): bv8
    requires line.Valid() && line.Extent() <= |s|
  {
    Check1(V1(s, line, line.Comps()), V2(s, line, line.Comps()))
  }

  function Parity2(s: seq<bv8>, line: Line): bv8
    requires line.Valid() && line.Extent() <= |s|
  {
    Check2(V1(s, line, line.Comps()), V2(s, line, line.Comps()))
  }

  /** The whole line: its data and the two check symbols stored for it. */
  function Word(s: seq<bv8>, line: Line): seq<bv8>
    requires line.Valid() && |s| >= SECTOR
  {
    LineData(s, line, line.Comps()) + [s[line.At()], s[line.At2()]]
  }

  /** A line is a codeword exactly when its stored check symbols are the computed ones. */
  lemma CodewordIffParity(s: seq<bv8>, line: Line)
    requires line.Valid() && |s| >= SECTOR
    ensures Codeword(Word(s, line)) <==> s[line.At()] == Parity1(s, line) && s[line.At2()] == Parity2(s, line)
  {
    hide Horner, Sum, XTime, Check1, Check2;
    ChecksUnique(LineData(s, line, line.Comps()), s[line.At()], s[line.At2()]);
  }

  /** Every line of the sector is a codeword. */
  ghost predicate AllCodewords(s: seq<bv8>)
    requires |s| >= SECTOR
  {
    forall line: Line :: line.Valid() ==> Codeword(Word(s, line))
  }

  lemma {:induction false} LineDataSame(s: seq<bv8>, t: seq<bv8>, line: Line, n: nat)
    requires line.Valid() && n <= line.Comps() && line.Extent() <= |s| && line.Extent() <= |t|
    requires s[..line.Extent()] == t[..line.Extent()]
    ensures LineData(s, line, n) == LineData(t, line, n)
  {
    if n > 0 {
      LineDataSame(s, t, line, n - 1);
      line.OffsetInExtent(n - 1);
      var o := line.Offset(n - 1);
      assert s[DATA_OFFSET + o] == s[..line.Extent()][DATA_OFFSET + o];
      assert t[DATA_OFFSET + o] == t[..line.Extent()][DATA_OFFSET + o];
      assert s[MODE_OFFSET] == s[..line.Extent()][MODE_OFFSET] == t[..line.Extent()][MODE_OFFSET];
    }
  }

  /** Parity depends only on the bytes before it. */
  lemma ParitySame(s: seq<bv8>, t: seq<bv8>, line: Line)
    requires line.Valid() && line.Extent() <= |s| && line.Extent() <= |t|
    requires s[..line.Extent()] == t[..line.Extent()]
    ensures Parity1(s, line) == Parity1(t, line) && Parity2(s, line) == Parity2(t, line)
  {
    hide Horner, Sum, XTime, Check1, Check2;
    LineDataSame(s, t, line, line.Comps());
  }

  lemma AccumulatorsNext(s: seq<bv8>, line: Line, n: nat)
    requires line.Valid() && n < line.Comps() && line.Extent() <= |s|
    ensures DATA_OFFSET + line.Offset(n) < |s|
    ensures V1(s, line, n + 1) == XTime(Add(V1(s, line, n), Data(s, line.Offset(n))))
    ensures V2(s, line, n + 1) == Add(V2(s, line, n), Data(s, line.Offset(n)))
  {
    hide XTime, Add, Horner, Sum;
    line.OffsetInExtent(n);
    HornerAppend(LineData(s, line, n), Data(s, line.Offset(n)));
  }

  lemma AccumulatorsStart(s: seq<bv8>, line: Line)
    requires line.Valid() && line.Extent() <= |s|
    ensures V1(s, line, 0) == 0 && V2(s, line, 0) == 0
  {
    XTimeZero();
  }

  /** The sector at `base`, before the given end. */
  ghost function At(a: array<bv8>, base: nat, end: nat): seq<bv8>
    requires base + end <= a.Length
    reads a
  {
    a[base..base + end]
  }

  /** Both check symbols of one line, component by component. */
  method ComputeBytes(a: array<bv8>, base: nat, line: Line) returns (val1: bv8, val2: bv8)
    requires line.Valid() && base + SECTOR <= a.Length
    ensures val1 == Parity1(At(a, base, SECTOR), line) && val2 == Parity2(At(a, base, SECTOR), line)
  {
    hide XTime, Add, High, LineData, V1, V2;
    ghost var s := At(a, base, SECTOR);
    var mode2 := a[base + MODE_OFFSET] == 2;
    var v1, v2 := 0, 0;
    AccumulatorsStart(s, line);
    var c := 0;
    while c < line.Comps()
      invariant c <= line.Comps() && v1 == V1(s, line, c) && v2 == V2(s, line, c)
    {
      AccumulatorsNext(s, line, c);
      var offset := line.Offset(c);
      var b := if mode2 && offset < 4 then 0 else a[base + DATA_OFFSET + offset];
      v1 := XTime(Add(v1, b));
      v2 := Add(v2, b);
      c := c + 1;
    }
    v1 := High(Add(XTime(v1), v2));
    val1, val2 := v1, Add(v2, v1);
  }

  /** Checks the stored parity: succeeds exactly on sectors of which every line is a codeword. */
  method Verify(a: array<bv8>, base: nat) returns (ok: bool)
    requires base + SECTOR <= a.Length
    ensures ok <==> AllCodewords(At(a, base, SECTOR))
  {
    hide Codeword, Word, Parity1, Parity2;
    ghost var s := At(a, base, SECTOR);
    var i := 0;
    while i < P_BYTES
      invariant i <= P_BYTES && forall r: nat :: r < i ==> Codeword(Word(s, P(r)))
    {
      var val1, val2 := ComputeBytes(a, base, P(i));
      CodewordIffParity(s, P(i));
      if a[base + P_OFFSET + i] != val1 || a[base + P_OFFSET + P_BYTES + i] != val2 {
        assert P(i).Valid();
        return false;
      }
      i := i + 1;
    }
    i := 0;
    while i < Q_BYTES
      invariant i <= Q_BYTES && forall r: nat :: r < i ==> Codeword(Word(s, Q(r)))
    {
      var val1, val2 := ComputeBytes(a, base, Q(i));
      CodewordIffParity(s, Q(i));
      if a[base + Q_OFFSET + i] != val1 || a[base + Q_OFFSET + Q_BYTES + i] != val2 {
        assert Q(i).Valid();
        return false;
      }
      i := i + 1;
    }
    forall line: Line | line.Valid() ensures Codeword(Word(s, line)) {
      assert line == P(line.r) || line == Q(line.r);
    }
    return true;
  }
}
