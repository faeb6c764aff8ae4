/** Decoding one bucket of the map from byte windows cut out of the blob: the cut, and the fact that
    a decoder in the window moves exactly like one over the whole blob. */
module V5MapWindows {
  import opened Bits
  import opened HuffmanCodes
  import opened V5Map

  /** Hunks between checkpoints. */
  const STRIDE := 2048

  /** Everything needed to resume both passes at a hunk. */
  datatype Checkpoint = Checkpoint(hunknum: nat, types: TypeState, fields: FieldState)

  function CheckpointAt(m: Source, c: nat): Checkpoint
    requires m.par.unitbytes > 0
  {
    Checkpoint(STRIDE * c, Types(m, STRIDE * c), Fields(m, STRIDE * c))
  }

  /** The first hunk outside bucket c. */
  function Boundary(m: Source, c: nat): nat {
    if STRIDE * (c + 1) <= m.par.hunkcount then STRIDE * (c + 1) else m.par.hunkcount
  }

  /** Bytes lo .. hi of the blob, as far as it goes. */
  function Cut(blob: seq<byte>, lo: nat, hi: nat): seq<byte> {
    var end := if hi > |blob| then |blob| else hi;
    if end < lo then [] else blob[lo..end]
  }

  /** A cut shows the blob's bits up to its end, and all of them if it reaches the blob's end. */
  lemma CutAgrees(blob: seq<byte>, lo: nat, hi: nat, limit: nat)
    requires limit <= 8 * hi || |blob| <= hi
    ensures Agree(blob, Cut(blob, lo, hi), 8 * lo, limit, 8 * lo, 0)
  {
    var data := Cut(blob, lo, hi);
    forall j | 8 * lo <= j < limit ensures BitAt(blob, j) == BitAt(data, j - 8 * lo + 0) {
      var end := if hi > |blob| then |blob| else hi;
      if lo <= end && j < 8 * end {
        BitAtSlice(blob, lo, end, j - 8 * lo);
      }
    }
  }

  /** The window serves pass 1 up to hunk b: it shows the bits, and ends no earlier than either the
      blob or the last of those bits. */
  ghost predicate ServesTypes(m: Source, data: seq<byte>, start: nat, b: nat) {
    && Agree(m.blob, data, 8 * start, Types(m, b).pos, 8 * start, 0)
    && (Types(m, b).pos <= 8 * (start + |data|) || |m.blob| <= start + |data|)
  }

  ghost predicate ServesFields(m: Source, data: seq<byte>, start: nat, b: nat)
    requires m.par.unitbytes > 0
  {
    Agree(m.blob, data, 8 * start, Fields(m, b).pos, 8 * start, 0)
  }

  lemma CutServesTypes(m: Source, lo: nat, hi: nat, b: nat)
    requires Types(m, b).pos <= 8 * hi && 8 * lo <= Types(m, b).pos
    ensures ServesTypes(m, Cut(m.blob, lo, hi), lo, b)
  {
    CutAgrees(m.blob, lo, hi, Types(m, b).pos);
  }

  lemma CutServesFields(m: Source, lo: nat, hi: nat, b: nat)
    requires m.par.unitbytes > 0
    requires Fields(m, b).pos <= 8 * hi || |m.blob| <= hi
    ensures ServesFields(m, Cut(m.blob, lo, hi), lo, b)
  {
    CutAgrees(m.blob, lo, hi, Fields(m, b).pos);
  }

  /** In a window, the types of hunk k before its end decode as over the whole blob, and without
      running past the window. */
  lemma TypeInWindow(m: Source, data: seq<byte>, start: nat, b: nat, k: nat, p: nat)
    requires m.Valid() && k < b && ServesTypes(m, data, start, b)
    requires Types(m, k).pos == p + 8 * start && !Stops(Types(m, k), |m.blob|)
    ensures !Stops(Types(m, k).(pos := p), |data|)
    ensures Types(m, k + 1).pos >= 8 * start
    ensures NextType(m.lens, data, Types(m, k).(pos := p)) == Types(m, k + 1).(pos := Types(m, k + 1).pos - 8 * start)
  {
    var s := Types(m, k);
    TypesGrow(m, k, b);
    TypesGrow(m, k, k + 1);
    TypesGrow(m, k + 1, b);
    AgreeFrom(m.blob, data, start, s.pos, Types(m, k + 1).pos, p, Types(m, b).pos);
    NextTypeLocal(m.lens, m.blob, data, s, p);
  }

  lemma NextEntryGrows(par: Params, data: seq<byte>, hunk: nat, kind: nat, f: FieldState)
    requires par.unitbytes > 0
    ensures f.pos <= NextEntry(par, data, hunk, kind, f).1.pos
  {
  }

  lemma FieldsStep(m: Source, k: nat)
    requires m.par.unitbytes > 0
    ensures NextEntry(m.par, m.blob, k, Kind(m, k), Fields(m, k)) == (EntryOf(m, k), Fields(m, k + 1))
    ensures Fields(m, k).pos <= Fields(m, k + 1).pos
  {
    NextEntryGrows(m.par, m.blob, k, Kind(m, k), Fields(m, k));
  }

  lemma {:induction false} FieldsGrow(m: Source, j: nat, k: nat)
    requires m.par.unitbytes > 0 && j <= k
    ensures Fields(m, j).pos <= Fields(m, k).pos
  {
    hide NextType, NextEntry;
    if j < k {
      FieldsGrow(m, j, k - 1);
      FieldsStep(m, k - 1);
    }
  }

  lemma AgreeFrom(d: seq<byte>, e: seq<byte>, start: nat, lo: nat, hi: nat, p: nat, limit: nat)
    requires Agree(d, e, 8 * start, limit, 8 * start, 0) && hi <= limit && lo == p + 8 * start
    ensures Agree(d, e, lo, hi, lo, p)
  {
    forall j | lo <= j < hi ensures BitAt(d, j) == BitAt(e, j - lo + p) {
      assert j - lo + p == j - 8 * start + 0;
    }
  }

  /** Pass 2 for one hunk, given its outcome over the first stream. */
  lemma EntryMoves(par: Params, d: seq<byte>, e: seq<byte>, hunk: nat, kind: nat, f: FieldState, q: nat,
                   r: (Entry, FieldState))
    requires par.unitbytes > 0 && f.pos % 8 == q % 8 && f.pos <= r.1.pos
    requires NextEntry(par, d, hunk, kind, f) == r && Agree(d, e, f.pos, r.1.pos, f.pos, q)
    ensures NextEntry(par, e, hunk, kind, f.(pos := q)) == (r.0, r.1.(pos := r.1.pos - f.pos + q))
  {
    NextEntryLocal(par, d, e, hunk, kind, f, q);
  }

  /** In a window, the fields of hunk k before its end read as over the whole blob. */
  lemma EntryInWindow(m: Source, data: seq<byte>, start: nat, b: nat, k: nat, p: nat)
    requires m.Valid() && k < b && ServesFields(m, data, start, b)
    requires Fields(m, k).pos == p + 8 * start
    ensures Fields(m, k + 1).pos >= 8 * start
    ensures NextEntry(m.par, data, k, Kind(m, k), Fields(m, k).(pos := p))
         == (EntryOf(m, k), Fields(m, k + 1).(pos := Fields(m, k + 1).pos - 8 * start))
  {
    hide NextType, NextEntry;
    FieldsStep(m, k);
    FieldsGrow(m, k + 1, b);
    AgreeFrom(m.blob, data, start, Fields(m, k).pos, Fields(m, k + 1).pos, p, Fields(m, b).pos);
    EntryMoves(m.par, m.blob, data, k, Kind(m, k), Fields(m, k), p, (EntryOf(m, k), Fields(m, k + 1)));
  }

  // ---- the windows of a bucket

  /** The bytes of the blob that pass 1 is given for bucket c. */
  ghost function TypesFrom(m: Source, c: nat): nat {
    Types(m, STRIDE * c).pos / 8
  }

  ghost function TypesWindow(m: Source, c: nat): seq<byte> {
    Cut(m.blob, TypesFrom(m, c), (Types(m, Boundary(m, c)).pos + 7) / 8)
  }

  /** The bytes that pass 2 is given: up to the next bucket, and in the last one all there are. */
  ghost function FieldsFrom(m: Source, c: nat): nat
    requires m.par.unitbytes > 0
  {
    Fields(m, STRIDE * c).pos / 8
  }

  ghost function FieldsWindow(m: Source, c: nat): seq<byte>
    requires m.par.unitbytes > 0
  {
    var end := if STRIDE * (c + 1) < m.par.hunkcount then Fields(m, STRIDE * (c + 1)).pos else 8 * |m.blob|;
    Cut(m.blob, FieldsFrom(m, c), (end + 7) / 8)
  }

  /** The windows serve their bucket. */
  lemma WindowsServe(m: Source, c: nat)
    requires m.par.unitbytes > 0 && STRIDE * c < m.par.hunkcount
    ensures ServesTypes(m, TypesWindow(m, c), TypesFrom(m, c), Boundary(m, c))
    ensures ServesFields(m, FieldsWindow(m, c), FieldsFrom(m, c), Boundary(m, c))
  {
    hide Types, Fields, ServesTypes, ServesFields, Cut;
    var b := Boundary(m, c);
    TypesGrow(m, STRIDE * c, b);
    CutServesTypes(m, TypesFrom(m, c), (Types(m, b).pos + 7) / 8, b);
    var end := if STRIDE * (c + 1) < m.par.hunkcount then Fields(m, STRIDE * (c + 1)).pos else 8 * |m.blob|;
    CutServesFields(m, FieldsFrom(m, c), (end + 7) / 8, b);
  }

  // ---- buckets begin at different bytes

  lemma SymBelow16(lens: seq<nat>, data: seq<byte>, p: nat)
    requires |lens| == NUMCODES
    ensures Sym(lens, data, p) < 16 && p < After(lens, data, p)
  {
    LengthBound(lens, MAXBITS, data, p);
  }

  /** A bit of pass 1 stands for at most 92 hunks: the longest run, of 274, takes three symbols. */
  lemma HunksPerBit(lens: seq<nat>, data: seq<byte>, s: TypeState)
    requires |lens| == NUMCODES
    ensures var t := NextType(lens, data, s);
            && 1 + t.repcount <= 92 * (t.pos - s.pos) + s.repcount
            && (s.repcount <= 273 ==> t.repcount <= 273)
  {
    hide Symbol, Length;
    if s.repcount == 0 {
      var p1 := After(lens, data, s.pos);
      SymBelow16(lens, data, s.pos);
      SymBelow16(lens, data, p1);
      SymBelow16(lens, data, After(lens, data, p1));
    }
  }

  lemma {:induction false} RunsAreShort(m: Source, k: nat)
    requires |m.lens| == NUMCODES
    ensures Types(m, k).repcount <= 273
  {
    hide NextType;
    if k > 0 {
      RunsAreShort(m, k - 1);
      HunksPerBit(m.lens, m.blob, Types(m, k - 1));
    }
  }

  lemma {:induction false} HunksPerBits(m: Source, j: nat, k: nat)
    requires |m.lens| == NUMCODES && j <= k
    ensures k - j + Types(m, k).repcount <= 92 * (Types(m, k).pos - Types(m, j).pos) + Types(m, j).repcount
  {
    hide NextType;
    if j < k {
      HunksPerBits(m, j, k - 1);
      HunksPerBit(m.lens, m.blob, Types(m, k - 1));
    }
  }

  /** A later bucket begins at a later byte. */
  lemma BucketsApart(m: Source, c: nat, d: nat)
    requires |m.lens| == NUMCODES && c < d
    ensures TypesFrom(m, c) < TypesFrom(m, d)
  {
    hide Types;
    RunsAreShort(m, STRIDE * c);
    HunksPerBits(m, STRIDE * c, STRIDE * d);
  }
}
