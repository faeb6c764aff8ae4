/** The version 5 hunk map as a pure function of the compressed blob: pass 1 yields a compression
    type for every hunk, pass 2 its length, offset and checksum. */
module V5Map {
  import opened Bits
  import opened BitstreamModule
  import opened HuffmanCodes

  // The codes the map uses for hunk types.
  const TYPE_3 := 3
  const NONE := 4
  const SELF := 5
  const PARENT := 6
  const RLE_SMALL := 7
  const RLE_LARGE := 8
  const SELF_0 := 9
  const SELF_1 := 10
  const PARENT_SELF := 11
  const PARENT_0 := 12
  const PARENT_1 := 13

  /** The type code has 16 symbols of at most 8 bits. */
  const NUMCODES := 16
  const MAXBITS := 8

  const TWO32 := 0x1_0000_0000
  const TWO64 := 0x1_0000_0000_0000_0000

  /** The header fields the map depends on. */
  datatype Params = Params(hunkcount: nat, hunkbytes: nat, unitbytes: nat, firstoffs: nat,
                           lengthbits: nat, selfbits: nat, parentbits: nat)
  {
    /** What opening the file has already checked. */
    predicate Valid() {
      && hunkcount < TWO32 && hunkbytes < TWO32 && 0 < unitbytes < TWO32 && firstoffs < TWO64
      && lengthbits <= 32 && selfbits <= 32 && parentbits <= 32
    }
  }

  /** Pass 1 between two hunks. */
  datatype TypeState = TypeState(pos: nat, lastcomp: nat, repcount: nat)

  /** Pass 2 between two hunks. */
  datatype FieldState = FieldState(pos: nat, curoffset: nat, lastSelf: nat, lastParent: nat)

  datatype Entry = Entry(kind: nat, length: nat, offset: nat, crc: nat)

  /** The compressed map: its bytes, parameters, code lengths, and the bit where the types begin. */
  datatype Source = Source(blob: seq<byte>, par: Params, lens: seq<nat>, treeEnd: nat)
  {
    ghost predicate Valid() {
      && par.Valid()
      && |lens| == NUMCODES && Accepted(lens, MAXBITS)
    }
  }

  function Sym(lens: seq<nat>, data: seq<byte>, p: nat): nat {
    Symbol(lens, MAXBITS, data, p)
  }

  /** The position after the symbol at p. */
  function After(lens: seq<nat>, data: seq<byte>, p: nat): nat {
    p + Length(lens, MAXBITS, data, p)
  }

  /** A run symbol's count of further hunks, read from p on, and where it ends. */
  function RunCount(lens: seq<nat>, data: seq<byte>, v: nat, p: nat): (nat, nat) {
    if v == RLE_SMALL then (2 + Sym(lens, data, p), After(lens, data, p))
    else
      var q := After(lens, data, p);
      (18 + 16 * Sym(lens, data, p) + Sym(lens, data, q), After(lens, data, q))
  }

  predicate IsRun(v: nat) {
    v == RLE_SMALL || v == RLE_LARGE
  }

  /** The types of one hunk: a pending repeat, a literal type, or a new run of the last one. The
      hunk's own type is the `lastcomp` of the result. */
  function NextType(lens: seq<nat>, data: seq<byte>, s: TypeState): TypeState {
    if s.repcount > 0 then s.(repcount := s.repcount - 1)
    else
      var v, p1 := Sym(lens, data, s.pos), After(lens, data, s.pos);
      if IsRun(v) then
        var (count, q) := RunCount(lens, data, v, p1);
        TypeState(q, s.lastcomp, count)
      else TypeState(p1, v, 0)
  }

  predicate RunCovered(lens: seq<nat>, data: seq<byte>, v: nat, p: nat) {
    Covered(lens, MAXBITS, data, p) && (v == RLE_LARGE ==> Covered(lens, MAXBITS, data, After(lens, data, p)))
  }

  /** Every symbol read for the next hunk has a code. */
  predicate CoveredNext(lens: seq<nat>, data: seq<byte>, s: TypeState) {
    s.repcount == 0 ==>
      var v, p1 := Sym(lens, data, s.pos), After(lens, data, s.pos);
      Covered(lens, MAXBITS, data, s.pos) && (IsRun(v) ==> RunCovered(lens, data, v, p1))
  }

  /** Decoding stops with an error when a symbol is needed past the end of the data. */
  predicate Stops(s: TypeState, bytes: nat) {
    s.repcount == 0 && s.pos > 8 * bytes
  }

  /** The width-limited field read of pass 2. */
  function Field(data: seq<byte>, p: nat, n: nat): nat {
    PeekValue(data, p, n)
  }

  /** Pass 2 for one hunk of the given type. */
  function NextEntry(par: Params, data: seq<byte>, hunk: nat, kind: nat, f: FieldState): (Entry, FieldState)
    requires par.unitbytes > 0
  {
    if kind <= TYPE_3 then
      var length := Field(data, f.pos, par.lengthbits);
      (Entry(kind, length, f.curoffset, Field(data, f.pos + par.lengthbits, 16)),
       f.(pos := f.pos + par.lengthbits + 16, curoffset := (f.curoffset + length) % TWO64))
    else if kind == NONE then
      (Entry(kind, par.hunkbytes, f.curoffset, Field(data, f.pos, 16)),
       f.(pos := f.pos + 16, curoffset := (f.curoffset + par.hunkbytes) % TWO64))
    else if kind == SELF then
      var offset := Field(data, f.pos, par.selfbits);
      (Entry(SELF, 0, offset, 0), f.(pos := f.pos + par.selfbits, lastSelf := offset))
    else if kind == PARENT then
      var offset := Field(data, f.pos, par.parentbits);
      (Entry(PARENT, 0, offset, 0), f.(pos := f.pos + par.parentbits, lastParent := offset))
    else if kind == SELF_1 then
      var next := (f.lastSelf + 1) % TWO32;
      (Entry(SELF, 0, next, 0), f.(lastSelf := next))
    else if kind == SELF_0 then
      (Entry(SELF, 0, f.lastSelf, 0), f)
    else if kind == PARENT_SELF then
      var offset := ParentUnit(par, hunk);
      (Entry(PARENT, 0, offset, 0), f.(lastParent := offset))
    else if kind == PARENT_1 then
      var next := (f.lastParent + par.hunkbytes / par.unitbytes) % TWO64;
      (Entry(PARENT, 0, next, 0), f.(lastParent := next))
    else if kind == PARENT_0 then
      (Entry(PARENT, 0, f.lastParent, 0), f)
    else
      (Entry(kind, 0, f.curoffset, 0), f)
  }

  /** The unit of the parent at which a hunk's own position lies. */
  function ParentUnit(par: Params, hunk: nat): nat
    requires par.unitbytes > 0
  {
    (hunk * par.hunkbytes) / par.unitbytes
  }

  // ---- whole passes

  /** Pass 1 before hunk k. */
  function Types(m: Source, k: nat): TypeState {
    if k == 0 then TypeState(m.treeEnd, 0, 0) else NextType(m.lens, m.blob, Types(m, k - 1))
  }

  /** The type of hunk k as pass 1 reads it. */
  function Kind(m: Source, k: nat): nat {
    Types(m, k + 1).lastcomp
  }

  /** Pass 2 before hunk k; it starts where pass 1 ends. */
  function Fields(m: Source, k: nat): FieldState
    requires m.par.unitbytes > 0
  {
    if k == 0 then FieldState(Types(m, m.par.hunkcount).pos, m.par.firstoffs, 0, 0)
    else NextEntry(m.par, m.blob, k - 1, Kind(m, k - 1), Fields(m, k - 1)).1
  }

  /** The map entry of hunk k. */
  function EntryOf(m: Source, k: nat): Entry
    requires m.par.unitbytes > 0
  {
    NextEntry(m.par, m.blob, k, Kind(m, k), Fields(m, k)).0
  }

  /** Pass 1 reads no symbol past the end of the blob. */
  ghost predicate TypesInside(m: Source, n: nat) {
    forall k: nat :: k < n ==> !Stops(Types(m, k), |m.blob|)
  }

  /** Pass 1 meets only codes that are assigned. */
  ghost predicate TypesCovered(m: Source, n: nat) {
    forall k: nat :: k < n ==> CoveredNext(m.lens, m.blob, Types(m, k))
  }

  // ---- serialised entries

  function ByteOf(x: nat, d: nat): byte
    requires d > 0
  {
    (x / d) % 256
  }

  /** The 12 bytes of an entry: type, 24-bit length, 48-bit offset, checksum, most significant first. */
  function EntryBytes(e: Entry): (s: seq<byte>)
    ensures |s| == 12
  {
    [ ByteOf(e.kind, 1),
      ByteOf(e.length, 0x1_0000), ByteOf(e.length, 0x100), ByteOf(e.length, 1),
      ByteOf(e.offset, 0x100_0000_0000), ByteOf(e.offset, 0x1_0000_0000), ByteOf(e.offset, 0x100_0000),
      ByteOf(e.offset, 0x1_0000), ByteOf(e.offset, 0x100), ByteOf(e.offset, 1),
      ByteOf(e.crc, 0x100), ByteOf(e.crc, 1) ]
  }

  /** The first n entries of the map, serialised. */
  function MapBytes(m: Source, n: nat): (s: seq<byte>)
    requires m.par.unitbytes > 0
    ensures |s| == 12 * n
  {
    if n == 0 then [] else MapBytes(m, n - 1) + EntryBytes(EntryOf(m, n - 1))
  }

  /** Entry h occupies bytes 12h .. 12h + 12 of the map. */
  lemma {:induction false} MapBytesAt(m: Source, n: nat, h: nat)
    requires m.par.unitbytes > 0 && h < n
    ensures MapBytes(m, n)[12 * h..12 * h + 12] == EntryBytes(EntryOf(m, h))
  {
    hide EntryOf, EntryBytes;
    if h < n - 1 {
      MapBytesAt(m, n - 1, h);
      assert MapBytes(m, n)[12 * h..12 * h + 12] == MapBytes(m, n - 1)[12 * h..12 * h + 12];
    }
  }

  // ---- locality

  lemma NextTypeGrows(lens: seq<nat>, data: seq<byte>, s: TypeState)
    ensures s.pos <= NextType(lens, data, s).pos
  {
  }

  lemma {:induction false} TypesGrow(m: Source, j: nat, k: nat)
    requires j <= k
    ensures Types(m, j).pos <= Types(m, k).pos
  {
    if j < k {
      TypesGrow(m, j, k - 1);
      NextTypeGrows(m.lens, m.blob, Types(m, k - 1));
    }
  }

  /** The two streams agree on bits lo .. hi of the first, q - p apart. */
  ghost predicate Agree(d: seq<byte>, e: seq<byte>, lo: nat, hi: nat, p: nat, q: nat)
    requires p <= lo
  {
    forall j :: lo <= j < hi ==> BitAt(d, j) == BitAt(e, j - p + q)
  }

  /** One symbol depends only on the bits it consumes. */
  lemma SymLocal(lens: seq<nat>, d: seq<byte>, e: seq<byte>, p: nat, q: nat, x: nat, hi: nat)
    requires Accepted(lens, MAXBITS) && p <= x && Agree(d, e, x, hi, p, q) && After(lens, d, x) <= hi
    ensures Sym(lens, e, x - p + q) == Sym(lens, d, x)
    ensures After(lens, e, x - p + q) == After(lens, d, x) - p + q
    ensures Covered(lens, MAXBITS, e, x - p + q) == Covered(lens, MAXBITS, d, x)
  {
    var y := x - p + q;
    forall j | x <= j < x + Length(lens, MAXBITS, d, x) ensures BitAt(d, j) == BitAt(e, j - x + y) {
      assert j - x + y == j - p + q;
    }
    DecodeLocal(lens, MAXBITS, d, x, e, y);
  }

  /** Pass 1 for one hunk depends only on the bits it consumes. */
  lemma NextTypeLocal(lens: seq<nat>, d: seq<byte>, e: seq<byte>, s: TypeState, q: nat)
    requires Accepted(lens, MAXBITS) && Agree(d, e, s.pos, NextType(lens, d, s).pos, s.pos, q)
    ensures NextType(lens, e, s.(pos := q)) == NextType(lens, d, s).(pos := NextType(lens, d, s).pos - s.pos + q)
  {
    if s.repcount == 0 {
      var p, hi := s.pos, NextType(lens, d, s).pos;
      var v, p1 := Sym(lens, d, p), After(lens, d, p);
      SymLocal(lens, d, e, p, q, p, hi);
      if v == RLE_SMALL || v == RLE_LARGE {
        SymLocal(lens, d, e, p, q, p1, hi);
        if v == RLE_LARGE {
          SymLocal(lens, d, e, p, q, After(lens, d, p1), hi);
        }
      }
    }
  }

  lemma FieldLocal(d: seq<byte>, e: seq<byte>, p: nat, q: nat, x: nat, n: nat, hi: nat)
    requires p <= x && p % 8 == q % 8 && Agree(d, e, x, hi, p, q) && x + n <= hi
    ensures Field(e, x - p + q, n) == Field(d, x, n)
  {
    var y := x - p + q;
    forall j | x <= j < x + n ensures BitAt(d, j) == BitAt(e, j - x + y) {
      assert j - x + y == j - p + q;
    }
    PeekAgree(d, e, x, y, n);
  }

  /** Pass 2 for one hunk depends only on the bits it consumes and on where they lie in a byte. */
  lemma NextEntryLocal(par: Params, d: seq<byte>, e: seq<byte>, hunk: nat, kind: nat, f: FieldState, q: nat)
    requires par.unitbytes > 0 && f.pos % 8 == q % 8
    requires Agree(d, e, f.pos, NextEntry(par, d, hunk, kind, f).1.pos, f.pos, q)
    ensures var (x, g) := NextEntry(par, d, hunk, kind, f);
            NextEntry(par, e, hunk, kind, f.(pos := q)) == (x, g.(pos := g.pos - f.pos + q))
  {
    var p, hi := f.pos, NextEntry(par, d, hunk, kind, f).1.pos;
    if kind <= TYPE_3 {
      FieldLocal(d, e, p, q, p, par.lengthbits, hi);
      FieldLocal(d, e, p, q, p + par.lengthbits, 16, hi);
      assert p + par.lengthbits - p + q == q + par.lengthbits;
    } else if kind == NONE {
      FieldLocal(d, e, p, q, p, 16, hi);
    } else if kind == SELF {
      FieldLocal(d, e, p, q, p, par.selfbits, hi);
    } else if kind == PARENT {
      FieldLocal(d, e, p, q, p, par.parentbits, hi);
    }
  }
}
