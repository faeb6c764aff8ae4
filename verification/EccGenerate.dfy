/** Filling in the parity of a sector: the sector the parity makes of its data, and the in-place
    generator with its four-rows-at-once P loop. */
module EccGenerateModule {
  import opened Gf256
  import opened EccSwar
  import opened Ecc

  function PFill(s: seq<bv8>): (r: seq<bv8>)
    requires |s| >= P_OFFSET
    ensures |r| == 2 * P_BYTES
  {
    seq(P_BYTES, r requires 0 <= r < P_BYTES => Parity1(s, P(r)))
    + seq(P_BYTES, r requires 0 <= r < P_BYTES => Parity2(s, P(r)))
  }

  function QFill(s: seq<bv8>): (r: seq<bv8>)
    requires |s| >= Q_OFFSET
    ensures |r| == 2 * Q_BYTES
  {
    seq(Q_BYTES, r requires 0 <= r < Q_BYTES => Parity1(s, Q(r)))
    + seq(Q_BYTES, r requires 0 <= r < Q_BYTES => Parity2(s, Q(r)))
  }

  /** The sector with its P parity computed from the data, then its Q parity from data and P. */
  function Filled(s: seq<bv8>): (t: seq<bv8>)
    requires |s| == SECTOR
    ensures |t| == SECTOR
  {
    var p := s[..P_OFFSET] + PFill(s);
    p + QFill(p)
  }

  /** The check symbols stored for a line are the computed ones. */
  ghost predicate Stored(s: seq<bv8>, line: Line)
    requires line.Valid() && |s| >= SECTOR
  {
    s[line.At()] == Parity1(s, line) && s[line.At2()] == Parity2(s, line)
  }

  ghost predicate AllStored(s: seq<bv8>)
    requires |s| >= SECTOR
  {
    && (forall r: nat :: r < P_BYTES ==> Stored(s, P(r)))
    && (forall r: nat :: r < Q_BYTES ==> Stored(s, Q(r)))
  }

  lemma AllStoredIff(s: seq<bv8>)
    requires |s| >= SECTOR
    ensures AllCodewords(s) <==> AllStored(s)
  {
    hide Codeword, Word, Parity1, Parity2;
    forall line: Line | line.Valid() ensures Codeword(Word(s, line)) <==> Stored(s, line) {
      CodewordIffParity(s, line);
    }
    assert forall line: Line :: line == P(line.r) || line == Q(line.r);
    assert forall r: nat :: r < P_BYTES ==> P(r).Valid();
    assert forall r: nat :: r < Q_BYTES ==> Q(r).Valid();
  }

  lemma PFillAt(s: seq<bv8>, r: nat)
    requires |s| >= P_OFFSET && r < P_BYTES
    ensures PFill(s)[r] == Parity1(s, P(r)) && PFill(s)[P_BYTES + r] == Parity2(s, P(r))
  {
    hide Parity1, Parity2;
  }

  lemma QFillAt(s: seq<bv8>, r: nat)
    requires |s| >= Q_OFFSET && r < Q_BYTES
    ensures QFill(s)[r] == Parity1(s, Q(r)) && QFill(s)[Q_BYTES + r] == Parity2(s, Q(r))
  {
    hide Parity1, Parity2;
  }

  lemma AppendAt(a: seq<bv8>, b: seq<bv8>, n: nat, i: nat)
    requires n == |a| && i < |b|
    ensures (a + b)[n + i] == b[i]
  {
  }

  lemma AppendPrefix(a: seq<bv8>, b: seq<bv8>, n: nat)
    requires n <= |a|
    ensures (a + b)[..n] == a[..n]
  {
  }

  lemma FilledP(s: seq<bv8>, r: nat)
    requires |s| == SECTOR && r < P_BYTES
    ensures Stored(Filled(s), P(r))
  {
    hide Parity1, Parity2, QFill, PFill;
    var d := s[..P_OFFSET];
    var p, q := d + PFill(s), QFill(d + PFill(s));
    assert Filled(s) == p + q == d + (PFill(s) + q);
    AppendPrefix(d, PFill(s) + q, P_OFFSET);
    ParitySame(s, Filled(s), P(r));
    PFillAt(s, r);
    AppendAt(d, PFill(s) + q, P_OFFSET, r);
    AppendAt(d, PFill(s) + q, P_OFFSET, P_BYTES + r);
  }

  lemma FilledQ(s: seq<bv8>, r: nat)
    requires |s| == SECTOR && r < Q_BYTES
    ensures Stored(Filled(s), Q(r))
  {
    hide Parity1, Parity2, QFill, PFill;
    var p := s[..P_OFFSET] + PFill(s);
    assert Filled(s) == p + QFill(p);
    AppendPrefix(p, QFill(p), Q_OFFSET);
    assert p[..Q_OFFSET] == p;
    ParitySame(p, Filled(s), Q(r));
    QFillAt(p, r);
    AppendAt(p, QFill(p), Q_OFFSET, r);
    AppendAt(p, QFill(p), Q_OFFSET, Q_BYTES + r);
  }

  /** Every line of a filled sector is a codeword, whatever the sector held before. */
  lemma FilledIsCodeword(s: seq<bv8>)
    requires |s| == SECTOR
    ensures AllCodewords(Filled(s)) && Filled(s)[..P_OFFSET] == s[..P_OFFSET]
  {
    hide Parity1, Parity2, PFill, QFill, Stored;
    forall r: nat | r < P_BYTES ensures Stored(Filled(s), P(r)) { FilledP(s, r); }
    forall r: nat | r < Q_BYTES ensures Stored(Filled(s), Q(r)) { FilledQ(s, r); }
    AllStoredIff(Filled(s));
  }

  lemma SameP(s: seq<bv8>, t: seq<bv8>)
    requires |s| == |t| == SECTOR && s[..P_OFFSET] == t[..P_OFFSET] && AllStored(t)
    ensures t[..Q_OFFSET] == s[..P_OFFSET] + PFill(s)
  {
    hide Parity1, Parity2;
    var p := s[..P_OFFSET] + PFill(s);
    forall i | 0 <= i < Q_OFFSET ensures t[i] == p[i] {
      if i < P_OFFSET {
        assert t[..P_OFFSET][i] == s[..P_OFFSET][i];
      } else if i < P_OFFSET + P_BYTES {
        var r := i - P_OFFSET;
        assert Stored(t, P(r));
        ParitySame(s, t, P(r));
      } else {
        var r := i - P_OFFSET - P_BYTES;
        assert Stored(t, P(r));
        ParitySame(s, t, P(r));
      }
    }
  }

  lemma SameQ(t: seq<bv8>)
    requires |t| == SECTOR && AllStored(t)
    ensures t == t[..Q_OFFSET] + QFill(t[..Q_OFFSET])
  {
    hide Parity1, Parity2;
    var p := t[..Q_OFFSET];
    assert p[..Q_OFFSET] == p;
    var u := p + QFill(p);
    forall i | 0 <= i < SECTOR ensures t[i] == u[i] {
      if Q_OFFSET <= i < Q_OFFSET + Q_BYTES {
        var r := i - Q_OFFSET;
        assert Stored(t, Q(r));
        ParitySame(p, t, Q(r));
      } else if Q_OFFSET <= i {
        var r := i - Q_OFFSET - Q_BYTES;
        assert Stored(t, Q(r));
        ParitySame(p, t, Q(r));
      }
    }
  }

  /** The filled sector is the only sector with the same data of which every line is a codeword. */
  lemma FilledUnique(s: seq<bv8>, t: seq<bv8>)
    requires |s| == |t| == SECTOR
    ensures t == Filled(s) <==> s[..P_OFFSET] == t[..P_OFFSET] && AllCodewords(t)
  {
    hide AllStored, AllCodewords, PFill, QFill;
    FilledIsCodeword(s);
    AllStoredIff(t);
    if s[..P_OFFSET] == t[..P_OFFSET] && AllCodewords(t) {
      SameP(s, t);
      SameQ(t);
    }
  }

  // ---- in place

  /** Nothing but the given range of the array changed. */
  twostate predicate OnlyRange(a: array<bv8>, lo: nat, hi: nat)
    reads a
  {
    forall i :: 0 <= i < a.Length && !(lo <= i < hi) ==> a[i] == old(a[i])
  }

  /** The four words of a group after c components hold the accumulators of its four rows. */
  ghost predicate GroupAt(s: seq<bv8>, row: nat, c: nat, v1: bv32, v2: bv32)
    requires |s| >= SECTOR && row + 4 <= P_BYTES && c <= P_COMP
  {
    forall k: nat :: k < 4 ==> Lane(v1, k) == V1(s, P(row + k), c) && Lane(v2, k) == V2(s, P(row + k), c)
  }

  lemma GroupStart(s: seq<bv8>, row: nat)
    requires |s| >= SECTOR && row + 4 <= P_BYTES
    ensures GroupAt(s, row, 0, 0, 0)
  {
    hide V1, V2, Lane;
    forall k: nat | k < 4 ensures Lane(0, k) == V1(s, P(row + k), 0) == V2(s, P(row + k), 0) {
      ZeroLane(k);
      AccumulatorsStart(s, P(row + k));
    }
  }

  /** The word of one component: the group's four symbols, with the source's mask for mode 2. */
  function GroupWord(s: seq<bv8>, row: nat, c: nat): bv32
    requires |s| >= SECTOR && row + 4 <= P_BYTES && c < P_COMP
  {
    var q := DATA_OFFSET + row + P_BYTES * c;
    if s[MODE_OFFSET] == 2 && row == 0 && c == 0 then 0 else Pack(s[q], s[q + 1], s[q + 2], s[q + 3])
  }

  /** The mask of the first group's first component is the rule that the header counts as zero. */
  lemma GroupWordLane(s: seq<bv8>, row: nat, c: nat, k: nat)
    requires |s| >= SECTOR && row + 4 <= P_BYTES && c < P_COMP && k < 4 && row % 4 == 0
    ensures DATA_OFFSET + P(row + k).Offset(c) < |s|
    ensures Lane(GroupWord(s, row, c), k) == Data(s, P(row + k).Offset(c))
  {
    hide Pack, Lane;
    var q := DATA_OFFSET + row + P_BYTES * c;
    LaneOffset(row, c, k);
    if s[MODE_OFFSET] == 2 && row == 0 && c == 0 {
      ZeroLane(k);
    } else {
      PackLane(s[q], s[q + 1], s[q + 2], s[q + 3], k);
      FourAt(s, q, k);
    }
  }

  /** Only the first group's first component lies in the header. */
  lemma LaneOffset(row: nat, c: nat, k: nat)
    requires row + 4 <= P_BYTES && c < P_COMP && k < 4 && row % 4 == 0
    ensures P(row + k).Offset(c) == row + P_BYTES * c + k < P_OFFSET - DATA_OFFSET
    ensures row + P_BYTES * c + k < 4 <==> row == 0 && c == 0
  {
  }

  lemma FourAt(s: seq<bv8>, q: nat, k: nat)
    requires q + 4 <= |s| && k < 4
    ensures [s[q], s[q + 1], s[q + 2], s[q + 3]][k] == s[q + k]
  {
  }

  lemma GroupStep(s: seq<bv8>, row: nat, c: nat, v1: bv32, v2: bv32)
    requires |s| >= SECTOR && row + 4 <= P_BYTES && c < P_COMP && row % 4 == 0
    requires GroupAt(s, row, c, v1, v2)
    ensures GroupAt(s, row, c + 1, XTime4(Add4(v1, GroupWord(s, row, c))), Add4(v2, GroupWord(s, row, c)))
  {
    hide V1, V2, Lane, XTime, Add, XTime4, Add4, GroupWord;
    var x := GroupWord(s, row, c);
    forall k: nat | k < 4
      ensures Lane(XTime4(Add4(v1, x)), k) == V1(s, P(row + k), c + 1)
      ensures Lane(Add4(v2, x), k) == V2(s, P(row + k), c + 1)
    {
      AccumulatorsNext(s, P(row + k), c);
      GroupWordLane(s, row, c, k);
      Add4Lane(v1, x, k);
      Add4Lane(v2, x, k);
      XTime4Lane(Add4(v1, x), k);
    }
  }

  /** The two words hold the check symbols of the four rows from `row`. */
  ghost predicate GroupParity(s: seq<bv8>, row: nat, w: bv32, out: bv32)
    requires |s| >= P_OFFSET && row + 4 <= P_BYTES
  {
    forall k: nat :: k < 4 ==> Lane(w, k) == Parity1(s, P(row + k)) && Lane(out, k) == Parity2(s, P(row + k))
  }

  lemma GroupFinish(s: seq<bv8>, row: nat, v1: bv32, v2: bv32, w: bv32)
    requires |s| >= SECTOR && row + 4 <= P_BYTES && GroupAt(s, row, P_COMP, v1, v2)
    requires w == Pack(Check1(Lane0(v1), Lane0(v2)), Check1(Lane1(v1), Lane1(v2)),
                       Check1(Lane2(v1), Lane2(v2)), Check1(Lane3(v1), Lane3(v2)))
    ensures GroupParity(s, row, w, Add4(v2, w))
  {
    hide V1, V2, Lane0, Lane1, Lane2, Lane3, Check1, Add, Add4, Pack;
    forall k: nat | k < 4 ensures Lane(w, k) == Parity1(s, P(row + k)) && Lane(Add4(v2, w), k) == Parity2(s, P(row + k)) {
      PackLane(Check1(Lane0(v1), Lane0(v2)), Check1(Lane1(v1), Lane1(v2)),
               Check1(Lane2(v1), Lane2(v2)), Check1(Lane3(v1), Lane3(v2)), k);
      Add4Lane(v2, w, k);
      assert Lane(w, k) == Check1(Lane(v1, k), Lane(v2, k));
    }
  }

  /** The check symbols of four neighbouring rows, one word-wide step per component. */
  method PGroup(a: array<bv8>, base: nat, mode2: bool, row: nat) returns (w: bv32, out: bv32)
    requires base + SECTOR <= a.Length && row + 4 <= P_BYTES && row % 4 == 0
    requires mode2 <==> a[base + MODE_OFFSET] == 2
    ensures GroupParity(At(a, base, SECTOR), row, w, out)
  {
    hide GroupAt, XTime4, Add4, Pack, Lane, Lane0, Lane1, Lane2, Lane3, High, XTime, Add, Parity1, Parity2;
    ghost var s := At(a, base, SECTOR);
    var v1, v2 := 0, 0;
    GroupStart(s, row);
    var c := 0;
    while c < P_COMP
      invariant c <= P_COMP && GroupAt(s, row, c, v1, v2)
    {
      GroupStep(s, row, c, v1, v2);
      var q := base + DATA_OFFSET + row + P_BYTES * c;
      var x := if mode2 && row == 0 && c == 0 then 0 else Pack(a[q], a[q + 1], a[q + 2], a[q + 3]);
      v1 := XTime4(Add4(v1, x));
      v2 := Add4(v2, x);
      c := c + 1;
    }
    w := Pack(High(Add(XTime(Lane0(v1)), Lane0(v2))), High(Add(XTime(Lane1(v1)), Lane1(v2))),
              High(Add(XTime(Lane2(v1)), Lane2(v2))), High(Add(XTime(Lane3(v1)), Lane3(v2))));
    GroupFinish(s, row, v1, v2, w);
    out := Add4(v2, w);
  }

  /** The check symbols of the first n rows of P are in place, for the data of s. */
  ghost predicate PDone(a: array<bv8>, base: nat, s: seq<bv8>, n: nat)
    requires base + SECTOR <= a.Length && |s| == SECTOR && n <= P_BYTES
    reads a
  {
    forall r: nat :: r < n ==>
      a[base + P_OFFSET + r] == Parity1(s, P(r)) && a[base + P_OFFSET + P_BYTES + r] == Parity2(s, P(r))
  }

  ghost predicate QDone(a: array<bv8>, base: nat, s: seq<bv8>, n: nat)
    requires base + SECTOR <= a.Length && |s| >= Q_OFFSET && n <= Q_BYTES
    reads a
  {
    forall r: nat :: r < n ==>
      a[base + Q_OFFSET + r] == Parity1(s, Q(r)) && a[base + Q_OFFSET + Q_BYTES + r] == Parity2(s, Q(r))
  }

  lemma GroupParitySame(s: seq<bv8>, t: seq<bv8>, row: nat, w: bv32, out: bv32)
    requires |s| >= P_OFFSET && |t| >= P_OFFSET && row + 4 <= P_BYTES
    requires s[..P_OFFSET] == t[..P_OFFSET] && GroupParity(s, row, w, out)
    ensures GroupParity(t, row, w, out)
  {
    hide Parity1, Parity2, Lane;
    forall k: nat | k < 4
      ensures Lane(w, k) == Parity1(t, P(row + k)) && Lane(out, k) == Parity2(t, P(row + k))
    {
      ParitySame(s, t, P(row + k));
    }
  }

  /** Writes a word lane by lane. */
  method StoreWord(a: array<bv8>, p: nat, w: bv32)
    requires p + 4 <= a.Length
    modifies a
    ensures forall k: nat :: k < 4 ==> a[p + k] == Lane(w, k)
    ensures OnlyRange(a, p, p + 4)
  {
    hide Lane0, Lane1, Lane2, Lane3;
    a[p], a[p + 1], a[p + 2], a[p + 3] := Lane0(w), Lane1(w), Lane2(w), Lane3(w);
  }

  /** Writes the check symbols of four rows. */
  method StoreGroup(a: array<bv8>, base: nat, row: nat, w: bv32, out: bv32, ghost s: seq<bv8>)
    requires base + SECTOR <= a.Length && |s| == SECTOR && row + 4 <= P_BYTES
    requires GroupParity(s, row, w, out) && PDone(a, base, s, row)
    modifies a
    ensures PDone(a, base, s, row + 4)
    ensures OnlyRange(a, base + P_OFFSET, base + Q_OFFSET)
  {
    hide Parity1, Parity2, Lane;
    StoreWord(a, base + P_OFFSET + row, w);
    StoreWord(a, base + P_OFFSET + P_BYTES + row, out);
    forall r: nat | r < row + 4
      ensures a[base + P_OFFSET + r] == Parity1(s, P(r)) && a[base + P_OFFSET + P_BYTES + r] == Parity2(s, P(r))
    {
      if r >= row {
        var k := r - row;
        assert P(row + k) == P(r) && Lane(w, k) == Parity1(s, P(r)) && Lane(out, k) == Parity2(s, P(r));
      }
    }
  }

  /** Changes behind the first `len` bytes of the sector leave these alone. */
  lemma PrefixKept(before: seq<bv8>, after: seq<bv8>, base: nat, len: nat, lo: nat, hi: nat)
    requires |before| == |after| && base + SECTOR <= |before| && len <= SECTOR && base + len <= lo
    requires forall i :: 0 <= i < |before| && !(lo <= i < hi) ==> after[i] == before[i]
    ensures after[base..base + SECTOR][..len] == before[base..base + SECTOR][..len]
  {
  }

  /** The P parity in place: four rows at a time, then the rows left over. */
  method PGenerate(a: array<bv8>, base: nat, mode2: bool)
    requires base + SECTOR <= a.Length
    requires mode2 <==> a[base + MODE_OFFSET] == 2
    modifies a
    ensures PDone(a, base, old(At(a, base, SECTOR)), P_BYTES)
    ensures OnlyRange(a, base + P_OFFSET, base + Q_OFFSET)
  {
    hide Parity1, Parity2, GroupParity;
    ghost var s, before := At(a, base, SECTOR), a[..];
    var row := 0;
    while row + 4 <= P_BYTES
      invariant row <= P_BYTES && row % 4 == 0 && PDone(a, base, s, row)
      invariant OnlyRange(a, base + P_OFFSET, base + Q_OFFSET)
    {
      PrefixKept(before, a[..], base, P_OFFSET, base + P_OFFSET, base + Q_OFFSET);
      var w, out := PGroup(a, base, mode2, row);
      GroupParitySame(At(a, base, SECTOR), s, row, w, out);
      StoreGroup(a, base, row, w, out, s);
      row := row + 4;
    }
    PrefixKept(before, a[..], base, P_OFFSET, base + P_OFFSET, base + Q_OFFSET);
    PTail(a, base, row, s);
  }

  /** The rows from `row` on, one by one. */
  method PTail(a: array<bv8>, base: nat, first: nat, ghost s: seq<bv8>)
    requires base + SECTOR <= a.Length && |s| == SECTOR && first <= P_BYTES && PDone(a, base, s, first)
    requires At(a, base, SECTOR)[..P_OFFSET] == s[..P_OFFSET]
    modifies a
    ensures PDone(a, base, s, P_BYTES) && OnlyRange(a, base + P_OFFSET, base + Q_OFFSET)
  {
    hide Parity1, Parity2;
    ghost var before := a[..];
    var row := first;
    while row < P_BYTES
      invariant row <= P_BYTES && PDone(a, base, s, row)
      invariant OnlyRange(a, base + P_OFFSET, base + Q_OFFSET)
    {
      PrefixKept(before, a[..], base, P_OFFSET, base + P_OFFSET, base + Q_OFFSET);
      ParitySame(At(a, base, SECTOR), s, P(row));
      StoreLine(a, base, P(row));
      row := row + 1;
    }
  }

  /** Computes the check symbols of one line and stores them in their places. */
  method StoreLine(a: array<bv8>, base: nat, line: Line)
    requires base + SECTOR <= a.Length && line.Valid()
    modifies a
    ensures a[base + line.At()] == Parity1(old(At(a, base, SECTOR)), line)
    ensures a[base + line.At2()] == Parity2(old(At(a, base, SECTOR)), line)
    ensures forall i :: 0 <= i < a.Length && i != base + line.At() && i != base + line.At2() ==> a[i] == old(a[i])
  {
    hide Parity1, Parity2;
    var val1, val2 := ComputeBytes(a, base, line);
    a[base + line.At()] := val1;
    a[base + line.At2()] := val2;
  }

  method QGenerate(a: array<bv8>, base: nat)
    requires base + SECTOR <= a.Length
    modifies a
    ensures QDone(a, base, old(At(a, base, SECTOR)), Q_BYTES)
    ensures OnlyRange(a, base + Q_OFFSET, base + SECTOR)
  {
    hide Parity1, Parity2;
    ghost var s, before := At(a, base, SECTOR), a[..];
    var row := 0;
    while row < Q_BYTES
      invariant row <= Q_BYTES && QDone(a, base, s, row)
      invariant OnlyRange(a, base + Q_OFFSET, base + SECTOR)
    {
      PrefixKept(before, a[..], base, Q_OFFSET, base + Q_OFFSET, base + SECTOR);
      ParitySame(At(a, base, SECTOR), s, Q(row));
      StoreLine(a, base, Q(row));
      row := row + 1;
    }
  }

  /** P parity stored for the data of s, then Q parity for data and P, makes every line of the sector
      a codeword. */
  lemma FilledStored(s: seq<bv8>, u: seq<bv8>, t: seq<bv8>)
    requires |s| == |u| == |t| == SECTOR && s[..P_OFFSET] == t[..P_OFFSET] && u[..Q_OFFSET] == t[..Q_OFFSET]
    requires PStored(s, u) && QStored(u, t)
    ensures AllCodewords(t)
  {
    hide Parity1, Parity2, AllCodewords;
    forall r: nat | r < P_BYTES ensures Stored(t, P(r)) {
      ParitySame(s, t, P(r));
      PrefixAt(u, t, Q_OFFSET, P_OFFSET + r);
      PrefixAt(u, t, Q_OFFSET, P_OFFSET + P_BYTES + r);
    }
    forall r: nat | r < Q_BYTES ensures Stored(t, Q(r)) {
      ParitySame(u, t, Q(r));
    }
    AllStoredIff(t);
  }

  lemma PrefixAt(u: seq<bv8>, t: seq<bv8>, n: nat, i: nat)
    requires i < n <= |u| && n <= |t| && u[..n] == t[..n]
    ensures u[i] == t[i]
  {
    assert u[..n][i] == t[..n][i];
  }

  /** Fills in the parity of the sector at `base` and touches nothing else: afterwards every line is
      a codeword, so verification succeeds whatever the sector held. */
  method Generate(a: array<bv8>, base: nat)
    requires base + SECTOR <= a.Length
    modifies a
    ensures At(a, base, SECTOR) == Filled(old(At(a, base, SECTOR)))
    ensures AllCodewords(At(a, base, SECTOR))
    ensures OnlyRange(a, base + P_OFFSET, base + SECTOR)
  {
    hide Parity1, Parity2, AllCodewords, Filled;
    ghost var s, before := At(a, base, SECTOR), a[..];
    PGenerate(a, base, a[base + MODE_OFFSET] == 2);
    ghost var u, between := At(a, base, SECTOR), a[..];
    assert PStored(s, u) by { PDoneAt(a, base, s); }
    QGenerate(a, base);
    ghost var t := At(a, base, SECTOR);
    assert QStored(u, t) by { QDoneAt(a, base, u); }
    PrefixKept(before, between, base, P_OFFSET, base + P_OFFSET, base + Q_OFFSET);
    PrefixKept(between, a[..], base, Q_OFFSET, base + Q_OFFSET, base + SECTOR);
    PrefixKept(between, a[..], base, P_OFFSET, base + Q_OFFSET, base + SECTOR);
    FilledStored(s, u, t);
    FilledUnique(s, t);
  }

  /** The P parity of t is that of the data of s. */
  ghost predicate PStored(s: seq<bv8>, t: seq<bv8>)
    requires |s| == |t| == SECTOR
  {
    forall r: nat :: r < P_BYTES ==>
      t[P_OFFSET + r] == Parity1(s, P(r)) && t[P_OFFSET + P_BYTES + r] == Parity2(s, P(r))
  }

  ghost predicate QStored(s: seq<bv8>, t: seq<bv8>)
    requires |s| == |t| == SECTOR
  {
    forall r: nat :: r < Q_BYTES ==>
      t[Q_OFFSET + r] == Parity1(s, Q(r)) && t[Q_OFFSET + Q_BYTES + r] == Parity2(s, Q(r))
  }

  lemma PDoneAt(a: array<bv8>, base: nat, s: seq<bv8>)
    requires base + SECTOR <= a.Length && |s| == SECTOR && PDone(a, base, s, P_BYTES)
    ensures PStored(s, At(a, base, SECTOR))
  {
    hide Parity1, Parity2;
  }

  lemma QDoneAt(a: array<bv8>, base: nat, s: seq<bv8>)
    requires base + SECTOR <= a.Length && |s| == SECTOR && QDone(a, base, s, Q_BYTES)
    ensures QStored(s, At(a, base, SECTOR))
  {
    hide Parity1, Parity2;
  }
}
