/** Parent references as addresses: a reference to a unit reads the parent's data from that unit on. */
module ParentUnits {
  import opened Bits
  import opened Sequences
  import opened MapEntries
  import opened HunkImage
  import V5Map

  /** Every one of the first n hunks can be read. */
  ghost predicate Readable(img: Image, n: nat)
    requires img.Valid()
  {
    forall k: nat :: k < n ==> Content(img, k).Done?
  }

  /** The data of the first n hunks. */
  ghost function Data(img: Image, n: nat): seq<byte>
    requires img.Valid() && Readable(img, n)
  {
    if n == 0 then [] else Data(img, n - 1) + Content(img, n - 1).bytes
  }

  /** Where hunk k begins. */
  function HunkStart(size: nat, k: nat): nat {
    if k == 0 then 0 else HunkStart(size, k - 1) + size
  }

  lemma {:induction false} HunkStartIsProduct(size: nat, k: nat)
    ensures HunkStart(size, k) == k * size
  {
    if k > 0 {
      HunkStartIsProduct(size, k - 1);
      Next(k - 1, size);
    }
  }

  lemma {:induction false} HunkStartGrows(size: nat, j: nat, k: nat)
    requires j <= k
    ensures HunkStart(size, j) <= HunkStart(size, k)
  {
    if j < k { HunkStartGrows(size, j, k - 1); }
  }

  lemma {:induction false} DataSize(img: Image, n: nat)
    requires img.Valid() && Readable(img, n)
    ensures |Data(img, n)| == HunkStart(img.hunkbytes, n)
  {
    hide Content;
    if n > 0 {
      DataSize(img, n - 1);
      ContentSize(img, n - 1);
    }
  }

  lemma Next(k: nat, size: nat)
    ensures (k + 1) * size == k * size + size
  {
  }

  lemma Mono(a: nat, b: nat, size: nat)
    requires a <= b
    ensures a * size <= b * size
  {
  }

  /** Hunk k lies at its place in the data. */
  lemma {:induction false} DataAt(img: Image, n: nat, k: nat)
    requires img.Valid() && Readable(img, n) && k < n
    ensures HunkStart(img.hunkbytes, k + 1) <= |Data(img, n)|
    ensures Data(img, n)[HunkStart(img.hunkbytes, k)..HunkStart(img.hunkbytes, k + 1)] == Content(img, k).bytes
  {
    hide Content, Image.Valid;
    var before, last := Data(img, n - 1), Content(img, n - 1).bytes;
    DataSize(img, n - 1);
    ContentSize(img, n - 1);
    var at, end := HunkStart(img.hunkbytes, k), HunkStart(img.hunkbytes, k + 1);
    if k < n - 1 {
      DataAt(img, n - 1, k);
      AppendKeeps(before, last, at, end);
    } else {
      AppendAdds(before, last);
    }
  }

  lemma AppendKeeps(a: seq<byte>, b: seq<byte>, at: nat, end: nat)
    requires at <= end <= |a|
    ensures (a + b)[at..end] == a[at..end]
  {
  }

  lemma AppendAdds(a: seq<byte>, b: seq<byte>)
    ensures (a + b)[|a|..|a| + |b|] == b
  {
  }

  /** The byte at which a unit starts, from its hunk and its place there. */
  lemma UnitAddress(unit: nat, units: nat, unitbytes: nat)
    requires units > 0
    ensures unit * unitbytes == (unit / units) * (units * unitbytes) + (unit % units) * unitbytes
  {
    Address(unit / units, units, unit % units, unitbytes);
  }

  lemma Address(q: nat, u: nat, r: nat, b: nat)
    ensures (u * q + r) * b == q * (u * b) + r * b
  {
  }

  lemma Below(q: nat, n: nat, size: nat, skip: nat)
    requires size > 0 && HunkStart(size, q) + skip + size <= HunkStart(size, n)
    ensures q < n && (skip > 0 ==> q + 1 < n)
  {
    if n <= q { HunkStartGrows(size, n, q); }
    if n <= q + 1 { HunkStartGrows(size, n, q + 1); }
  }

  /** Two neighbouring hunks, cut and joined, are a hunk's worth of the data from the cut on. */
  lemma JoinedIsSlice(d: seq<byte>, at: nat, size: nat, skip: nat)
    requires at + size + size <= |d| && skip <= size
    ensures Joined(d[at..at + size], d[at + size..at + size + size], skip, size) == d[at + skip..at + skip + size]
  {
    SliceSlice(d, at, size, skip, size - skip);
    SliceSlice(d, at + size, size, 0, skip);
    SliceJoin(d, at + skip, size - skip, skip);
  }

  /** The units of a hunk make it up, and are fewer than 256. */
  predicate WholeUnits(img: Image)
    requires img.unitbytes > 0
  {
    UnitEnd(img) == img.hunkbytes
  }

  /** Where a unit lies in a parent of n hunks that holds a hunk's worth of data from it on. */
  lemma UnitPlace(img: Image, unit: nat, n: nat)
    requires img.Valid() && img.compressed && img.parent.Parent? && WholeUnits(img) && n < V5Map.TWO32
    requires unit * img.unitbytes + img.hunkbytes <= HunkStart(img.hunkbytes, n)
    ensures unit * img.unitbytes == HunkStart(img.hunkbytes, UnitHunk(img, unit)) + Skip(img, unit)
    ensures UnitHunk(img, unit) < n
    ensures if Aligned(img, unit) then Skip(img, unit) == 0
            else UnitHunk(img, unit) + 1 < n && NextHunk(img, unit) == UnitHunk(img, unit) + 1
  {
    hide Image.Units, HunkStart, UnitHunk, NextHunk, Skip;
    UnitNumbers(unit, img.Units(), img.unitbytes, img.hunkbytes, n);
    SkipIs(img, unit);
    SmallHunk(img, unit, n);
  }

  lemma SkipIs(img: Image, unit: nat)
    requires img.unitbytes > 0 && img.Units() > 0
    ensures Skip(img, unit) == (unit % img.Units()) * img.unitbytes
  {
    hide Image.Units;
  }

  /** Hunk numbers of the parent fit in 32 bits. */
  lemma SmallHunk(img: Image, unit: nat, n: nat)
    requires img.unitbytes > 0 && img.Units() > 0 && unit / img.Units() < n < V5Map.TWO32
    ensures UnitHunk(img, unit) == unit / img.Units()
    ensures unit / img.Units() + 1 < n ==> NextHunk(img, unit) == unit / img.Units() + 1
  {
    hide Image.Units;
  }

  lemma UnitNumbers(unit: nat, units: nat, unitbytes: nat, hunkbytes: nat, n: nat)
    requires 0 < units && 0 < unitbytes && 0 < hunkbytes && units * unitbytes == hunkbytes
    requires unit * unitbytes + hunkbytes <= HunkStart(hunkbytes, n)
    ensures var q, skip := unit / units, (unit % units) * unitbytes;
            && unit * unitbytes == HunkStart(hunkbytes, q) + skip && q < n
            && (unit % units == 0 ==> skip == 0)
            && (unit % units != 0 ==> skip > 0 && q + 1 < n)
  {
    var q, r := unit / units, unit % units;
    UnitAddress(unit, units, unitbytes);
    HunkStartIsProduct(hunkbytes, q);
    if r > 0 { Mono(1, r, unitbytes); }
    Below(q, n, hunkbytes, r * unitbytes);
  }

  /** The parent can be read, and has a hunk's worth of data from the unit on. */
  ghost predicate InParent(img: Image, unit: nat)
    requires img.Valid() && img.parent.Parent?
  {
    var p := img.parent.image;
    Readable(p, |p.rawmap|) && unit * img.unitbytes + img.hunkbytes <= |Data(p, |p.rawmap|)|
  }

  /** A reference to the unit yields the parent's data from it on. */
  ghost predicate Addressed(img: Image, unit: nat)
    requires img.Valid() && img.compressed && img.parent.Parent? && InParent(img, unit)
  {
    var d, at := Data(img.parent.image, |img.parent.image.rawmap|), unit * img.unitbytes;
    at + img.hunkbytes <= |d| && ParentContent(img, unit) == Done(d[at..at + img.hunkbytes])
  }

  /** With whole units a reference addresses the parent's data, aligned to its hunks or not. */
  lemma ParentContentIsData(img: Image, unit: nat)
    requires img.Valid() && img.compressed && img.parent.Parent? && WholeUnits(img) && InParent(img, unit)
    ensures Addressed(img, unit)
  {
    hide Content, UnitHunk, NextHunk, Skip, UnitEnd, Aligned, Data, HunkStart, Image.Units;
    var p, h := img.parent.image, img.hunkbytes;
    var n := |p.rawmap|;
    var q, skip := UnitHunk(img, unit), Skip(img, unit);
    DataSize(p, n);
    UnitPlace(img, unit, n);
    DataAt(p, n, q);
    ContentSize(p, q);
    StartNext(h, q);
    if !Aligned(img, unit) {
      DataAt(p, n, q + 1);
      ContentSize(p, q + 1);
      StartNext(h, q + 1);
      TwoHunks(Data(p, n), HunkStart(h, q), HunkStart(h, q + 1), h, skip, Content(p, q).bytes, Content(p, q + 1).bytes);
    }
  }

  lemma StartNext(size: nat, k: nat)
    ensures HunkStart(size, k + 1) == HunkStart(size, k) + size
  {
  }

  /** Two neighbouring hunks of the data, cut and joined. */
  lemma TwoHunks(d: seq<byte>, at: nat, next: nat, h: nat, skip: nat, a: seq<byte>, b: seq<byte>)
    requires next == at + h && next + h <= |d| && skip <= h
    requires d[at..at + h] == a && d[next..next + h] == b
    ensures at + skip + h <= |d| && |a| == |b| == h && Joined(a, b, skip, h) == d[at + skip..at + skip + h]
  {
    hide Joined;
    JoinedIsSlice(d, at, h, skip);
  }

  // ---- without whole units

  /** A parent of two hunks, one of zeros and one of ones. */
  function TwoTone(h: nat, u: nat): Image {
    Image(seq(2 * h, i => if i < h then 0 else 1), false, false, h, u, [[0, 0, 0, 0], [0, 0, 0, 1]],
          [NoCodec, NoCodec, NoCodec, NoCodec], NoParent)
  }

  /** An image of one hunk, a reference to a unit of the parent. */
  function ChildOf(p: Image, unit: nat): Image {
    Image([], false, true, p.hunkbytes, p.unitbytes, [V5Map.EntryBytes(V5Map.Entry(V5Map.PARENT, 0, unit, 0))],
          p.slots, Parent(p))
  }

  lemma ChildRefers(p: Image, unit: nat)
    requires p.Valid() && 0 < p.Units() && unit < 256
    ensures var img := ChildOf(p, unit);
            && img.Valid() && Kind(img.rawmap[0]) == V5Map.PARENT && Offset(img.rawmap[0]) == unit
            && Content(img, 0) == ParentContent(img, unit)
  {
    hide V5Map.EntryBytes, Number;
    EntryRead(V5Map.Entry(V5Map.PARENT, 0, unit, 0));
  }

  lemma Toned(h: nat, u: nat)
    requires 0 < h && 0 < u
    ensures var p := TwoTone(h, u);
            && p.Valid() && Readable(p, 2) && |p.rawmap| == 2
            && Content(p, 0) == Done(seq(h, _ => 0)) && Content(p, 1) == Done(seq(h, _ => 1))
  {
    var p := TwoTone(h, u);
    NumberOne();
    assert Number(p.rawmap[1]) * h == h;
    assert p.file[h..h + h] == seq(h, _ => 1);
  }

  lemma NumberOne()
    ensures Number([0, 0, 0, 0]) == 0 && Number([0, 0, 0, 1]) == 1
  {
    assert [0, 0, 0, 0][..3] == [0, 0, 0] && [0, 0, 0, 1][..3] == [0, 0, 0];
    assert [0, 0, 0][..2] == [0, 0] && [0, 0][..1] == [0];
  }

  /** Without whole units, an image's reference to the first unit past a hunk's units misses its data. */
  lemma Misaddressed(h: nat, u: nat) returns (img: Image, unit: nat)
    requires 0 < h && 0 < u && 0 < (h / u) % 256 && ((h / u) % 256) * u != h
    ensures img.Valid() && img.compressed && img.parent.Parent? && img.hunkbytes == h && img.unitbytes == u
    ensures |img.rawmap| == 1 && Kind(img.rawmap[0]) == V5Map.PARENT && Offset(img.rawmap[0]) == unit
    ensures Content(img, 0) == ParentContent(img, unit) && InParent(img, unit) && !Addressed(img, unit)
  {
    hide Content, Number, Data, V5Map.EntryBytes;
    var p := TwoTone(h, u);
    unit := (h / u) % 256;
    img := ChildOf(p, unit);
    Toned(h, u);
    ChildRefers(p, unit);
    UnitsInside(h, u);
    Past(h, unit * u);
    assert Aligned(img, unit) && UnitHunk(img, unit) == 1 by { SelfDivides(unit); }
    ToneData(h, u);
    var d, at := Data(p, 2), unit * u;
    assert d[at..at + h][0] == d[at] == 0;
    assert ParentContent(img, unit) == Done(seq(h, _ => 1));
  }

  lemma Past(h: nat, at: nat)
    requires at <= h
    ensures at + h <= 2 * h
  {
  }

  lemma SelfDivides(n: nat)
    requires n > 0
    ensures n % n == 0 && n / n == 1
  {
  }

  lemma ToneData(h: nat, u: nat)
    requires 0 < h && 0 < u
    ensures var p := TwoTone(h, u);
            p.Valid() && Readable(p, 2) && |Data(p, 2)| == 2 * h && forall i :: 0 <= i < h ==> Data(p, 2)[i] == 0
  {
    hide Content;
    var p := TwoTone(h, u);
    Toned(h, u);
    assert Data(p, 0) == [];
    assert Data(p, 1) == Content(p, 0).bytes;
    assert Data(p, 2) == Data(p, 1) + Content(p, 1).bytes;
  }

  /** An image with a parent, and hunks and units of these sizes. */
  ghost predicate Sized(img: Image, h: nat, u: nat) {
    img.Valid() && img.compressed && img.parent.Parent? && img.hunkbytes == h && img.unitbytes == u
  }

  /** Parent references address the parent's data, in every image with these sizes, if and only if hunks
      are made up of fewer than 256 whole units. */
  lemma ParentAddressIff(h: nat, u: nat)
    requires 0 < h && 0 < u && 0 < (h / u) % 256
    ensures ((h / u) % 256) * u == h <==>
            forall img: Image, unit: nat :: Sized(img, h, u) && InParent(img, unit) ==> Addressed(img, unit)
  {
    hide InParent, Addressed, Image.Valid;
    if ((h / u) % 256) * u == h {
      forall img: Image, unit: nat | Sized(img, h, u) && InParent(img, unit) ensures Addressed(img, unit)
      {
        ParentContentIsData(img, unit);
      }
    } else {
      var img, unit := Misaddressed(h, u);
    }
  }
}
