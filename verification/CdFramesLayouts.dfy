/** The two buffer layouts of the CD frame decoder: a private scratch buffer that is copied out frame by
    frame, and decoding into the destination, whose sectors are then spread out in place. */
module CdFramesLayouts {
  import opened Sequences
  import opened Ecc
  import opened EccGenerateModule
  import opened ChdErrors
  import opened CdFrames

  /** Copies n bytes between regions that do not overlap. */
  method Memcpy(dst: array<bv8>, p: nat, src: array<bv8>, q: nat, n: nat)
    requires p + n <= dst.Length && q + n <= src.Length
    requires dst != src || p + n <= q || q + n <= p
    modifies dst
    ensures dst[p..p + n] == old(src[q..q + n])
    ensures OnlyRange(dst, p, p + n)
  {
    forall i | 0 <= i < n {
      dst[p + i] := src[q + i];
    }
  }

  /** Runs a codec on part of the input, into a region of a buffer. */
  method DecodeInto(codec: Codec, src: seq<bv8>, dst: array<bv8>, p: nat, n: nat) returns (r: Outcome)
    requires Fills(codec) && p + n <= dst.Length
    modifies dst
    ensures OnlyRange(dst, p, p + n)
    ensures match codec(src, n)
            case Error(e) => r == Failed(e)
            case Done(bytes) => r == Ok && dst[p..p + n] == bytes
  {
    match codec(src, n)
    case Error(e) => r := Failed(e);
    case Done(bytes) =>
      assert |codec(src, n).bytes| == n;
      forall i | 0 <= i < n {
        dst[p + i] := bytes[i];
      }
      r := Ok;
  }

  /** Checks the header of a compressed hunk and finds the compressed length of its sectors. */
  method ReadHeader(src: seq<bv8>, destlen: nat) returns (ok: bool, length: nat)
    ensures ok <==> HeaderOk(src, destlen)
    ensures ok ==> length == BaseLength(src, destlen)
  {
    hide EccBytes, Shifted;
    var ecc := EccBytes(destlen);
    length := 0;
    if |src| < ecc + 2 { return false, 0; }
    length := Shifted(Shifted(0, src[ecc]), src[ecc + 1]);
    if LengthBytes(destlen) > 2 {
      if |src| < ecc + 3 { return false, 0; }
      length := Shifted(length, src[ecc + 2]);
    }
    ok := HeaderBytes(destlen) + length <= |src|;
  }

  /** Rebuilds synchronisation pattern and parity of the sector at `base`, if it is flagged. */
  method Rebuild(a: array<bv8>, base: nat, flagged: bool)
    requires base + SECTOR <= a.Length
    modifies a
    ensures At(a, base, SECTOR) == Sector(old(At(a, base, SECTOR)), flagged)
    ensures OnlyRange(a, base, base + SECTOR)
  {
    hide Filled, AllCodewords;
    if flagged {
      ghost var s := At(a, base, SECTOR);
      forall i | 0 <= i < SYNC_BYTES {
        a[base + i] := SYNC_HEADER[i];
      }
      assert At(a, base, SECTOR) == SYNC_HEADER + s[SYNC_BYTES..];
      Generate(a, base);
    }
  }

  /** The input, the packed sectors and the subcode of f frames. */
  ghost predicate Parts(src: seq<bv8>, sectors: seq<bv8>, subcode: seq<bv8>, f: nat) {
    f <= 8 * |src| && |sectors| == SECTOR * f && |subcode| == SUBCODE * f
  }

  /** Frame k of the destination is done. */
  ghost predicate FrameDone(h: seq<bv8>, src: seq<bv8>, sectors: seq<bv8>, subcode: seq<bv8>, f: nat, k: nat)
    requires Parts(src, sectors, subcode, f) && k < f && FRAME * f <= |h|
  {
    h[FRAME * k..FRAME * (k + 1)] == FrameOf(src, sectors, subcode, k)
  }

  /** The two parts of a scratch buffer, as slices of its contents. */
  lemma PartsOf(scratch: array<bv8>, f: nat)
    requires FRAME * f <= scratch.Length
    ensures scratch[..SECTOR * f] == scratch[..][0..0 + SECTOR * f]
    ensures scratch[SECTOR * f..FRAME * f] == scratch[..][SECTOR * f..SECTOR * f + SUBCODE * f]
  {
  }

  /** Finishes frame k, whose sector is already in place: subcode, then parity. */
  method FinishFrame(dest: array<bv8>, sub: array<bv8>, at: nat, src: seq<bv8>, k: nat,
                     ghost sectors: seq<bv8>, ghost subcode: seq<bv8>, ghost f: nat)
    requires dest != sub && Parts(src, sectors, subcode, f) && k < f && FRAME * f <= dest.Length
    requires at + SUBCODE <= sub.Length && sub[at..at + SUBCODE] == subcode[SUBCODE * k..SUBCODE * (k + 1)]
    requires At(dest, FRAME * k, SECTOR) == sectors[SECTOR * k..SECTOR * (k + 1)]
    modifies dest
    ensures FrameDone(dest[..], src, sectors, subcode, f, k)
    ensures OnlyRange(dest, FRAME * k, FRAME * (k + 1))
  {
    hide Filled, Sector, Flagged;
    var p := FRAME * k;
    ghost var sector, codes := sectors[SECTOR * k..SECTOR * (k + 1)], subcode[SUBCODE * k..SUBCODE * (k + 1)];
    Memcpy(dest, p + SECTOR, sub, at, SUBCODE);
    assert dest[p + SECTOR..p + FRAME] == codes;
    assert At(dest, p, SECTOR) == sector;
    Rebuild(dest, p, Flagged(src, k));
    SliceJoin(dest[..], p, SECTOR, SUBCODE);
    assert dest[p + SECTOR..p + FRAME] == codes;
  }

  /** Frames lo .. hi of the destination are done. */
  ghost predicate FramesDone(h: seq<bv8>, src: seq<bv8>, sectors: seq<bv8>, subcode: seq<bv8>, f: nat, lo: nat, hi: nat)
    requires Parts(src, sectors, subcode, f) && hi <= f && FRAME * f <= |h|
  {
    forall k: nat :: lo <= k < hi ==> FrameDone(h, src, sectors, subcode, f, k)
  }

  /** A change elsewhere leaves frames done. */
  lemma StillDone(h: seq<bv8>, g: seq<bv8>, src: seq<bv8>, sectors: seq<bv8>, subcode: seq<bv8>, f: nat,
                  lo: nat, hi: nat, at: nat, end: nat)
    requires Parts(src, sectors, subcode, f) && hi <= f && FRAME * f <= |h| == |g|
    requires FramesDone(h, src, sectors, subcode, f, lo, hi)
    requires forall i :: 0 <= i < |h| && !(at <= i < end) ==> g[i] == h[i]
    requires end <= FRAME * lo || FRAME * hi <= at
    ensures FramesDone(g, src, sectors, subcode, f, lo, hi)
  {
    hide FrameOf;
    forall k: nat | lo <= k < hi ensures FrameDone(g, src, sectors, subcode, f, k) {
      assert FrameDone(h, src, sectors, subcode, f, k);
      assert g[FRAME * k..FRAME * (k + 1)] == h[FRAME * k..FRAME * (k + 1)];
    }
  }

  lemma AllDone(h: seq<bv8>, src: seq<bv8>, sectors: seq<bv8>, subcode: seq<bv8>, f: nat)
    requires Parts(src, sectors, subcode, f) && FRAME * f <= |h|
    requires FramesDone(h, src, sectors, subcode, f, 0, f)
    ensures h[..FRAME * f] == Hunk(src, sectors, subcode, f)
  {
    hide FrameOf;
    var g := h[..FRAME * f];
    forall k: nat | k < f ensures FrameAt(g, k) == FrameOf(src, sectors, subcode, k) {
      assert FrameDone(h, src, sectors, subcode, f, k);
      assert FrameAt(g, k) == h[FRAME * k..FRAME * (k + 1)];
    }
    HunkOfFrames(src, sectors, subcode, f, g);
  }

  /** Copies the frames out of a scratch buffer that holds the packed sectors, then the subcode. */
  method Interleave(scratch: array<bv8>, dest: array<bv8>, src: seq<bv8>, f: nat)
    requires scratch != dest && FRAME * f <= scratch.Length && FRAME * f <= dest.Length && f <= 8 * |src|
    modifies dest
    ensures dest[..FRAME * f] == Hunk(src, scratch[..SECTOR * f], scratch[SECTOR * f..FRAME * f], f)
    ensures OnlyRange(dest, 0, FRAME * f)
  {
    hide FrameOf, FrameDone;
    ghost var sectors, subcode := scratch[..SECTOR * f], scratch[SECTOR * f..FRAME * f];
    var k := 0;
    while k < f
      invariant k <= f && FramesDone(dest[..], src, sectors, subcode, f, 0, k)
      invariant OnlyRange(dest, 0, FRAME * f)
    {
      CopyFrame(scratch, dest, src, f, k);
      k := k + 1;
    }
    AllDone(dest[..], src, sectors, subcode, f);
  }

  method CopyFrame(scratch: array<bv8>, dest: array<bv8>, src: seq<bv8>, f: nat, k: nat)
    requires scratch != dest && FRAME * f <= scratch.Length && FRAME * f <= dest.Length && f <= 8 * |src| && k < f
    requires FramesDone(dest[..], src, scratch[..SECTOR * f], scratch[SECTOR * f..FRAME * f], f, 0, k)
    modifies dest
    ensures FramesDone(dest[..], src, scratch[..SECTOR * f], scratch[SECTOR * f..FRAME * f], f, 0, k + 1)
    ensures OnlyRange(dest, FRAME * k, FRAME * (k + 1))
  {
    hide FrameOf, FrameDone;
    ghost var sectors, subcode := scratch[..SECTOR * f], scratch[SECTOR * f..FRAME * f];
    ghost var before := dest[..];
    Memcpy(dest, FRAME * k, scratch, SECTOR * k, SECTOR);
    SliceSlice(scratch[..], 0, SECTOR * f, SECTOR * k, SECTOR);
    var at := SECTOR * f + SUBCODE * k;
    SliceSlice(scratch[..], SECTOR * f, SUBCODE * f, SUBCODE * k, SUBCODE);
    PartsOf(scratch, f);
    assert sectors[SECTOR * k..SECTOR * (k + 1)] == scratch[SECTOR * k..SECTOR * k + SECTOR];
    FinishFrame(dest, scratch, at, src, k, sectors, subcode, f);
    StillDone(before, dest[..], src, sectors, subcode, f, 0, k, FRAME * k, FRAME * (k + 1));
  }

  /** Spreads sectors packed at the front of the destination over the frames, in place and last to
      first, by way of a bounce buffer behind the subcode. */
  method Spread(scratch: array<bv8>, dest: array<bv8>, src: seq<bv8>, f: nat)
    requires scratch != dest && SUBCODE * f + SECTOR <= scratch.Length && FRAME * f <= dest.Length && f <= 8 * |src|
    modifies dest, scratch
    ensures dest[..FRAME * f] == Hunk(src, old(dest[..SECTOR * f]), old(scratch[..SUBCODE * f]), f)
    ensures OnlyRange(dest, 0, FRAME * f)
  {
    hide FrameOf, FrameDone;
    ghost var sectors, subcode := dest[..SECTOR * f], scratch[..SUBCODE * f];
    var k: nat := f;
    while k > 0
      invariant k <= f && FramesDone(dest[..], src, sectors, subcode, f, k, f)
      invariant dest[..SECTOR * k] == sectors[..SECTOR * k]
      invariant scratch[..SUBCODE * f] == subcode
      invariant OnlyRange(dest, 0, FRAME * f)
    {
      k := k - 1;
      MoveFrame(scratch, dest, src, f, k, sectors, subcode);
    }
    AllDone(dest[..], src, sectors, subcode, f);
  }

  /** What lies before a change stays. */
  lemma FrontKept(before: seq<bv8>, after: seq<bv8>, sectors: seq<bv8>, n: nat, m: nat, at: nat, end: nat)
    requires n <= m <= |before| == |after| && m <= |sectors| && n <= at && before[..m] == sectors[..m]
    requires forall i :: 0 <= i < |before| && !(at <= i < end) ==> after[i] == before[i]
    ensures after[..n] == sectors[..n]
  {
    assert sectors[..n] == sectors[..m][..n] == before[..m][..n] == before[..n];
  }

  /** Bounces sector k from where it is packed to its frame. */
  method MoveSector(scratch: array<bv8>, dest: array<bv8>, f: nat, k: nat)
    requires scratch != dest && SUBCODE * f + SECTOR <= scratch.Length && FRAME * f <= dest.Length && k < f
    modifies dest, scratch
    ensures At(dest, FRAME * k, SECTOR) == old(dest[SECTOR * k..SECTOR * k + SECTOR])
    ensures OnlyRange(dest, FRAME * k, FRAME * k + SECTOR)
    ensures scratch[..SUBCODE * f] == old(scratch[..SUBCODE * f])
  {
    // the first frame's sector is packed where its frame begins
    if k != 0 {
      Memcpy(scratch, SUBCODE * f, dest, SECTOR * k, SECTOR);
      Memcpy(dest, FRAME * k, scratch, SUBCODE * f, SECTOR);
    }
  }

  /** Finishes frame k in place: no sector below it is touched. */
  method MoveFrame(scratch: array<bv8>, dest: array<bv8>, src: seq<bv8>, f: nat, k: nat,
                   ghost sectors: seq<bv8>, ghost subcode: seq<bv8>)
    requires scratch != dest && SUBCODE * f + SECTOR <= scratch.Length && FRAME * f <= dest.Length
    requires Parts(src, sectors, subcode, f) && k < f
    requires FramesDone(dest[..], src, sectors, subcode, f, k + 1, f)
    requires dest[..SECTOR * (k + 1)] == sectors[..SECTOR * (k + 1)] && scratch[..SUBCODE * f] == subcode
    modifies dest, scratch
    ensures FramesDone(dest[..], src, sectors, subcode, f, k, f)
    ensures dest[..SECTOR * k] == sectors[..SECTOR * k] && scratch[..SUBCODE * f] == subcode
    ensures OnlyRange(dest, FRAME * k, FRAME * (k + 1))
  {
    hide FrameOf, FrameDone;
    ghost var before := dest[..];
    PackedSector(before, sectors, k);
    MoveSector(scratch, dest, f, k);
    PackedSubcode(scratch[..], subcode, f, k);
    FinishFrame(dest, scratch, SUBCODE * k, src, k, sectors, subcode, f);
    StillDone(before, dest[..], src, sectors, subcode, f, k + 1, f, FRAME * k, FRAME * (k + 1));
    FrontKept(before, dest[..], sectors, SECTOR * k, SECTOR * (k + 1), FRAME * k, FRAME * (k + 1));
  }

  lemma PackedSector(d: seq<bv8>, sectors: seq<bv8>, k: nat)
    requires SECTOR * (k + 1) <= |d| && SECTOR * (k + 1) <= |sectors|
    requires d[..SECTOR * (k + 1)] == sectors[..SECTOR * (k + 1)]
    ensures d[SECTOR * k..SECTOR * k + SECTOR] == sectors[SECTOR * k..SECTOR * (k + 1)]
  {
    SliceSlice(d, 0, SECTOR * (k + 1), SECTOR * k, SECTOR);
    SliceSlice(sectors, 0, SECTOR * (k + 1), SECTOR * k, SECTOR);
  }

  lemma PackedSubcode(scratch: seq<bv8>, subcode: seq<bv8>, f: nat, k: nat)
    requires SUBCODE * f <= |scratch| && k < f && scratch[..SUBCODE * f] == subcode
    ensures scratch[SUBCODE * k..SUBCODE * k + SUBCODE] == subcode[SUBCODE * k..SUBCODE * (k + 1)]
  {
    SliceSlice(scratch, 0, SUBCODE * f, SUBCODE * k, SUBCODE);
  }

  /** What both layouts achieve: the outcome and the hunk of the specification. */
  ghost predicate Achieves(r: Outcome, hunk: seq<bv8>, spec: Decoded) {
    match spec
    case Error(e) => r == Failed(e)
    case Done(bytes) => r == Ok && |bytes| <= |hunk| && hunk[..|bytes|] == bytes
  }

  /** A complete header has a flag for every frame. */
  lemma EnoughFlags(src: seq<bv8>, destlen: nat)
    ensures HeaderOk(src, destlen) ==> Frames(destlen) <= 8 * |src|
  {
  }

  /** Decoding by way of a hunk-sized private scratch buffer. */
  method DecompressScratch(base: Codec, sub: Codec, src: seq<bv8>, scratch: array<bv8>, dest: array<bv8>)
    returns (r: Outcome)
    requires Fills(base) && Fills(sub) && scratch != dest && FRAME * Frames(dest.Length) <= scratch.Length
    modifies scratch, dest
    ensures Achieves(r, dest[..], Decompress(base, sub, src, dest.Length))
    ensures OnlyRange(dest, 0, FRAME * Frames(dest.Length))
  {
    hide Hunk, BaseLength, HeaderBytes, EccBytes;
    var f := Frames(dest.Length);
    EnoughFlags(src, dest.Length);
    var ok, length := ReadHeader(src, dest.Length);
    if !ok { return Failed(DecompressionError); }
    var h := HeaderBytes(dest.Length);
    r := DecodeInto(base, src[h..h + length], scratch, 0, SECTOR * f);
    if r.Failed? { return; }
    ghost var sectors := scratch[..SECTOR * f];
    r := DecodeInto(sub, src[h + length..], scratch, SECTOR * f, SUBCODE * f);
    if r.Failed? { return; }
    assert scratch[..SECTOR * f] == sectors;
    Interleave(scratch, dest, src, f);
  }

  /** Decoding into the destination itself, with scratch space for the subcode and one sector. */
  method DecompressInPlace(base: Codec, sub: Codec, src: seq<bv8>, scratch: array<bv8>, dest: array<bv8>)
    returns (r: Outcome)
    requires Fills(base) && Fills(sub) && scratch != dest
    requires SUBCODE * Frames(dest.Length) + SECTOR <= scratch.Length
    modifies scratch, dest
    ensures Achieves(r, dest[..], Decompress(base, sub, src, dest.Length))
    ensures OnlyRange(dest, 0, FRAME * Frames(dest.Length))
  {
    hide Hunk, BaseLength, HeaderBytes, EccBytes;
    var f := Frames(dest.Length);
    EnoughFlags(src, dest.Length);
    var ok, length := ReadHeader(src, dest.Length);
    if !ok { return Failed(DecompressionError); }
    var h := HeaderBytes(dest.Length);
    r := DecodeInto(base, src[h..h + length], dest, 0, SECTOR * f);
    if r.Failed? { return; }
    ghost var sectors := dest[..SECTOR * f];
    r := DecodeInto(sub, src[h + length..], scratch, 0, SUBCODE * f);
    if r.Failed? { return; }
    Spread(scratch, dest, src, f);
  }
}
