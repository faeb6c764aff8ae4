/** Hunks of CD frames: the packed sectors and subcode of a compressed hunk, the frames they make, and
    the two layouts of the decoder, with a private scratch buffer and in place. */
module CdFrames {
  import opened Ecc
  import opened EccGenerateModule
  import opened ChdErrors

  const SUBCODE := 96
  const FRAME := 2448
  const SYNC_BYTES := 12

  /** What a codec makes of its input: an error, or exactly the bytes asked for. */
  datatype Decoded = Error(error: ChdError) | Done(bytes: seq<bv8>)

  type Codec = (seq<bv8>, nat) -> Decoded

  /** A codec that succeeds fills its whole destination. */
  ghost predicate Fills(codec: Codec) {
    forall src, n :: codec(src, n).Done? ==> |codec(src, n).bytes| == n
  }

  const SYNC_HEADER: seq<bv8> := [0, 255, 255, 255, 255, 255, 255, 255, 255, 255, 255, 0]

  function Frames(destlen: nat): nat { destlen / FRAME }

  function EccBytes(destlen: nat): nat { (Frames(destlen) + 7) / 8 }

  function LengthBytes(destlen: nat): nat { if destlen < 65536 then 2 else 3 }

  function HeaderBytes(destlen: nat): nat { EccBytes(destlen) + LengthBytes(destlen) }

  /** The compressed length of the sectors, stored big-endian behind the flag bitmap. */
  function BaseLength(src: seq<bv8>, destlen: nat): nat
    requires HeaderBytes(destlen) <= |src|
  {
    var e := EccBytes(destlen);
    var two := Shifted(Shifted(0, src[e]), src[e + 1]);
    if LengthBytes(destlen) > 2 then Shifted(two, src[e + 2]) else two
  }

  /** A big-endian number, one byte longer. */
  function Shifted(n: nat, b: bv8): nat {
    256 * n + b as nat
  }

  /** The header of a compressed hunk is complete and leaves room for the sectors it announces. */
  predicate HeaderOk(src: seq<bv8>, destlen: nat) {
    HeaderBytes(destlen) <= |src| && HeaderBytes(destlen) + BaseLength(src, destlen) <= |src|
  }

  /** Whether the parity of frame n is to be rebuilt: bit n of the bitmap, lowest bit first. */
  function Flagged(src: seq<bv8>, n: nat): bool
    requires n / 8 < |src|
  {
    src[n / 8] & (1 << (n % 8)) != 0
  }

  /** A sector with its synchronisation pattern and parity rebuilt. */
  function Rebuilt(sector: seq<bv8>): (t: seq<bv8>)
    requires |sector| == SECTOR
    ensures |t| == SECTOR
  {
    Filled(SYNC_HEADER + sector[SYNC_BYTES..])
  }

  function Sector(sector: seq<bv8>, flagged: bool): (t: seq<bv8>)
    requires |sector| == SECTOR
    ensures |t| == SECTOR
  {
    if flagged then Rebuilt(sector) else sector
  }

  /** Frame n of a hunk: its sector, rebuilt if flagged, then its subcode. */
  function FrameOf(src: seq<bv8>, sectors: seq<bv8>, subcode: seq<bv8>, n: nat): (f: seq<bv8>)
    requires n / 8 < |src| && SECTOR * (n + 1) <= |sectors| && SUBCODE * (n + 1) <= |subcode|
    ensures |f| == FRAME
  {
    Sector(sectors[SECTOR * n..SECTOR * (n + 1)], Flagged(src, n)) + subcode[SUBCODE * n..SUBCODE * (n + 1)]
  }

  /** The first n frames, one after the other. */
  function Hunk(src: seq<bv8>, sectors: seq<bv8>, subcode: seq<bv8>, n: nat): (h: seq<bv8>)
    requires n <= 8 * |src| && SECTOR * n <= |sectors| && SUBCODE * n <= |subcode|
    ensures |h| == FRAME * n
  {
    if n == 0 then [] else Hunk(src, sectors, subcode, n - 1) + FrameOf(src, sectors, subcode, n - 1)
  }

  /** Decompression of a hunk, free of any buffer: what every layout must produce. */
  function Decompress(base: Codec, sub: Codec, src: seq<bv8>, destlen: nat): Decoded
    requires Fills(base) && Fills(sub)
  {
    if !HeaderOk(src, destlen) then Error(DecompressionError)
    else
      var h := HeaderBytes(destlen);
      var n := BaseLength(src, destlen);
      var f := Frames(destlen);
      match base(src[h..h + n], SECTOR * f)
      case Error(e) => Error(e)
      case Done(sectors) =>
        match sub(src[h + n..], SUBCODE * f)
        case Error(e) => Error(e)
        case Done(subcode) => Done(Hunk(src, sectors, subcode, f))
  }

  /** Frame k of a hunk lies at its place. */
  lemma {:induction false} HunkFrame(src: seq<bv8>, sectors: seq<bv8>, subcode: seq<bv8>, n: nat, k: nat)
    requires n <= 8 * |src| && SECTOR * n <= |sectors| && SUBCODE * n <= |subcode| && k < n
    ensures Hunk(src, sectors, subcode, n)[FRAME * k..FRAME * (k + 1)] == FrameOf(src, sectors, subcode, k)
  {
    hide Sector, Flagged;
    var h, f := Hunk(src, sectors, subcode, n - 1), FrameOf(src, sectors, subcode, n - 1);
    if k < n - 1 {
      HunkFrame(src, sectors, subcode, n - 1, k);
      assert (h + f)[FRAME * k..FRAME * (k + 1)] == h[FRAME * k..FRAME * (k + 1)];
    } else {
      assert (h + f)[FRAME * k..FRAME * (k + 1)] == f;
    }
  }

  /** A buffer that holds every frame at its place is the hunk. */
  lemma {:induction false} HunkOfFrames(src: seq<bv8>, sectors: seq<bv8>, subcode: seq<bv8>, n: nat, h: seq<bv8>)
    requires n <= 8 * |src| && SECTOR * n <= |sectors| && SUBCODE * n <= |subcode| && |h| == FRAME * n
    requires forall k: nat :: k < n ==> FrameAt(h, k) == FrameOf(src, sectors, subcode, k)
    ensures h == Hunk(src, sectors, subcode, n)
  {
    hide FrameOf;
    if n > 0 {
      var g := h[..FRAME * (n - 1)];
      forall k: nat | k < n - 1 ensures FrameAt(g, k) == FrameOf(src, sectors, subcode, k) {
        assert FrameAt(g, k) == FrameAt(h, k);
      }
      HunkOfFrames(src, sectors, subcode, n - 1, g);
      assert h == g + FrameAt(h, n - 1);
    }
  }

  function FrameAt(h: seq<bv8>, k: nat): seq<bv8>
    requires FRAME * (k + 1) <= |h|
  {
    h[FRAME * k..FRAME * (k + 1)]
  }

  lemma RebuiltPasses(sector: seq<bv8>)
    requires |sector| == SECTOR
    ensures AllCodewords(Rebuilt(sector))
  {
    hide Filled, AllCodewords;
    FilledIsCodeword(SYNC_HEADER + sector[SYNC_BYTES..]);
  }

  lemma FlaggedFrame(src: seq<bv8>, sectors: seq<bv8>, subcode: seq<bv8>, n: nat, k: nat)
    requires n <= 8 * |src| && SECTOR * n <= |sectors| && SUBCODE * n <= |subcode| && k < n && Flagged(src, k)
    ensures AllCodewords(Hunk(src, sectors, subcode, n)[FRAME * k..FRAME * k + SECTOR])
  {
    hide Hunk, Flagged, Rebuilt, AllCodewords;
    HunkFrame(src, sectors, subcode, n, k);
    var hunk := Hunk(src, sectors, subcode, n);
    var sector := sectors[SECTOR * k..SECTOR * (k + 1)];
    var codes := subcode[SUBCODE * k..SUBCODE * (k + 1)];
    assert FrameOf(src, sectors, subcode, k) == Rebuilt(sector) + codes;
    FrontOf(hunk, FRAME * k, Rebuilt(sector), codes);
    RebuiltPasses(sector);
  }

  lemma FrontOf(s: seq<bv8>, at: nat, a: seq<bv8>, b: seq<bv8>)
    requires at + |a| + |b| <= |s| && s[at..at + |a| + |b|] == a + b
    ensures s[at..at + |a|] == a
  {
    var t := s[at..at + |a| + |b|];
    forall i | 0 <= i < |a| ensures s[at..at + |a|][i] == a[i] {
      assert t[i] == (a + b)[i];
    }
  }

  /** Every flagged frame of a decompressed hunk passes verification. */
  lemma FlaggedPasses(base: Codec, sub: Codec, src: seq<bv8>, destlen: nat, k: nat)
    requires Fills(base) && Fills(sub)
    requires Decompress(base, sub, src, destlen).Done? && k < Frames(destlen) && Flagged(src, k)
    ensures var h := Decompress(base, sub, src, destlen).bytes;
            FRAME * (k + 1) <= |h| && AllCodewords(h[FRAME * k..FRAME * k + SECTOR])
  {
    hide Hunk, Flagged, AllCodewords;
    var f := Frames(destlen);
    var h := HeaderBytes(destlen);
    var n := BaseLength(src, destlen);
    FlaggedFrame(src, base(src[h..h + n], SECTOR * f).bytes, sub(src[h + n..], SUBCODE * f).bytes, f, k);
  }

  /** Rebuilding loses nothing: a sector with valid synchronisation pattern and parity comes back from
      any sector that agrees with it in between. */
  lemma RebuiltRestores(original: seq<bv8>, kept: seq<bv8>)
    requires |original| == |kept| == SECTOR && kept[SYNC_BYTES..P_OFFSET] == original[SYNC_BYTES..P_OFFSET]
    ensures Rebuilt(kept) == original <==> original[..SYNC_BYTES] == SYNC_HEADER && AllCodewords(original)
  {
    hide Filled, AllCodewords;
    var s := SYNC_HEADER + kept[SYNC_BYTES..];
    FilledUnique(s, original);
    assert s[..P_OFFSET] == SYNC_HEADER + kept[SYNC_BYTES..P_OFFSET];
    assert original[..P_OFFSET] == original[..SYNC_BYTES] + original[SYNC_BYTES..P_OFFSET];
    assert s[..P_OFFSET][..SYNC_BYTES] == SYNC_HEADER;
    assert original[..P_OFFSET][..SYNC_BYTES] == original[..SYNC_BYTES];
  }
}
