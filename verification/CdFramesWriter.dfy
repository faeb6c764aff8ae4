/** Writing a hunk of CD frames: sectors and subcode apart, synchronisation pattern and parity dropped where a flag
    says so; and what decompressing that gives. */
module CdFramesWriter {
  import opened Sequences
  import opened Ecc
  import opened ChdErrors
  import opened CdFrames
  import opened CdFramesLayouts

  // ---- flags

  /** What flag i adds to its byte. */
  function Weighted(flags: seq<bool>, i: nat, weight: bv8): bv8 {
    if i < |flags| && flags[i] then weight else 0
  }

  /** Eight flags in a byte, the first one lowest. */
  function FlagByte(flags: seq<bool>, i: nat): bv8 {
    Weighted(flags, i, 1) + Weighted(flags, i + 1, 2) + Weighted(flags, i + 2, 4) + Weighted(flags, i + 3, 8)
    + Weighted(flags, i + 4, 16) + Weighted(flags, i + 5, 32) + Weighted(flags, i + 6, 64) + Weighted(flags, i + 7, 128)
  }

  function PackFlags(flags: seq<bool>): (bytes: seq<bv8>)
    ensures |bytes| == (|flags| + 7) / 8
  {
    seq((|flags| + 7) / 8, j requires 0 <= j => FlagByte(flags, 8 * j))
  }

  lemma FlagOfByte(a: bv8, b: bv8, c: bv8, d: bv8, e: bv8, f: bv8, g: bv8, h: bv8)
    requires a in {0, 1} && b in {0, 2} && c in {0, 4} && d in {0, 8}
    requires e in {0, 16} && f in {0, 32} && g in {0, 64} && h in {0, 128}
    ensures var v := a + b + c + d + e + f + g + h;
            && (v & 1 != 0 <==> a != 0) && (v & 2 != 0 <==> b != 0) && (v & 4 != 0 <==> c != 0) && (v & 8 != 0 <==> d != 0)
            && (v & 16 != 0 <==> e != 0) && (v & 32 != 0 <==> f != 0)
            && (v & 64 != 0 <==> g != 0) && (v & 128 != 0 <==> h != 0)
  {
  }

  lemma BitWeights()
    ensures (1 as bv8) << 0 == 1 && (1 as bv8) << 1 == 2 && (1 as bv8) << 2 == 4 && (1 as bv8) << 3 == 8
    ensures (1 as bv8) << 4 == 16 && (1 as bv8) << 5 == 32 && (1 as bv8) << 6 == 64 && (1 as bv8) << 7 == 128
  {
  }

  /** Every flag is found again. */
  lemma FlagReads(flags: seq<bool>, src: seq<bv8>, n: nat)
    requires n < |flags| && PackFlags(flags) <= src
    ensures n / 8 < |src| && (Flagged(src, n) <==> flags[n])
  {
    var i := 8 * (n / 8);
    assert src[n / 8] == PackFlags(flags)[n / 8] == FlagByte(flags, i);
    BitWeights();
    FlagOfByte(Weighted(flags, i, 1), Weighted(flags, i + 1, 2), Weighted(flags, i + 2, 4), Weighted(flags, i + 3, 8),
               Weighted(flags, i + 4, 16), Weighted(flags, i + 5, 32),
               Weighted(flags, i + 6, 64), Weighted(flags, i + 7, 128));
    assert n == i + n % 8;
  }

  // ---- the header

  /** The byte of a number, by counting. */
  function AsByte(n: nat): (b: bv8)
    requires n < 256
    ensures b as nat == n
  {
    if n == 0 then 0
    else
      NextByte(AsByte(n - 1));
      AsByte(n - 1) + 1
  }

  lemma NextByte(b: bv8)
    requires b as nat < 255
    ensures (b + 1) as nat == b as nat + 1
  {
  }

  /** The length of the packed sectors, big-endian; three bytes if a hunk has 65536 bytes or more. */
  function LengthField(n: nat, destlen: nat): seq<bv8>
    requires n < 0x100_0000
  {
    var low: seq<bv8> := [AsByte((n / 256) % 256), AsByte(n % 256)];
    if destlen < 65536 then low else [AsByte(n / 65536)] + low
  }

  /** A length that fits its field. */
  predicate LengthFits(n: nat, destlen: nat) {
    n < if destlen < 65536 then 65536 else 0x100_0000
  }

  /** A compressed hunk: flags, length, packed sectors, packed subcode. */
  function Compressed(flags: seq<bool>, destlen: nat, sectors: seq<bv8>, subcode: seq<bv8>): seq<bv8>
    requires LengthFits(|sectors|, destlen)
  {
    PackFlags(flags) + LengthField(|sectors|, destlen) + sectors + subcode
  }

  lemma LengthReads(src: seq<bv8>, destlen: nat, n: nat)
    requires LengthFits(n, destlen) && HeaderBytes(destlen) <= |src|
    requires src[EccBytes(destlen)..HeaderBytes(destlen)] == LengthField(n, destlen)
    ensures BaseLength(src, destlen) == n
  {
    hide AsByte, EccBytes;
    var e, field := EccBytes(destlen), LengthField(n, destlen);
    forall i | 0 <= i < |field| ensures src[e + i] == field[i] {
      assert src[e..HeaderBytes(destlen)][i] == src[e + i];
    }
    Digits(n);
    if destlen < 65536 {
      assert src[e] as nat == (n / 256) % 256 && src[e + 1] as nat == n % 256;
    } else {
      assert src[e] as nat == n / 65536 && src[e + 1] as nat == (n / 256) % 256 && src[e + 2] as nat == n % 256;
    }
  }

  lemma Digits(n: nat)
    ensures n / 65536 * 65536 + (n / 256) % 256 * 256 + n % 256 == n
    ensures n < 65536 ==> (n / 256) % 256 == n / 256
  {
  }

  /** The header is read back. */
  lemma HeaderReads(flags: seq<bool>, destlen: nat, sectors: seq<bv8>, subcode: seq<bv8>)
    requires |flags| == Frames(destlen) && LengthFits(|sectors|, destlen)
    ensures var src, h, n := Compressed(flags, destlen, sectors, subcode), HeaderBytes(destlen), |sectors|;
            && PackFlags(flags) <= src && HeaderOk(src, destlen) && BaseLength(src, destlen) == n
            && src[h..h + n] == sectors && src[h + n..] == subcode
  {
    hide FlagByte, AsByte, BaseLength;
    var src, e, n := Compressed(flags, destlen, sectors, subcode), EccBytes(destlen), |sectors|;
    var field := LengthField(n, destlen);
    assert |field| == LengthBytes(destlen);
    Cuts(PackFlags(flags), field, sectors, subcode);
    LengthReads(src, destlen, n);
  }

  lemma Cuts(a: seq<bv8>, b: seq<bv8>, c: seq<bv8>, d: seq<bv8>)
    ensures var s, h := a + b + c + d, |a| + |b|;
            a <= s && s[|a|..h] == b && s[h..h + |c|] == c && s[h + |c|..] == d
  {
  }

  // ---- the frames of a hunk

  function SectorOf(hunk: seq<bv8>, k: nat): (s: seq<bv8>)
    requires FRAME * (k + 1) <= |hunk|
    ensures |s| == SECTOR
  {
    hunk[FRAME * k..FRAME * k + SECTOR]
  }

  function SubcodeOf(hunk: seq<bv8>, k: nat): (s: seq<bv8>)
    requires FRAME * (k + 1) <= |hunk|
    ensures |s| == SUBCODE
  {
    hunk[FRAME * k + SECTOR..FRAME * (k + 1)]
  }

  /** Of a flagged sector only the bytes between synchronisation pattern and parity are kept. */
  ghost predicate Keeps(kept: seq<bv8>, sector: seq<bv8>, flagged: bool)
    requires |kept| == |sector| == SECTOR
  {
    if flagged then kept[SYNC_BYTES..P_OFFSET] == sector[SYNC_BYTES..P_OFFSET] else kept == sector
  }

  /** Sectors and subcode of the frames, apart. */
  ghost predicate Apart(hunk: seq<bv8>, flags: seq<bool>, sectors: seq<bv8>, subcode: seq<bv8>) {
    var f := |flags|;
    && |hunk| == FRAME * f && |sectors| == SECTOR * f && |subcode| == SUBCODE * f
    && forall k: nat :: k < f ==> FrameApart(hunk, flags[k], sectors, subcode, k)
  }

  ghost predicate FrameApart(hunk: seq<bv8>, flagged: bool, sectors: seq<bv8>, subcode: seq<bv8>, k: nat)
    requires FRAME * (k + 1) <= |hunk| && SECTOR * (k + 1) <= |sectors| && SUBCODE * (k + 1) <= |subcode|
  {
    && Keeps(sectors[SECTOR * k..SECTOR * (k + 1)], SectorOf(hunk, k), flagged)
    && subcode[SUBCODE * k..SUBCODE * (k + 1)] == SubcodeOf(hunk, k)
  }

  /** A data sector as it is on a disc: a zero, ten times 255 and a zero, and valid parity. */
  ghost predicate Regular(sector: seq<bv8>)
    requires |sector| == SECTOR
  {
    && sector[0] == 0 && sector[11] == 0 && (forall i :: 1 <= i <= 10 ==> sector[i] == 255)
    && AllCodewords(sector)
  }

  lemma SyncOf(sector: seq<bv8>)
    requires |sector| == SECTOR
    ensures sector[..SYNC_BYTES] == SYNC_HEADER <==>
            sector[0] == 0 && sector[11] == 0 && forall i :: 1 <= i <= 10 ==> sector[i] == 255
  {
    var s := sector[..SYNC_BYTES];
    if s == SYNC_HEADER {
      forall i | 0 <= i < SYNC_BYTES ensures sector[i] == SYNC_HEADER[i] { assert s[i] == SYNC_HEADER[i]; }
    }
  }

  /** A frame comes back exactly if its sector was not flagged or is regular. */
  lemma FrameReads(hunk: seq<bv8>, flags: seq<bool>, src: seq<bv8>, sectors: seq<bv8>, subcode: seq<bv8>, k: nat)
    requires k < |flags| && PackFlags(flags) <= src && Apart(hunk, flags, sectors, subcode)
    ensures k / 8 < |src|
    ensures FrameOf(src, sectors, subcode, k) == FrameAt(hunk, k) <==> (flags[k] ==> Regular(SectorOf(hunk, k)))
  {
    hide PackFlags, Flagged, Rebuilt, AllCodewords;
    FlagReads(flags, src, k);
    var kept, sector := sectors[SECTOR * k..SECTOR * (k + 1)], SectorOf(hunk, k);
    assert FrameApart(hunk, flags[k], sectors, subcode, k);
    assert FrameAt(hunk, k) == sector + SubcodeOf(hunk, k);
    SameFront(Sector(kept, flags[k]), sector, SubcodeOf(hunk, k));
    if flags[k] {
      RebuiltRestores(sector, kept);
      SyncOf(sector);
    }
  }

  lemma SameFront(a: seq<bv8>, b: seq<bv8>, c: seq<bv8>)
    requires |a| == |b|
    ensures a + c == b + c <==> a == b
  {
    if a + c == b + c {
      assert (a + c)[..|a|] == a;
      assert (b + c)[..|b|] == b;
    }
  }

  /** Decompressing what was written gives a hunk back, if and only if all its flagged sectors are regular. */
  lemma HunkRoundTrip(base: Codec, sub: Codec, hunk: seq<bv8>, flags: seq<bool>, destlen: nat,
                      sectors: seq<bv8>, subcode: seq<bv8>, packed: seq<bv8>, packedSub: seq<bv8>)
    requires Fills(base) && Fills(sub) && |flags| == Frames(destlen) && LengthFits(|packed|, destlen)
    requires Apart(hunk, flags, sectors, subcode)
    requires base(packed, SECTOR * |flags|) == Done(sectors) && sub(packedSub, SUBCODE * |flags|) == Done(subcode)
    ensures Decompress(base, sub, Compressed(flags, destlen, packed, packedSub), destlen) == Done(hunk) <==>
            forall k: nat :: k < |flags| && flags[k] ==> Regular(SectorOf(hunk, k))
  {
    hide Hunk, FrameOf, FrameAt, Regular, PackFlags, LengthField, HeaderOk, BaseLength, HeaderBytes, FrameApart;
    var src, f := Compressed(flags, destlen, packed, packedSub), |flags|;
    HeaderReads(flags, destlen, packed, packedSub);
    EnoughFlags(flags, src);
    forall k: nat | k < f
      ensures k / 8 < |src|
      ensures FrameOf(src, sectors, subcode, k) == FrameAt(hunk, k) <==> (flags[k] ==> Regular(SectorOf(hunk, k)))
    {
      FrameReads(hunk, flags, src, sectors, subcode, k);
    }
    FramesDecide(src, sectors, subcode, f, hunk);
  }

  lemma EnoughFlags(flags: seq<bool>, src: seq<bv8>)
    requires PackFlags(flags) <= src
    ensures |flags| <= 8 * |src|
  {
  }

  /** A hunk is decided by its frames. */
  lemma FramesDecide(src: seq<bv8>, sectors: seq<bv8>, subcode: seq<bv8>, f: nat, hunk: seq<bv8>)
    requires f <= 8 * |src| && SECTOR * f <= |sectors| && SUBCODE * f <= |subcode| && |hunk| == FRAME * f
    ensures Hunk(src, sectors, subcode, f) == hunk <==>
            forall k: nat :: k < f ==> FrameOf(src, sectors, subcode, k) == FrameAt(hunk, k)
  {
    hide FrameOf;
    if Hunk(src, sectors, subcode, f) == hunk {
      forall k: nat | k < f ensures FrameOf(src, sectors, subcode, k) == FrameAt(hunk, k) {
        HunkFrame(src, sectors, subcode, f, k);
      }
    }
    if forall k: nat :: k < f ==> FrameOf(src, sectors, subcode, k) == FrameAt(hunk, k) {
      HunkOfFrames(src, sectors, subcode, f, hunk);
    }
  }

  /** Both layouts give such a hunk back; and only such. */
  method DecompressWritten(base: Codec, sub: Codec, src: seq<bv8>, scratch: array<bv8>, dest: array<bv8>, inPlace: bool,
                           ghost hunk: seq<bv8>, ghost flags: seq<bool>, ghost sectors: seq<bv8>, ghost subcode: seq<bv8>,
                           ghost packed: seq<bv8>, ghost packedSub: seq<bv8>)
    returns (r: Outcome)
    requires Fills(base) && Fills(sub) && scratch != dest && FRAME * Frames(dest.Length) + SECTOR <= scratch.Length
    requires |flags| == Frames(dest.Length) && LengthFits(|packed|, dest.Length) && Apart(hunk, flags, sectors, subcode)
    requires base(packed, SECTOR * |flags|) == Done(sectors) && sub(packedSub, SUBCODE * |flags|) == Done(subcode)
    requires src == Compressed(flags, dest.Length, packed, packedSub)
    modifies scratch, dest
    ensures r == Ok && (dest[..|hunk|] == hunk <==> forall k: nat :: k < |flags| && flags[k] ==> Regular(SectorOf(hunk, k)))
  {
    hide Hunk, Regular, Compressed, Decompress, FrameApart;
    HunkRoundTrip(base, sub, hunk, flags, dest.Length, sectors, subcode, packed, packedSub);
    WrittenDone(base, sub, flags, dest.Length, sectors, subcode, packed, packedSub);
    if inPlace {
      r := DecompressInPlace(base, sub, src, scratch, dest);
    } else {
      r := DecompressScratch(base, sub, src, scratch, dest);
    }
  }

  lemma WrittenDone(base: Codec, sub: Codec, flags: seq<bool>, destlen: nat, sectors: seq<bv8>, subcode: seq<bv8>,
                    packed: seq<bv8>, packedSub: seq<bv8>)
    requires Fills(base) && Fills(sub) && |flags| == Frames(destlen) && LengthFits(|packed|, destlen)
    requires base(packed, SECTOR * |flags|) == Done(sectors) && sub(packedSub, SUBCODE * |flags|) == Done(subcode)
    ensures var d := Decompress(base, sub, Compressed(flags, destlen, packed, packedSub), destlen);
            d.Done? && |d.bytes| == FRAME * |flags|
  {
    hide PackFlags, LengthField, HeaderOk, BaseLength, HeaderBytes, FrameOf;
    HeaderReads(flags, destlen, packed, packedSub);
    EnoughFlags(flags, Compressed(flags, destlen, packed, packedSub));
  }
}
