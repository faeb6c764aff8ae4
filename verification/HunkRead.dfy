/** Reading a hunk of an open image: through the self-reference cache, the read-ahead window and the
    parent, into the caller's buffer. */
module HunkRead {
  import opened Bits
  import opened ChdErrors
  import opened Crc16Module
  import opened ReadAhead
  import opened MapEntries
  import opened HunkImage
  import opened SelfCacheModule
  import opened HunkMap
  import V5Map
  import V5MapLowRam

  /** A read's outcome and buffer are what the contents of the hunk say. Where the source writes less than
      a hunk, what it finds in the rest of the buffer may decide whether the checksum holds. */
  ghost predicate Delivers(r: Outcome, buffer: seq<byte>, content: Decoded) {
    match content
    case Error(e) => r == Failed(e)
    case Done(_) => r == Ok && Holds(content, buffer)
    case Partial(_, _) => r == Ok ==> Holds(content, buffer)
  }

  /** Stores bytes at a place of a buffer. */
  method Blit(dest: array<byte>, p: nat, bytes: seq<byte>)
    requires p + |bytes| <= dest.Length
    modifies dest
    ensures dest[..] == old(dest[..p]) + bytes + old(dest[p + |bytes|..])
  {
    forall i | 0 <= i < |bytes| {
      dest[p + i] := bytes[i];
    }
  }

  /** Stores a hunk in the caller's buffer. */
  method Deliver(dest: array<byte>, bytes: seq<byte>)
    requires |bytes| == dest.Length
    modifies dest
    ensures dest[..] == bytes
  {
    Blit(dest, 0, bytes);
  }

  /** What a lazy map reads and changes. */
  ghost function Footprint(lazy: V5MapLowRam.LowRamMap?): set<object> {
    if lazy == null then {}
    else {lazy, lazy.pass1Window, lazy.pass2Window, lazy.decoder, lazy.decoder.numbits, lazy.decoder.lookup}
  }

  /** The file reader, the caches and the lazy map are none of the given objects, nor of each other. */
  ghost predicate Apart(io: FileReader, cache: SelfCache, lazy: V5MapLowRam.LowRamMap?, others: set<object>)
    reads io
  {
    && {io, cache} !! others && io.raBuf !in others && Footprint(lazy) !! others
    && {io, cache} !! Footprint(lazy) && io.raBuf !in Footprint(lazy)
  }

  /** The file reader reads the image, the self-reference cache holds what reads deliver, and the lazy map
      is that of the image. */
  ghost predicate PartsOk(img: Image, io: FileReader, cache: SelfCache, lazy: V5MapLowRam.LowRamMap?)
    reads io, io.raBuf, cache, Footprint(lazy)
  {
    && img.Valid() && io.file == img.file && io.hunkbytes == img.hunkbytes
    && (io.precached == img.precached || PrecacheBlind(img))
    && io.Valid() && cache.Valid() && cache.Sound(img) && LazyOk(img, lazy)
  }

  /** The lazy map is that of the image, and its windows can be read. */
  ghost predicate LazyOk(img: Image, lazy: V5MapLowRam.LowRamMap?)
    reads Footprint(lazy)
  {
    lazy != null ==>
      && lazy.Valid() && img.compressed && img.rawmap == MapOf(lazy.m, lazy.par.hunkcount)
      && forall n :: !lazy.fails(n)
  }

  class ChdFile {
    const img: Image
    const io: FileReader
    const cache: SelfCache
    const parent: ChdFile?
    /** The lazy map, if the map is not held in memory. */
    const lazy: V5MapLowRam.LowRamMap?
    ghost var Repr: set<object>

    /** The caches agree with the image, and the parent is a valid file of its own. */
    ghost predicate Valid()
      reads this, Repr
      decreases Repr
    {
      && {this, io, cache} <= Repr && (io.raBuf != null ==> io.raBuf in Repr) && Footprint(lazy) <= Repr
      && Apart(io, cache, lazy, {this}) && PartsOk(img, io, cache, lazy)
      && (parent == null <==> img.parent.NoParent?)
      && (parent != null ==>
            && parent in Repr && parent.Repr <= Repr && this !in parent.Repr && Apart(io, cache, lazy, parent.Repr)
            && parent.Valid() && img.parent == Parent(parent.img))
    }

    lemma HasParent()
      requires Valid() && parent != null
      ensures img.Valid() && img.parent == Parent(parent.img) && parent.img.hunkbytes == img.hunkbytes
    {
    }

    /** Where a read may put its result. */
    ghost predicate Separate(dest: array<byte>)
      reads this
    {
      dest !in Repr && dest.Length == img.hunkbytes
    }

    constructor (img: Image, io: FileReader, cache: SelfCache, parent: ChdFile?, lazy: V5MapLowRam.LowRamMap?)
      requires PartsOk(img, io, cache, lazy) && Apart(io, cache, lazy, {})
      requires parent == null <==> img.parent.NoParent?
      requires parent != null ==>
               parent.Valid() && img.parent == Parent(parent.img) && Apart(io, cache, lazy, parent.Repr)
      ensures Valid() && this.img == img && this.io == io && this.cache == cache && this.parent == parent
      ensures this.lazy == lazy
    {
      hide PartsOk, Image.Valid;
      this.img, this.io, this.cache, this.parent, this.lazy := img, io, cache, parent, lazy;
      Repr := {};
      new;
      ghost var own := {this, io, cache} + Footprint(lazy) + (if parent == null then {} else parent.Repr);
      if io.raBuf != null {
        ghost var buffer: object := io.raBuf;
        own := own + {buffer};
      }
      Repr := own;
    }

    /** Gives the read-ahead window a budget, at any time between reads. */
    method SetCacheBudget(bytes: nat)
      requires Valid()
      modifies this`Repr, io
      ensures Valid() && fresh(Repr - old(Repr))
    {
      hide Footprint, Image.Valid, V5MapLowRam.LowRamMap.Valid, PrecacheBlind, SelfCache.Sound;
      io.SetCacheBudget(bytes);
      if io.raBuf != null {
        ghost var buffer: object := io.raBuf;
        Repr := Repr + {buffer};
      }
    }

    /** Copies the file into memory, at any time between reads, if no entry of the map can tell; or if it
        is there already. */
    method Precache(fails: bool) returns (ok: bool)
      requires Valid() && (PrecacheBlind(img) || io.precached)
      modifies io
      ensures Valid() && Repr == old(Repr) && (ok <==> old(io.precached) || !fails)
      ensures io.precached <==> old(io.precached) || ok
    {
      hide Footprint, Image.Valid, V5MapLowRam.LowRamMap.Valid, PrecacheBlind, SelfCache.Sound;
      ok := io.Precache(fails);
    }

    /** The map entry of a hunk, from the map in memory or from the lazy map. */
    method Entry(n: nat) returns (raw: seq<byte>)
      requires Valid() && n < |img.rawmap|
      modifies Footprint(lazy)
      ensures Valid() && Repr == old(Repr) && raw == img.rawmap[n]
    {
      hide Image.Valid, V5MapLowRam.LowRamMap.Sane, V5MapLowRam.LowRamMap.ResumeOk, PrecacheBlind, SelfCache.Sound,
           FileReader.Valid, V5Map.EntryBytes, V5Map.EntryOf;
      if lazy == null {
        raw := img.rawmap[n];
      } else {
        var err;
        lazy.ResumeOkIff();
        err, raw := lazy.GetEntry(n);
      }
    }

    /** The stored bytes of a compressed hunk, whether the file was copied into memory or not. */
    method FetchCoded(n: nat, raw: seq<byte>) returns (fetched: Fetched)
      requires Valid() && img.compressed && n < |img.rawmap| && raw == img.rawmap[n] && Kind(raw) <= V5Map.TYPE_3
      modifies io, io.raBuf
      ensures Valid() && Repr == old(Repr)
      ensures fetched == Compressed(img.file, img.hunkbytes, img.precached, Offset(raw), Length(raw))
    {
      hide Number, LazyOk, Footprint, SelfCache.Sound, Image.Valid;
      EntryWidth(n);
      fetched := io.ReadCompressed(Offset(raw), Length(raw));
    }

    /** The stored bytes of an uncompressed hunk. */
    method FetchPlain(n: nat, raw: seq<byte>) returns (fetched: Fetched)
      requires Valid() && img.compressed && n < |img.rawmap| && raw == img.rawmap[n] && Kind(raw) == V5Map.NONE
      modifies io
      ensures Valid() && Repr == old(Repr)
      ensures fetched == Uncompressed(img.file, img.precached, Offset(raw), Length(raw))
    {
      hide Number, LazyOk, Footprint, SelfCache.Sound, Image.Valid;
      EntryWidth(n);
      fetched := io.ReadUncompressed(Offset(raw), Length(raw));
    }

    lemma EntryWidth(n: nat)
      requires Valid() && img.compressed && n < |img.rawmap|
      ensures img.Valid() && |img.rawmap[n]| == 12 && (PrecacheBlind(img) ==> EntryBlind(img, img.rawmap[n]))
    {
      hide Number;
    }

    /** A hunk stored with a codec. */
    method ReadCoded(n: nat, raw: seq<byte>, dest: array<byte>) returns (r: Outcome)
      requires Valid() && Separate(dest) && img.compressed && n < |img.rawmap| && raw == img.rawmap[n]
      requires Kind(raw) <= V5Map.TYPE_3
      modifies io, io.raBuf, dest
      ensures Valid() && Repr == old(Repr)
      ensures Delivers(r, dest[..], CompressedContent(img, raw))
    {
      hide Crc, Number, ChdFile.Valid;
      EntryWidth(n);
      var fetched := FetchCoded(n, raw);
      if fetched.Missing? { return Failed(ReadError); }
      match img.slots[Kind(raw)]
      case NoCodec => return Failed(CodecError);
      case Decoder(codec) =>
        var decoded := codec(fetched.bytes, img.hunkbytes);
        match decoded
        case Fails(e) => return Failed(e);
        case Makes(bytes) =>
          assert HunkImage.Fills(img.slots[Kind(raw)]);
          Deliver(dest, bytes);
          r := Check(dest, Checksum(raw));
    }

    /** Compares the checksum of a delivered hunk. */
    method Check(dest: array<byte>, crc: nat) returns (r: Outcome)
      ensures r == if Crc(0xffff, dest[..]) == crc then Ok else Failed(DecompressionError)
    {
      var actual := Crc16Update(0xffff, dest[..]);
      r := if actual == crc then Ok else Failed(DecompressionError);
    }

    /** A hunk stored as it is: its bytes go to the front of the buffer, the checksum is over all of it. */
    method ReadPlain(n: nat, raw: seq<byte>, dest: array<byte>) returns (r: Outcome)
      requires Valid() && Separate(dest) && img.compressed && n < |img.rawmap| && raw == img.rawmap[n]
      requires Kind(raw) == V5Map.NONE
      modifies io, dest
      ensures Valid() && Repr == old(Repr)
      ensures match Uncompressed(img.file, img.precached, Offset(raw), Length(raw))
              case Missing => r == Failed(ReadError)
              case Bytes(b) =>
                && |b| <= dest.Length && dest[..] == b + old(dest[|b|..])
                && r == if Crc(0xffff, dest[..]) == Checksum(raw) then Ok else Failed(DecompressionError)
      ensures Delivers(r, dest[..], Content(img, n))
    {
      hide Crc, Number, ChdFile.Valid, Content, Delivers;
      EntryWidth(n);
      var fetched := FetchPlain(n, raw);
      if fetched.Missing? {
        PlainMissing(img, n, dest[..]);
        return Failed(ReadError);
      }
      ghost var rest := dest[|fetched.bytes|..];
      Blit(dest, 0, fetched.bytes);
      r := Check(dest, Checksum(raw));
      PlainDelivered(img, n, fetched.bytes, rest, dest[..], r);
    }

    /** A hunk of an image without compression. */
    method ReadUncompressedImage(n: nat, raw: seq<byte>, dest: array<byte>) returns (r: Outcome)
      requires Valid() && Separate(dest) && n < |img.rawmap| && !img.compressed && raw == img.rawmap[n]
      modifies Repr, dest
      ensures Valid() && Repr == old(Repr)
      ensures Delivers(r, dest[..], UncompressedContent(img, n))
      decreases img, 0, 2
    {
      hide Crc, Number, Content, LazyOk, Footprint;
      var offset := Number(raw) * img.hunkbytes;
      if offset != 0 {
        var fetched := io.SeekAndRead(offset, img.hunkbytes);
        if fetched.Missing? { return Failed(ReadError); }
        Deliver(dest, fetched.bytes);
        return Ok;
      } else if parent != null {
        r := ReadParentHunk(n, dest);
      } else {
        Deliver(dest, seq(img.hunkbytes, _ => 0));
        r := Ok;
      }
    }

    /** A hunk that repeats an earlier one. */
    method ReadSelf(target: nat, dest: array<byte>) returns (r: Outcome)
      requires Valid() && Separate(dest) && target < V5Map.TWO32 - 1
      modifies Repr, dest
      ensures Valid() && Repr == old(Repr)
      ensures Delivers(r, dest[..], Content(img, target))
      decreases img, target + 1, 1
    {
      hide Content, Crc, LazyOk, Footprint;
      if |cache.hunk| != 0 {
        var found := cache.Lookup(target, img);
        if found.Found? {
          Deliver(dest, found.bytes);
          return Ok;
        }
      }
      cache.Ensure(img);
      r := ReadHunk(target, dest);
      if r.Failed? { return; }
      cache.Store(target, dest[..], img);
    }

    /** A hunk of the parent. */
    method ReadParentHunk(n: nat, dest: array<byte>) returns (r: Outcome)
      requires Valid() && Separate(dest) && parent != null
      modifies Repr, dest
      ensures Valid() && Repr == old(Repr)
      ensures Delivers(r, dest[..], Content(parent.img, n))
      decreases img, 0, 0
    {
      hide Content, Crc, Delivers, LazyOk, Footprint;
      r := parent.ReadHunk(n, dest);
    }

    /** A hunk taken from the parent, from a unit on. */
    method ReadFromParent(unit: nat, dest: array<byte>) returns (r: Outcome)
      requires Valid() && Separate(dest) && img.compressed
      modifies Repr, dest
      ensures Valid() && Repr == old(Repr)
      ensures Delivers(r, dest[..], ParentContent(img, unit))
      decreases img, 0, 2
    {
      hide Skip, UnitEnd, UnitHunk, NextHunk, Aligned, Content, LazyOk, Footprint, Holds;
      if parent == null { return Failed(RequiresParent); }
      if Aligned(img, unit) {
        r := ReadParentHunk(UnitHunk(img, unit), dest);
      } else {
        r := ReadStraddling(unit, dest);
      }
    }

    /** A hunk's worth of two neighbouring parent hunks. */
    method ReadStraddling(unit: nat, dest: array<byte>) returns (r: Outcome)
      requires Valid() && Separate(dest) && img.compressed && parent != null && !Aligned(img, unit)
      modifies Repr, dest
      ensures Valid() && Repr == old(Repr)
      ensures Delivers(r, dest[..], ParentContent(img, unit))
      decreases img, 0, 1
    {
      hide Skip, UnitEnd, UnitHunk, NextHunk, Aligned, Content, Holds, Joined, Crc, ChdFile.Valid;
      HasParent();
      var skip, end := Skip(img, unit), UnitEnd(img);
      var buf := new byte[img.hunkbytes];
      r := ReadParentHunk(UnitHunk(img, unit), buf);
      if r.Failed? { return; }
      ghost var first := buf[..];
      Blit(dest, 0, buf[skip..end]);
      ghost var after := dest[..];
      r := ReadParentHunk(NextHunk(img, unit), buf);
      if r.Failed? { return; }
      Blit(dest, end - skip, buf[..skip]);
      StraddlingHeld(img, unit, first, buf[..], after, dest[..]);
    }

    /** Reads hunk n into the caller's buffer: its contents, whatever was read before. */
    method ReadHunk(n: nat, dest: array<byte>) returns (r: Outcome)
      requires Valid() && Separate(dest)
      modifies Repr, dest
      ensures Valid() && Repr == old(Repr)
      ensures Delivers(r, dest[..], Content(img, n))
      decreases img, n + 1, 0
    {
      hide Crc, Number, Holds, V5Map.EntryBytes, LazyOk, Footprint;
      if n >= |img.rawmap| { return Failed(HunkOutOfRange); }
      var raw := Entry(n);
      if !img.compressed {
        r := ReadUncompressedImage(n, raw, dest);
      } else if Kind(raw) <= V5Map.TYPE_3 {
        r := ReadCoded(n, raw, dest);
      } else if Kind(raw) == V5Map.NONE {
        r := ReadPlain(n, raw, dest);
      } else if Kind(raw) == V5Map.SELF {
        var target := Offset(raw) % V5Map.TWO32;
        if target >= n { return Failed(DecompressionError); }
        r := ReadSelf(target, dest);
      } else if Kind(raw) == V5Map.PARENT {
        r := ReadFromParent(Offset(raw), dest);
      } else {
        return Failed(DecompressionError);
      }
    }
  }

  lemma PlainMissing(img: Image, n: nat, buffer: seq<byte>)
    requires img.Valid() && img.compressed && n < |img.rawmap| && Kind(img.rawmap[n]) == V5Map.NONE
    requires Uncompressed(img.file, img.precached, Offset(img.rawmap[n]), Length(img.rawmap[n])).Missing?
    ensures Delivers(Failed(ReadError), buffer, Content(img, n))
  {
    hide Number, Crc;
  }

  /** The bytes of an uncompressed hunk, in front of what was in the buffer. */
  lemma PlainDelivered(img: Image, n: nat, bytes: seq<byte>, rest: seq<byte>, buffer: seq<byte>, r: Outcome)
    requires img.Valid() && img.compressed && n < |img.rawmap| && Kind(img.rawmap[n]) == V5Map.NONE
    requires Uncompressed(img.file, img.precached, Offset(img.rawmap[n]), Length(img.rawmap[n])) == Bytes(bytes)
    requires buffer == bytes + rest && |buffer| == img.hunkbytes
    requires r == if Crc(0xffff, buffer) == Checksum(img.rawmap[n]) then Ok else Failed(DecompressionError)
    ensures Delivers(r, buffer, Content(img, n))
  {
    hide Number, Crc;
    if |bytes| == img.hunkbytes { assert buffer == bytes; }
  }

  /** Two parent hunks as read, joined in the buffer, are what the contents say. */
  lemma StraddlingHeld(img: Image, unit: nat, a: seq<byte>, b: seq<byte>, after: seq<byte>, buffer: seq<byte>)
    requires img.Valid() && img.compressed && img.parent.Parent? && !Aligned(img, unit)
    requires |a| == |b| == |after| == img.hunkbytes
    requires Delivers(Ok, a, Content(img.parent.image, UnitHunk(img, unit)))
    requires Delivers(Ok, b, Content(img.parent.image, NextHunk(img, unit)))
    requires var skip, end := Skip(img, unit), UnitEnd(img);
             && after[..end - skip] == a[skip..end]
             && buffer == after[..end - skip] + b[..skip] + after[end..]
    ensures Delivers(Ok, buffer, ParentContent(img, unit))
  {
    hide Content, Skip, UnitEnd, UnitHunk, NextHunk, Aligned, Crc;
    var skip, end := Skip(img, unit), UnitEnd(img);
    var joined := Joined(a, b, skip, end);
    assert buffer == joined + after[end..];
    assert buffer[..end] == joined && buffer[..end - skip] == a[skip..end];
    if end == img.hunkbytes { assert buffer == joined; }
    assert buffer[..0] == [];
  }
}
