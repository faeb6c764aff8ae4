/** An image and its parents as values, and the contents of a hunk: what a read must yield, without
    caches, buffers or order of reads. */
module HunkImage {
  import opened Bits
  import opened ChdErrors
  import opened Crc16Module
  import opened ReadAhead
  import opened MapEntries
  import V5Map

  /** What a codec makes of its input: an error, or exactly the bytes asked for. */
  datatype Coded = Fails(error: ChdError) | Makes(bytes: seq<byte>)

  type Codec = (seq<byte>, nat) -> Coded

  datatype Slot = NoCodec | Decoder(codec: Codec)

  datatype Parent = NoParent | Parent(image: Image)

  /** An open image: its file, whether that was copied into memory, header fields, hunk map (12 bytes
      an entry, 4 if the image is uncompressed) and the four codec slots. */
  datatype Image = Image(file: seq<byte>, precached: bool, compressed: bool, hunkbytes: nat, unitbytes: nat,
                         rawmap: seq<seq<byte>>, slots: seq<Slot>, parent: Parent)
  {
    /** The units in a hunk, kept in eight bits. */
    function Units(): nat
      requires unitbytes > 0
    {
      (hunkbytes / unitbytes) % 256
    }

    /** What the source relies on unchecked: map entries of the right size, uncompressed entries no
        longer than a hunk, parents with hunks of the same size, and a divisor that is not zero. */
    ghost predicate Valid() {
      && 0 < hunkbytes && 0 < unitbytes && |rawmap| < V5Map.TWO32 && |slots| == 4
      && (forall i :: 0 <= i < |rawmap| ==> |rawmap[i]| == if compressed then 12 else 4)
      && (forall i :: 0 <= i < |rawmap| && compressed && Kind(rawmap[i]) == V5Map.NONE ==> Length(rawmap[i]) <= hunkbytes)
      && (forall i :: 0 <= i < |slots| ==> Fills(slots[i]))
      && (parent.Parent? ==>
            parent.image.Valid() && parent.image.hunkbytes == hunkbytes && (compressed ==> 0 < Units()))
    }
  }

  /** A codec that succeeds fills its whole destination. */
  ghost predicate Fills(slot: Slot) {
    slot.Decoder? ==> forall src, n :: slot.codec(src, n).Makes? ==> |slot.codec(src, n).bytes| == n
  }

  /** The contents of a hunk: an error; its bytes; or, where the source writes less than a hunk into the
      caller's buffer, the bytes it writes at its front, and the checksum that the buffer must then have. */
  datatype Decoded = Error(error: ChdError) | Done(bytes: seq<byte>) | Partial(prefix: seq<byte>, sum: Sum)

  datatype Sum = NoSum | Sum(crc: nat)

  /** What a successful read leaves in the buffer. */
  ghost predicate Holds(content: Decoded, buffer: seq<byte>) {
    match content
    case Error(_) => false
    case Done(bytes) => buffer == bytes
    case Partial(prefix, sum) =>
      && |prefix| <= |buffer| && buffer[..|prefix|] == prefix
      && (sum.Sum? ==> Crc(0xffff, buffer) == sum.crc)
  }

  // ---- contents

  /** A decoded hunk is accepted if its checksum is the stored one. */
  function Checked(bytes: seq<byte>, crc: nat): Decoded {
    if Crc(0xffff, bytes) == crc then Done(bytes) else Error(DecompressionError)
  }

  /** The part of hunk a from byte skip to byte end, and of hunk b up to byte skip. */
  function Joined(a: seq<byte>, b: seq<byte>, skip: nat, end: nat): seq<byte>
    requires skip <= end <= |a| && skip <= |b|
  {
    a[skip..end] + b[..skip]
  }

  /** Bytes that may be less than a hunk. */
  function Whole(bytes: seq<byte>, hunkbytes: nat, sum: Sum): Decoded {
    if |bytes| < hunkbytes then Partial(bytes, sum)
    else if sum.Sum? then Checked(bytes, sum.crc)
    else Done(bytes)
  }

  /** The contents of hunk n. */
  function Content(img: Image, n: nat): Decoded
    requires img.Valid()
    decreases img, n + 1, 0
  {
    if n >= |img.rawmap| then Error(HunkOutOfRange)
    else if !img.compressed then UncompressedContent(img, n)
    else
      var raw := img.rawmap[n];
      if Kind(raw) <= V5Map.TYPE_3 then CompressedContent(img, raw)
      else if Kind(raw) == V5Map.NONE then
        match Uncompressed(img.file, img.precached, Offset(raw), Length(raw))
        case Missing => Error(ReadError)
        case Bytes(b) => Whole(b, img.hunkbytes, Sum(Checksum(raw)))
      else if Kind(raw) == V5Map.SELF then
        var target := Offset(raw) % V5Map.TWO32;
        if target >= n then Error(DecompressionError) else Content(img, target)
      else if Kind(raw) == V5Map.PARENT then ParentContent(img, Offset(raw))
      else Error(DecompressionError)
  }

  function UncompressedContent(img: Image, n: nat): Decoded
    requires img.Valid() && n < |img.rawmap| && !img.compressed
    decreases img, 0, 0
  {
    var offset := Number(img.rawmap[n]) * img.hunkbytes;
    if offset != 0 then
      match Direct(img.file, offset, img.hunkbytes)
      case Missing => Error(ReadError)
      case Bytes(b) => Done(b)
    else
      match img.parent
      case Parent(p) => Content(p, n)
      case NoParent => Done(seq(img.hunkbytes, _ => 0))
  }

  function CompressedContent(img: Image, raw: seq<byte>): Decoded
    requires img.Valid() && |raw| == 12 && Kind(raw) <= V5Map.TYPE_3
  {
    match Compressed(img.file, img.hunkbytes, img.precached, Offset(raw), Length(raw))
    case Missing => Error(ReadError)
    case Bytes(b) =>
      match img.slots[Kind(raw)]
      case NoCodec => Error(CodecError)
      case Decoder(codec) =>
        match codec(b, img.hunkbytes)
        case Fails(e) => Error(e)
        case Makes(out) => Checked(out, Checksum(raw))
  }

  /** Where a unit of the parent lies: its hunk, the hunk behind it, and the bytes of the hunk before it.
      Hunk numbers have 32 bits. */
  function UnitHunk(img: Image, unit: nat): nat
    requires img.unitbytes > 0 && img.Units() > 0
  {
    (unit / img.Units()) % V5Map.TWO32
  }

  function NextHunk(img: Image, unit: nat): nat
    requires img.unitbytes > 0 && img.Units() > 0
  {
    (unit / img.Units() + 1) % V5Map.TWO32
  }

  function Skip(img: Image, unit: nat): (skip: nat)
    requires img.unitbytes > 0 && img.Units() > 0
    ensures skip <= UnitEnd(img)
  {
    Portions(img.Units(), unit % img.Units(), img.unitbytes);
    (unit % img.Units()) * img.unitbytes
  }

  /** The bytes of a hunk that its units make up; all of them, if there are fewer than 256 units. */
  function UnitEnd(img: Image): (end: nat)
    requires img.unitbytes > 0
    ensures end <= img.hunkbytes
  {
    UnitsInside(img.hunkbytes, img.unitbytes);
    img.Units() * img.unitbytes
  }

  predicate Aligned(img: Image, unit: nat)
    requires img.unitbytes > 0 && img.Units() > 0
  {
    unit % img.Units() == 0
  }

  /** A hunk's worth of the parent from a unit on. */
  function ParentContent(img: Image, unit: nat): Decoded
    requires img.Valid() && img.compressed
    decreases img, 0, 0
  {
    match img.parent
    case NoParent => Error(RequiresParent)
    case Parent(p) =>
      var first := Content(p, UnitHunk(img, unit));
      if Aligned(img, unit) || first.Error? then first
      else if first.Partial? then Partial([], NoSum)
      else
        ContentSize(p, UnitHunk(img, unit));
        var skip, end := Skip(img, unit), UnitEnd(img);
        match Content(p, NextHunk(img, unit))
        case Error(e) => Error(e)
        case Partial(_, _) => Partial(first.bytes[skip..end], NoSum)
        case Done(second) =>
          ContentSize(p, NextHunk(img, unit));
          Whole(Joined(first.bytes, second, skip, end), img.hunkbytes, NoSum)
  }

  lemma Portions(u: nat, k: nat, b: nat)
    requires k <= u
    ensures k * b + (u - k) * b == u * b && 0 <= k * b <= u * b
  {
  }

  lemma UnitsInside(h: nat, u: nat)
    requires u > 0
    ensures 0 <= ((h / u) % 256) * u <= h
  {
    Portions(h / u, (h / u) % 256, u);
    assert (h / u) * u <= h;
  }

  /** Contents are exactly one hunk long, or shorter where less than a hunk is written. */
  lemma {:induction false} ContentSize(img: Image, n: nat)
    requires img.Valid()
    ensures Content(img, n).Done? ==> |Content(img, n).bytes| == img.hunkbytes
    ensures Content(img, n).Partial? ==> |Content(img, n).prefix| <= img.hunkbytes
    decreases img, n + 1, 1
  {
    hide Crc, Number, Skip, UnitEnd, Image.Units;
    if n < |img.rawmap| {
      var raw := img.rawmap[n];
      if !img.compressed {
        match img.parent {
          case NoParent =>
          case Parent(p) => ContentSize(p, n);
        }
      } else if Kind(raw) <= V5Map.TYPE_3 {
        assert Fills(img.slots[Kind(raw)]);
      } else if Kind(raw) == V5Map.SELF && Offset(raw) % V5Map.TWO32 < n {
        ContentSize(img, Offset(raw) % V5Map.TWO32);
      } else if Kind(raw) == V5Map.PARENT {
        ParentSize(img, Offset(raw));
      }
    }
  }

  lemma ParentSize(img: Image, unit: nat)
    requires img.Valid() && img.compressed
    ensures ParentContent(img, unit).Done? ==> |ParentContent(img, unit).bytes| == img.hunkbytes
    ensures ParentContent(img, unit).Partial? ==> |ParentContent(img, unit).prefix| <= img.hunkbytes
    decreases img, 0, 1
  {
    hide Crc, Number, Skip, UnitEnd, Image.Units;
    match img.parent {
      case NoParent =>
      case Parent(p) =>
        ContentSize(p, UnitHunk(img, unit));
        ContentSize(p, NextHunk(img, unit));
    }
  }

  /** The hunk at which a chain of back-references ends. */
  function Root(img: Image, n: nat): (root: nat)
    requires img.Valid() && img.compressed && n < |img.rawmap|
    ensures root <= n
  {
    var target := Offset(img.rawmap[n]) % V5Map.TWO32;
    if Kind(img.rawmap[n]) == V5Map.SELF && target < n then Root(img, target) else n
  }

  /** A hunk that can be read is the hunk its back-references end at, which is no reference back; if that
      is stored in the file, its checksum holds. */
  lemma {:induction false} ReadableRoot(img: Image, n: nat)
    requires img.Valid() && img.compressed && n < |img.rawmap| && Content(img, n).Done?
    ensures var root := Root(img, n);
            && Content(img, root) == Content(img, n) && Kind(img.rawmap[root]) != V5Map.SELF
            && (Kind(img.rawmap[root]) <= V5Map.NONE ==>
                  Crc(0xffff, Content(img, n).bytes) == Checksum(img.rawmap[root]))
  {
    hide Crc, Number, Compressed, Uncompressed;
    if Kind(img.rawmap[n]) == V5Map.SELF {
      ReadableRoot(img, Offset(img.rawmap[n]) % V5Map.TWO32);
    }
  }

  // ---- precaching

  /** Whether reads of this image yield the same from the file and from a copy of it. */
  ghost predicate PrecacheBlind(img: Image)
    requires img.Valid()
  {
    img.compressed ==> forall i :: 0 <= i < |img.rawmap| ==> EntryBlind(img, img.rawmap[i])
  }

  predicate EntryBlind(img: Image, raw: seq<byte>)
    requires |raw| == 12
  {
    && (Kind(raw) <= V5Map.TYPE_3 ==>
          Compressed(img.file, img.hunkbytes, true, Offset(raw), Length(raw))
          == Compressed(img.file, img.hunkbytes, false, Offset(raw), Length(raw)))
    && (Kind(raw) == V5Map.NONE ==>
          Uncompressed(img.file, true, Offset(raw), Length(raw)) == Uncompressed(img.file, false, Offset(raw), Length(raw)))
  }

  /** A map whose entries all lie in the file and are no longer than a hunk cannot tell. */
  lemma InsideIsBlind(img: Image)
    requires img.Valid()
    requires img.compressed ==> forall i :: 0 <= i < |img.rawmap| && Kind(img.rawmap[i]) <= V5Map.NONE ==>
               Offset(img.rawmap[i]) + Length(img.rawmap[i]) <= |img.file| && Length(img.rawmap[i]) <= img.hunkbytes
    ensures PrecacheBlind(img)
  {
    hide Number, Compressed;
    if img.compressed {
      forall i | 0 <= i < |img.rawmap| ensures EntryBlind(img, img.rawmap[i]) {
        var raw := img.rawmap[i];
        PrecacheInvisibleIff(img.file, img.hunkbytes, Offset(raw), Length(raw));
        if Length(raw) == 0 && Offset(raw) <= |img.file| {
          assert img.file[Offset(raw)..Offset(raw)] == [];
        }
      }
    }
  }
}
