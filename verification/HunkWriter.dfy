/** Writing hunks into an image, and reading them back: compressed by one of the four codecs, as they are, as
    a reference to an earlier hunk or to the parent. */
module HunkWriter {
  import opened Bits
  import opened ChdErrors
  import opened Crc16Module
  import opened ReadAhead
  import opened MapEntries
  import opened HunkImage
  import opened HunkMap
  import opened ParentUnits
  import opened HunkRead
  import opened V5MapWriter
  import V5Map

  // ---- one compressed hunk

  /** The bytes of the file that an entry names can be read. */
  predicate Reads(img: Image, e: V5Map.Entry) {
    if img.precached then e.offset + e.length <= |img.file|
    else e.length <= img.hunkbytes && (e.length == 0 || e.offset + e.length <= |img.file|)
  }

  /** Those bytes. */
  function Packed(img: Image, e: V5Map.Entry): seq<byte>
    requires Reads(img, e)
  {
    if e.length == 0 then [] else img.file[e.offset..e.offset + e.length]
  }

  /** The entry fits its 12 bytes. */
  predicate Fits(e: V5Map.Entry) {
    e.kind < 256 && e.length < 0x100_0000 && e.offset < 0x1_0000_0000_0000 && e.crc < 0x1_0000
  }

  /** Hunk n of a compressed image has this entry. */
  ghost predicate HasEntry(img: Image, n: nat, e: V5Map.Entry) {
    img.Valid() && img.compressed && n < |img.rawmap| && img.rawmap[n] == V5Map.EntryBytes(e) && Fits(e)
  }

  lemma RawFields(img: Image, n: nat, e: V5Map.Entry)
    requires HasEntry(img, n, e)
    ensures var raw := img.rawmap[n];
            && |raw| == 12 && Kind(raw) == e.kind && Length(raw) == e.length
            && Offset(raw) == e.offset && Checksum(raw) == e.crc
  {
    hide V5Map.EntryBytes, Number;
    EntryRead(e);
  }

  /** A hunk of type 0 to 3 reads as b exactly if the codec of that number makes b of the bytes its entry names, and
      b has the entry's checksum. */
  lemma CodedIff(img: Image, n: nat, e: V5Map.Entry, b: seq<byte>)
    requires HasEntry(img, n, e) && e.kind <= 3
    ensures Content(img, n) == Done(b) <==>
            && Reads(img, e) && img.slots[e.kind].Decoder?
            && img.slots[e.kind].codec(Packed(img, e), img.hunkbytes) == Makes(b) && Crc(0xffff, b) == e.crc
  {
    hide V5Map.EntryBytes, Number, Crc, Image.Valid;
    RawFields(img, n, e);
    assert |img.slots| == 4 by { FourSlots(img); }
    NoBytes(img.file, e.offset);
  }

  /** The errors of such a hunk, in order: of the read, of a missing codec, of the codec, of the checksum. */
  lemma CodedErrors(img: Image, n: nat, e: V5Map.Entry)
    requires HasEntry(img, n, e) && e.kind <= 3
    ensures !Reads(img, e) ==> Content(img, n) == Error(ReadError)
    ensures Reads(img, e) && img.slots[e.kind].NoCodec? ==> Content(img, n) == Error(CodecError)
    ensures Reads(img, e) && img.slots[e.kind].Decoder? ==>
            match img.slots[e.kind].codec(Packed(img, e), img.hunkbytes)
            case Fails(error) => Content(img, n) == Error(error)
            case Makes(b) => Crc(0xffff, b) != e.crc ==> Content(img, n) == Error(DecompressionError)
  {
    hide V5Map.EntryBytes, Number, Crc, Image.Valid;
    RawFields(img, n, e);
    assert |img.slots| == 4 by { FourSlots(img); }
    NoBytes(img.file, e.offset);
  }

  lemma FourSlots(img: Image)
    requires img.Valid()
    ensures |img.slots| == 4
  {
  }

  lemma NoBytes(file: seq<byte>, at: nat)
    ensures at <= |file| ==> file[at..at + 0] == []
  {
  }

  // ---- the other types

  /** The file holds these bytes at a place. */
  predicate Lies(file: seq<byte>, at: nat, bytes: seq<byte>) {
    at + |bytes| <= |file| && file[at..at + |bytes|] == bytes
  }

  /** The bytes that an entry without compression names can be read; an empty read of the file succeeds anywhere. */
  predicate ReadsPlain(img: Image, e: V5Map.Entry) {
    e.offset + e.length <= |img.file| || (e.length == 0 && !img.precached)
  }

  /** A plain hunk reads as b exactly if the file holds b at its place, and b is of a hunk's length and has the entry's
      checksum. If it is shorter than a hunk, its bytes go to the front of the buffer, and the checksum is over all of
      that. */
  lemma PlainIff(img: Image, n: nat, e: V5Map.Entry, b: seq<byte>)
    requires HasEntry(img, n, e) && e.kind == 4
    ensures !ReadsPlain(img, e) ==> Content(img, n) == Error(ReadError)
    ensures ReadsPlain(img, e) && e.length < img.hunkbytes ==>
            Content(img, n) == Partial(if e.length == 0 then [] else img.file[e.offset..e.offset + e.length], Sum(e.crc))
    ensures ReadsPlain(img, e) && e.length == img.hunkbytes ==>
            && (Content(img, n) == Done(b) <==> Lies(img.file, e.offset, b) && |b| == e.length && Crc(0xffff, b) == e.crc)
            && (Content(img, n).Done? || Content(img, n) == Error(DecompressionError))
  {
    hide V5Map.EntryBytes, Number, Crc;
    RawFields(img, n, e);
    NoBytes(img.file, e.offset);
  }

  /** The errors of the other types: a reference that does not go back, a reference to a parent that is not there, a
      type that does not exist; and of a hunk past the last. */
  lemma OtherErrors(img: Image, n: nat, e: V5Map.Entry)
    requires HasEntry(img, n, e)
    ensures e.kind == 5 && n <= e.offset % 0x1_0000_0000 ==> Content(img, n) == Error(DecompressionError)
    ensures e.kind == 6 && img.parent.NoParent? ==> Content(img, n) == Error(RequiresParent)
    ensures e.kind > 6 ==> Content(img, n) == Error(DecompressionError)
    ensures forall k: nat :: k >= |img.rawmap| ==> Content(img, k) == Error(HunkOutOfRange)
  {
    hide V5Map.EntryBytes, Number, Crc, Image.Valid;
    RawFields(img, n, e);
  }

  // ---- whole images

  /** How a writer stores a hunk: packed for one of the codecs or plain, at a place of the file; as an earlier hunk
      again; or as what the parent holds from a unit on. */
  datatype Form = Coded(slot: nat, packed: seq<byte>, at: nat) | Plain(at: nat) | Again(target: nat) | Inherited(unit: nat)

  /** The map entry of a hunk in such a form. */
  function EntryFor(hunk: seq<byte>, form: Form): V5Map.Entry {
    match form
    case Coded(slot, packed, at) => V5Map.Entry(slot, |packed|, at, Crc(0xffff, hunk))
    case Plain(at) => V5Map.Entry(4, |hunk|, at, Crc(0xffff, hunk))
    case Again(target) => V5Map.Entry(5, 0, target, 0)
    case Inherited(unit) => V5Map.Entry(6, 0, unit, 0)
  }

  /** Hunk i of a list can be stored in this form: packing it was inverse to unpacking, the file holds what it was packed
      to, or the hunk referred to is the same. */
  ghost predicate Suits(img: Image, hunks: seq<seq<byte>>, i: nat, form: Form)
    requires img.Valid() && img.compressed && i < |hunks|
  {
    && |hunks[i]| == img.hunkbytes && Fits(EntryFor(hunks[i], form))
    && match form
       case Coded(slot, packed, at) =>
         && slot <= 3 && img.slots[slot].Decoder? && img.slots[slot].codec(packed, img.hunkbytes) == Makes(hunks[i])
         && |packed| <= img.hunkbytes && Lies(img.file, at, packed)
       case Plain(at) => Lies(img.file, at, hunks[i])
       case Again(target) => target < i && target < 0x1_0000_0000 && hunks[target] == hunks[i]
       case Inherited(unit) =>
         && img.parent.Parent? && WholeUnits(img) && InParent(img, unit)
         && var p, at := img.parent.image, unit * img.unitbytes;
            hunks[i] == Data(p, |p.rawmap|)[at..at + img.hunkbytes]
  }

  /** An image as a writer leaves it. */
  ghost predicate Written(img: Image, hunks: seq<seq<byte>>, forms: seq<Form>) {
    && img.Valid() && img.compressed && |img.rawmap| == |hunks| == |forms|
    && forall i :: 0 <= i < |hunks| ==>
         Suits(img, hunks, i, forms[i]) && img.rawmap[i] == V5Map.EntryBytes(EntryFor(hunks[i], forms[i]))
  }

  /** Every hunk written is read back: through any codec that inverts its packing, through chains of
      references, and from the parent. */
  lemma {:induction false} ImageRoundTrip(img: Image, hunks: seq<seq<byte>>, forms: seq<Form>, i: nat)
    requires Written(img, hunks, forms) && i < |hunks|
    ensures Content(img, i) == Done(hunks[i])
  {
    hide V5Map.EntryBytes, Number, Crc, Image.Valid, Data, InParent, Content;
    var e := EntryFor(hunks[i], forms[i]);
    assert Suits(img, hunks, i, forms[i]);
    RawFields(img, i, e);
    match forms[i] {
      case Coded(slot, packed, at) =>
        CodedIff(img, i, e, hunks[i]);
      case Plain(at) =>
        PlainReads(img, i, e, hunks[i]);
      case Again(target) =>
        AgainReads(img, i, e);
        ImageRoundTrip(img, hunks, forms, target);
      case Inherited(unit) =>
        InheritedReads(img, i, e);
        ParentContentIsData(img, unit);
    }
  }

  lemma PlainReads(img: Image, n: nat, e: V5Map.Entry, hunk: seq<byte>)
    requires HasEntry(img, n, e) && e.kind == 4 && e.length == |hunk| == img.hunkbytes && e.crc == Crc(0xffff, hunk)
    requires Lies(img.file, e.offset, hunk)
    ensures Content(img, n) == Done(hunk)
  {
    hide V5Map.EntryBytes, Number, Crc, Image.Valid;
    RawFields(img, n, e);
  }

  lemma AgainReads(img: Image, n: nat, e: V5Map.Entry)
    requires HasEntry(img, n, e) && e.kind == 5 && e.offset < n && e.offset < 0x1_0000_0000
    ensures Content(img, n) == Content(img, e.offset)
  {
    hide V5Map.EntryBytes, Number, Crc, Image.Valid;
    RawFields(img, n, e);
  }

  lemma InheritedReads(img: Image, n: nat, e: V5Map.Entry)
    requires HasEntry(img, n, e) && e.kind == 6
    ensures Content(img, n) == ParentContent(img, e.offset)
  {
    hide V5Map.EntryBytes, Number, Crc, Image.Valid, ParentContent;
    RawFields(img, n, e);
  }

  /** The hunks one after the other. */
  function Joined(hunks: seq<seq<byte>>): seq<byte> {
    if hunks == [] then [] else Joined(hunks[..|hunks| - 1]) + hunks[|hunks| - 1]
  }

  /** The data of a written image, as its children address it, is its hunks one after the other. */
  lemma {:induction false} WrittenData(img: Image, hunks: seq<seq<byte>>, forms: seq<Form>, n: nat)
    requires Written(img, hunks, forms) && n <= |hunks|
    ensures Readable(img, n) && Data(img, n) == Joined(hunks[..n])
  {
    hide Written, Content;
    WrittenSizes(img, hunks, forms);
    forall k: nat | k < n ensures Content(img, k).Done? { ImageRoundTrip(img, hunks, forms, k); }
    if n > 0 {
      WrittenData(img, hunks, forms, n - 1);
      ImageRoundTrip(img, hunks, forms, n - 1);
      assert hunks[..n][..n - 1] == hunks[..n - 1];
    }
  }

  lemma WrittenSizes(img: Image, hunks: seq<seq<byte>>, forms: seq<Form>)
    requires Written(img, hunks, forms)
    ensures img.Valid() && |img.rawmap| == |hunks| == |forms|
  {
  }

  // ---- with the map compressed too

  /** A compressed map written for the entries of the hunks gives back the hunks: decoded in full or looked up lazily. */
  lemma ArchiveRoundTrip(img: Image, hunks: seq<seq<byte>>, forms: seq<Form>,
                         d: Draft, par: V5Map.Params, rest: seq<bool>, i: nat)
    requires d.Valid(par) && d.Kept(par) && |d.es| == |hunks| == |forms| && i < |hunks|
    requires img.Valid() && img.compressed && img.rawmap == MapOf(d.Source(par, rest), par.hunkcount)
    requires forall k :: 0 <= k < |hunks| ==> Suits(img, hunks, k, forms[k]) && d.es[k] == EntryFor(hunks[k], forms[k])
    ensures Content(img, i) == Done(hunks[i])
  {
    hide Draft.Kept, Draft.Bits, V5Map.EntryOf, V5Map.EntryBytes, Suits, Content, Image.Valid;
    WriterRoundTrip(d, par, rest);
    forall k | 0 <= k < |hunks| ensures img.rawmap[k] == V5Map.EntryBytes(EntryFor(hunks[k], forms[k])) {
      assert V5Map.EntryOf(d.Source(par, rest), k) == d.es[k];
    }
    ImageRoundTrip(img, hunks, forms, i);
  }

  /** Reading a hunk of a written image delivers it, whatever was read before, with the map in memory or lazy. */
  method ReadWritten(chd: ChdFile, n: nat, dest: array<byte>, ghost hunks: seq<seq<byte>>, ghost forms: seq<Form>)
    returns (r: Outcome)
    requires chd.Valid() && chd.Separate(dest) && Written(chd.img, hunks, forms)
    modifies chd.Repr, dest
    ensures chd.Valid() && chd.Repr == old(chd.Repr)
    ensures if n < |hunks| then r == Ok && dest[..] == hunks[n] else r == Failed(HunkOutOfRange)
  {
    hide Written, ChdFile.Valid;
    if n < |hunks| { ImageRoundTrip(chd.img, hunks, forms, n); }
    WrittenSizes(chd.img, hunks, forms);
    r := chd.ReadHunk(n, dest);
  }

  // ---- images without compression

  /** In an image without compression an entry is a place of the file, in hunks; zero stands for the parent's hunk, or
      for zeros. */
  lemma UncompressedReads(img: Image, n: nat, place: nat, b: seq<byte>)
    requires img.Valid() && !img.compressed && n < |img.rawmap| && img.rawmap[n] == LowBytes(place, 4) && place < V5Map.TWO32
    ensures 0 < place ==>
            (Content(img, n) == Done(b) <==> |b| == img.hunkbytes && Lies(img.file, place * img.hunkbytes, b))
    ensures place == 0 && img.parent.Parent? ==> Content(img, n) == Content(img.parent.image, n)
    ensures place == 0 && img.parent.NoParent? ==>
            (Content(img, n) == Done(b) <==> |b| == img.hunkbytes && forall j :: 0 <= j < |b| ==> b[j] == 0)
  {
    hide Number, LowBytes;
    NumberLow4(place);
    Positive(place, img.hunkbytes);
    if b == seq(img.hunkbytes, _ => 0) {}
  }

  lemma Positive(place: nat, size: nat)
    ensures 0 < place && 0 < size ==> place * size > 0
    ensures place == 0 ==> place * size == 0
  {
  }

  lemma NumberLow4(x: nat)
    requires x < V5Map.TWO32
    ensures |LowBytes(x, 4)| == 4 && Number(LowBytes(x, 4)) == x
  {
    hide Number;
    NumberStep(x, 3);
    NumberLow3(x / 256);
  }
}
