/** Writing a whole compressed map, tree included, and the verdict and bytes that decoding it gives. */
module V5MapWriter {
  import opened Bits
  import opened HuffmanCodes
  import opened HuffmanDecoderModule
  import opened HuffmanKraft
  import opened HuffmanRoundTrip
  import opened HuffmanTreeRoundTrip
  import opened V5Map
  import opened V5MapMeaning
  import opened V5MapEncoding
  import opened V5MapRoundTrip
  import opened V5MapFull
  import opened V5MapLowRam
  import opened Crc16Module
  import opened ChdErrors

  /** A map as a writer lays it out: the items of the tree, the tokens of the types, and the entries with the
      types they are written as. */
  datatype Draft = Draft(items: seq<Item>, tokens: seq<Token>, es: seq<Entry>, kinds: seq<nat>)
  {
    function Lens(): seq<nat> { LensOf(items) }

    /** Code lengths take 4 bits each. */
    ghost predicate Valid(par: Params) {
      && par.Valid() && |es| == |kinds| == par.hunkcount && AllStand(par, es, kinds)
      && AllValid(items, 4) && |Lens()| == 16 && Accepted(Lens(), 8)
      && TokensCoded(Lens(), tokens) && Expanded(0, tokens) == kinds
    }

    ghost function Bits(par: Params): seq<bool>
      requires Valid(par)
    {
      StoredItems(items, 4) + Body(par, Lens(), tokens, es, kinds)
    }

    /** Where the fields begin. */
    ghost function FieldsAt(par: Params): nat
      requires Valid(par)
    {
      |StoredItems(items, 4)| + |TypeBits(Lens(), tokens)|
    }

    /** No field loses a one. */
    ghost predicate Kept(par: Params)
      requires Valid(par)
    {
      AllKept(par, es, kinds, FieldsAt(par))
    }

    /** The map in whole bytes, with anything behind it. */
    ghost function Blob(par: Params, rest: seq<bool>): seq<byte>
      requires Valid(par)
    {
      Pack(Bits(par) + rest)
    }

    ghost function Source(par: Params, rest: seq<bool>): Source
      requires Valid(par)
    {
      V5Map.Source(Blob(par, rest), par, Lens(), |StoredItems(items, 4)|)
    }
  }

  lemma Lies(d: Draft, par: Params, rest: seq<bool>)
    requires d.Valid(par)
    ensures Holds(d.Blob(par, rest), 0, StoredItems(d.items, 4))
    ensures Holds(d.Blob(par, rest), |StoredItems(d.items, 4)|, Body(par, d.Lens(), d.tokens, d.es, d.kinds))
    ensures |d.Bits(par)| <= 8 * |d.Blob(par, rest)|
  {
    hide AllStand, Accepted, Expanded, TokensCoded, AllValid, Body, StoredItems, Holds;
    var bits := d.Bits(par);
    PackHolds(bits + rest);
    HoldsSplit(d.Blob(par, rest), 0, bits, rest);
    HoldsSplit(d.Blob(par, rest), 0, StoredItems(d.items, 4), Body(par, d.Lens(), d.tokens, d.es, d.kinds));
  }

  /** The tree is imported, and the body begins behind it. */
  lemma DraftImports(d: Draft, par: Params, rest: seq<bool>)
    requires d.Valid(par)
    ensures ImportResult(d.Blob(par, rest), 0, NUMCODES, MAXBITS) == NoError
    ensures SourceOf(d.Blob(par, rest), par) == d.Source(par, rest) && d.Source(par, rest).Valid()
  {
    hide Accepted, Holds, Body, StoredItems, ReadLens, ImportResult, AllStand, TokensCoded;
    assert TreeWidth(MAXBITS) == 4;
    Lies(d, par, rest);
    ImportsStored(d.Blob(par, rest), 0, NUMCODES, MAXBITS, d.items);
  }

  lemma {:induction false} SerialisedMap(m: Source, es: seq<Entry>, n: nat)
    requires m.par.unitbytes > 0 && n <= |es| && forall k: nat :: k < n ==> EntryOf(m, k) == es[k]
    ensures MapBytes(m, n) == Serialised(es[..n])
  {
    hide EntryOf, EntryBytes;
    if n > 0 {
      SerialisedMap(m, es, n - 1);
      assert es[..n][..n - 1] == es[..n - 1];
    }
  }

  /** Whatever a writer makes of a list of entries, decoding returns the list if and only if no field loses a
      one; and then accepts the map with the checksum of the entries. */
  lemma WriterRoundTrip(d: Draft, par: Params, rest: seq<bool>)
    requires d.Valid(par)
    ensures var m := d.Source(par, rest);
            && ImportResult(m.blob, 0, NUMCODES, MAXBITS) == NoError && SourceOf(m.blob, par) == m
            && TypesInside(m, par.hunkcount) && TypesCovered(m, par.hunkcount)
            && ((forall k: nat :: k < |d.es| ==> EntryOf(m, k) == d.es[k]) <==> d.Kept(par))
            && (d.Kept(par) ==> MapBytes(m, par.hunkcount) == Serialised(d.es)
                                && MapAccepted(m.blob, par, Crc(0xffff, Serialised(d.es))))
  {
    hide Accepted, Holds, ImportResult, AllStand, TokensCoded, TypesInside, TypesCovered, AllKept, EntryOf,
         StoredItems, TypeBits, MapBytes, Serialised, SourceOf, Crc;
    var m := d.Source(par, rest);
    Lies(d, par, rest);
    DraftImports(d, par, rest);
    MapRoundTrip(m, d.tokens, d.es, d.kinds);
    if d.Kept(par) {
      SerialisedMap(m, d.es, par.hunkcount);
      assert d.es[..par.hunkcount] == d.es;
    }
  }

  // ---- every list can be written

  /** Stored hunks lie back to back, and references have targets that fit their fields. */
  ghost predicate Consistent(par: Params, es: seq<Entry>)
    requires par.unitbytes > 0
  {
    |es| == par.hunkcount && forall k :: 0 <= k < |es| ==> es[k].kind < 7 && Stands(par, es, k, es[k].kind)
  }

  function KindsOf(es: seq<Entry>): seq<nat> {
    seq(|es|, k requires 0 <= k < |es| => es[k].kind)
  }

  function Literals(kinds: seq<nat>): seq<Token> {
    seq(|kinds|, k requires 0 <= k < |kinds| => Literal(kinds[k]))
  }

  lemma {:induction false} LiteralsExpanded(last: nat, kinds: seq<nat>)
    ensures Expanded(last, Literals(kinds)) == kinds
    decreases |kinds|
  {
    if kinds != [] {
      assert Literals(kinds)[1..] == Literals(kinds[1..]);
      LiteralsExpanded(kinds[0], kinds[1..]);
    }
  }

  /** Sixteen codes of four bits. */
  const EVEN: seq<nat> := Repeat(4, 16)

  lemma {:induction false} KraftEven(n: nat)
    requires n <= 16
    ensures Kraft(EVEN[..n], 8) == 16 * n
  {
    if n > 0 {
      KraftEven(n - 1);
      assert EVEN[..n][..n - 1] == EVEN[..n - 1];
      assert Pow2(4) == 16 by { ShlByConstants(1); }
    }
  }

  lemma EvenAccepted()
    ensures Accepted(EVEN, 8)
  {
    KraftEven(16);
    assert EVEN[..16] == EVEN;
    assert Pow2(8) == 256 by { ShlByConstants(1); }
    AcceptedIffKraft(EVEN, 8);
  }

  /** The plainest map: every hunk's type as a literal, and every target in full. */
  function Plain(es: seq<Entry>): Draft {
    Draft(Singles(EVEN), Literals(KindsOf(es)), es, KindsOf(es))
  }

  /** Every consistent list of entries can be written. */
  lemma PlainValid(par: Params, es: seq<Entry>)
    requires par.Valid() && Consistent(par, es)
    ensures Plain(es).Valid(par)
  {
    hide Stands, Accepted, Expanded, LensOf;
    var d := Plain(es);
    SinglesLens(EVEN);
    EvenAccepted();
    LiteralsExpanded(0, KindsOf(es));
    assert Pow2(4) == 16 by { ShlByConstants(1); }
    forall i | 0 <= i < |d.tokens| ensures Writable(d.tokens[i]) && AllCoded(EVEN, MAXBITS, Symbols(d.tokens[i])) {
      assert d.tokens[i] == Literal(es[i].kind);
      assert Stands(par, es, i, es[i].kind);
    }
  }

  // ---- through the decoder

  /** Decoding a written map in full yields the entries, serialised. */
  method ReadBack(blob: seq<byte>, par: Params, mapcrc: crc16, ghost d: Draft, ghost rest: seq<bool>)
    returns (ok: bool, rawmap: array<byte>)
    requires d.Valid(par) && d.Kept(par) && blob == d.Blob(par, rest)
    ensures ok <==> mapcrc == Crc(0xffff, Serialised(d.es))
    ensures ok ==> rawmap[..] == Serialised(d.es)
  {
    hide Draft.Valid, Draft.Kept, Draft.Bits, ImportResult, TypesInside, TypesCovered, Serialised, MapBytes, Crc;
    WriterRoundTrip(d, par, rest);
    DraftSizes(d, par);
    ok, rawmap := DecompressV5Map(blob, par, mapcrc);
  }

  /** Looking up a hunk of it lazily yields its entry. */
  method LookUp(lm: LowRamMap, hunknum: nat, ghost d: Draft, ghost rest: seq<bool>)
    returns (err: Outcome, out: seq<byte>)
    requires d.Valid(lm.par) && d.Kept(lm.par) && lm.m == d.Source(lm.par, rest) && hunknum < |d.es|
    requires lm.Sane() && (lm.Resumes(hunknum) ==> lm.Current())
    modifies lm, lm.pass1Window, lm.pass2Window
    ensures err == Ok ==> lm.Valid() && out == EntryBytes(d.es[hunknum])
    ensures err != Ok ==> err == Failed(ReadError) && lm.Sane()
  {
    hide Draft.Valid, Draft.Kept, Draft.Bits, ImportResult, TypesInside, TypesCovered, Serialised, MapBytes, Crc,
         LowRamMap.Sane, LowRamMap.ResumeOk, EntryOf, EntryBytes;
    WriterRoundTrip(d, lm.par, rest);
    DraftSizes(d, lm.par);
    err, out := lm.GetEntry(hunknum);
  }

  lemma DraftSizes(d: Draft, par: Params)
    requires d.Valid(par)
    ensures par.Valid() && |d.es| == par.hunkcount
  {
  }
}
