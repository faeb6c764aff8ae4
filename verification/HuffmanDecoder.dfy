/** The Huffman decoder: run-length coded lengths in, canonical codes, a one-level or a two-level
    lookup table, and single-symbol decoding. */
module HuffmanDecoderModule {
  import opened Bits
  import opened BitstreamModule
  import opened HuffmanCodes
  import opened HuffmanTables

  datatype HuffError = NoError | InvalidData | InternalInconsistency | InputBufferTooSmall | TooManyContexts

  datatype Option<T> = None | Some(value: T)

  datatype Tree = Tree(lens: seq<nat>, pos: nat)

  /** Width of the first level of a two-level table. */
  const L1BITS := 10

  function TreeWidth(maxbits: nat): nat {
    if maxbits >= 16 then 5 else if maxbits >= 8 then 4 else 3
  }

  function Repeat(v: nat, n: nat): seq<nat> {
    seq(n, _ => v)
  }

  /** What follows an escaping 1: another 1 for a single 1, or v and r for r + 3 copies of v, of
      which no more than n may be needed in all. */
  function ReadEscape(data: seq<byte>, p: nat, n: nat, width: nat, acc: seq<nat>): (t: Option<Tree>)
    ensures t.Some? ==> |acc| < |t.value.lens| && (|acc| < n ==> |t.value.lens| <= n)
  {
    var b := ReadBits(data, p, width);
    var r := ReadBits(data, p + width, width) + 3;
    if b == 1 then Some(Tree(acc + [1], p + width))
    else if r + |acc| > n then None
    else Some(Tree(acc + Repeat(b, r), p + width + width))
  }

  /** One item of a stored tree: a value other than 1 stands for itself. */
  function ReadItem(data: seq<byte>, p: nat, n: nat, width: nat, acc: seq<nat>): (t: Option<Tree>)
    ensures t.Some? ==> |acc| < |t.value.lens| && (|acc| < n ==> |t.value.lens| <= n)
  {
    var a := ReadBits(data, p, width);
    if a != 1 then Some(Tree(acc + [a], p + width)) else ReadEscape(data, p + width, n, width, acc)
  }

  /** The n code lengths stored at p, after those in acc. */
  function ReadLens(data: seq<byte>, p: nat, n: nat, width: nat, acc: seq<nat>): (t: Option<Tree>)
    ensures t.Some? && |acc| <= n ==> |t.value.lens| == n
    decreases n - |acc|
  {
    if |acc| >= n then Some(Tree(acc, p))
    else
      var item := ReadItem(data, p, n, width, acc);
      if item.None? then None
      else ReadLens(data, item.value.pos, n, width, item.value.lens)
  }

  lemma NarrowPeek(data: seq<byte>, p: nat, n: nat)
    requires n <= 25
    ensures PeekValue(data, p, n) == ReadBits(data, p, n)
  {
  }

  /** Every window below n has a first-level entry among `size` of them. */
  ghost predicate Reaches(size: nat, extrabits: nat, n: nat) {
    forall w: nat {:trigger Shr(w, extrabits)} :: w < n ==> Shr(w, extrabits) < size
  }

  /** The histogram with the entries above codelen already replaced by first codes. */
  ghost predicate StartsFrom(lens: seq<nat>, hist: seq<nat>, codelen: nat) {
    && |hist| == 33 && codelen <= 32
    && (forall l :: 0 <= l <= codelen ==> hist[l] == Count(lens, l))
    && (forall l :: codelen < l <= 32 ==> hist[l] == Start(lens, l))
    && (forall l :: codelen < l <= 32 && l >= 2 ==> EvenAt(lens, l))
  }

  lemma StartsNext(lens: seq<nat>, hist: seq<nat>, codelen: nat)
    requires StartsFrom(lens, hist, codelen) && codelen > 0
    ensures (codelen == 1 || EvenAt(lens, codelen)) ==>
            StartsFrom(lens, hist[codelen := Start(lens, codelen)], codelen - 1)
    ensures Start(lens, codelen - 1) == (Start(lens, codelen) + hist[codelen]) / 2
  {
  }

  lemma StartsBegin(lens: seq<nat>, hist: seq<nat>)
    requires |hist| == 33 && forall l :: 0 <= l <= 32 ==> hist[l] == Count(lens, l)
    ensures StartsFrom(lens, hist, 32) && Start(lens, 32) == 0
  {
    hide Count;
  }

  lemma EvenMeans(lens: seq<nat>, hist: seq<nat>, codelen: nat)
    requires StartsFrom(lens, hist, codelen)
    ensures |hist| == 33 && (EvenAt(lens, codelen) <==> (Start(lens, codelen) + hist[codelen]) % 2 == 0)
  {
    hide Count, Start;
  }

  lemma StartsDone(lens: seq<nat>, hist: seq<nat>)
    requires StartsFrom(lens, hist, 0)
    ensures |hist| == 33 && (forall l :: 2 <= l <= 32 ==> EvenAt(lens, l))
    ensures forall l :: 1 <= l <= 32 ==> hist[l] == Start(lens, l)
  {
    hide Count, Start, EvenAt;
  }

  /** The build-time map from prefixes to subtables mirrors the escape entries. */
  ghost predicate Tracks(ids: seq<int>, lookup: seq<entry>) {
    && |ids| == |lookup|
    && forall x :: 0 <= x < |ids| ==>
         && (ids[x] >= 0 <==> lookup[x] % 32 == 0)
         && (ids[x] >= 0 ==> ids[x] == lookup[x] / 32)
  }

  /** Writes n copies of v from position lo on. */
  method WriteRun(a: array<nat>, lo: nat, n: nat, v: nat)
    requires lo + n <= a.Length
    modifies a
    ensures a[..lo + n] == old(a[..lo]) + Repeat(v, n)
  {
    var i := 0;
    while i < n
      invariant i <= n && a[..lo + i] == old(a[..lo]) + Repeat(v, i)
    {
      a[lo + i] := v;
      i := i + 1;
      assert a[..lo + i] == a[..lo + i - 1] + [v];
    }
  }

  /** Writes v to a[lo..hi]. */
  method FillRange(a: array<entry>, lo: nat, hi: nat, v: entry)
    requires lo <= hi <= a.Length
    modifies a
    ensures a[..] == Filled(old(a[..]), lo, hi, v)
  {
    var dest := lo;
    while dest < hi
      invariant lo <= dest <= hi
      invariant forall x :: 0 <= x < a.Length ==> a[x] == if lo <= x < dest then v else old(a[x])
    {
      a[dest] := v;
      dest := dest + 1;
    }
  }

  class HuffmanDecoder {
    const numcodes: nat
    const maxbits: nat
    /** Whether the table is two-level. */
    const lowram: bool
    /** Index width of `lookup`; all of maxbits for a one-level table. */
    const l1bits: nat
    /** Length and code of every symbol. */
    const numbits: array<nat>
    const codes: array<nat>
    const lookup: array<entry>
    /** The second-level tables, one per escaping prefix. */
    var subtable: seq<seq<entry>>

    ghost predicate Shape()
      reads this
    {
      && 1 <= maxbits <= 24 && numcodes <= 2048
      && l1bits == (if lowram && L1BITS < maxbits then L1BITS else maxbits)
      && numbits.Length == numcodes && codes.Length == numcodes && lookup.Length == Pow2(l1bits)
      && numbits != codes && numbits as object != lookup && codes as object != lookup
    }

    ghost function Lens(): seq<nat>
      reads numbits
    {
      numbits[..]
    }

    /** Every symbol with a code holds its canonical code. */
    ghost predicate Assigned()
      reads this, numbits, codes
      requires Shape()
    {
      && Consistent(Lens(), maxbits)
      && forall i: nat :: Coded(Lens(), maxbits, i) ==> codes[i] == Code(Lens(), i)
    }

    ghost predicate Indexed()
      reads this, lookup
      requires Shape()
    {
      && Linked(lookup[..], subtable, maxbits - l1bits)
      && (lowram ==> Separate(lookup[..]))
      && Reaches(lookup.Length, maxbits - l1bits, Pow2(maxbits))
    }

    /** The table gives every owned window its owner, and, when two-level, every other window the
        placeholder entry. */
    ghost predicate Built()
      reads this, numbits, lookup
    {
      && Shape()
      && Accepted(Lens(), maxbits)
      && (lowram ==> Indexed())
      && forall w: nat :: w < Pow2(maxbits) ==> EntryOk(w)
    }

    ghost predicate EntryOk(w: nat)
      reads this, numbits, lookup
      requires Shape() && w < Pow2(maxbits) && (lowram ==> Indexed())
    {
      var e := if lowram then View(lookup[..], subtable, maxbits - l1bits, w) else lookup[w];
      && (forall i: nat :: Owns(Lens(), maxbits, i, w) ==> e == MakeLookup(i, Lens()[i]))
      && (lowram && (forall i: nat :: !Owns(Lens(), maxbits, i, w)) ==> e == UNWRITTEN)
    }

    constructor (numcodes: nat, maxbits: nat, lowram: bool)
      requires 1 <= maxbits <= 24 && numcodes <= 2048
      ensures Shape() && this.numcodes == numcodes && this.maxbits == maxbits && this.lowram == lowram
      ensures fresh(numbits) && fresh(codes) && fresh(lookup)
    {
      this.numcodes, this.maxbits, this.lowram := numcodes, maxbits, lowram;
      var l1 := if lowram && L1BITS < maxbits then L1BITS else maxbits;
      l1bits := l1;
      numbits := new nat[numcodes];
      codes := new nat[numcodes];
      lookup := new entry[Pow2(l1)];
      subtable := [];
    }

    /** The histogram of code lengths, or false if one exceeds the maximum. */
    method CountLengths(bithisto: array<nat>) returns (ok: bool)
      requires Shape() && bithisto.Length == 33 && bithisto != numbits
      requires forall l :: 0 <= l <= 32 ==> bithisto[l] == 0
      modifies bithisto
      ensures ok <==> forall i :: 0 <= i < numcodes ==> numbits[i] <= maxbits
      ensures ok ==> forall l :: 0 <= l <= 32 ==> bithisto[l] == Count(Lens(), l)
    {
      ghost var lens := Lens();
      var curcode := 0;
      while curcode < numcodes
        invariant curcode <= numcodes && Lens() == lens
        invariant forall i :: 0 <= i < curcode ==> numbits[i] <= maxbits
        invariant forall l :: 0 <= l <= 32 ==> bithisto[l] == Count(lens[..curcode], l)
      {
        if numbits[curcode] > maxbits {
          return false;
        }
        assert lens[..curcode + 1][..curcode] == lens[..curcode];
        bithisto[numbits[curcode]] := bithisto[numbits[curcode]] + 1;
        curcode := curcode + 1;
      }
      assert lens[..numcodes] == lens;
      return true;
    }

    /** Turns the histogram into the first code of every length, longest first. */
    method StartCodes(bithisto: array<nat>) returns (ok: bool)
      requires Shape() && bithisto.Length == 33 && bithisto != numbits
      requires forall l :: 0 <= l <= 32 ==> bithisto[l] == Count(Lens(), l)
      modifies bithisto
      ensures ok <==> forall l :: 2 <= l <= 32 ==> EvenAt(Lens(), l)
      ensures ok ==> forall l :: 1 <= l <= 32 ==> bithisto[l] == Start(Lens(), l)
    {
      hide Count, Start, EvenAt, StartsFrom;
      ghost var lens := Lens();
      StartsBegin(lens, bithisto[..]);
      var curstart := 0;
      var codelen := 32;
      while codelen > 0
        invariant codelen <= 32 && curstart == Start(lens, codelen) && Lens() == lens
        invariant StartsFrom(lens, bithisto[..], codelen)
      {
        StartsNext(lens, bithisto[..], codelen);
        EvenMeans(lens, bithisto[..], codelen);
        var nextstart := (curstart + bithisto[codelen]) / 2;
        if codelen != 1 && nextstart * 2 != curstart + bithisto[codelen] {
          assert !EvenAt(lens, codelen);
          return false;
        }
        bithisto[codelen] := curstart;
        curstart := nextstart;
        codelen := codelen - 1;
      }
      StartsDone(lens, bithisto[..]);
      return true;
    }

    /** Gives every symbol its canonical code, or reports that the lengths form no such code. */
    method AssignCanonicalCodes() returns (err: HuffError)
      requires Shape()
      modifies codes
      ensures err == (if Consistent(Lens(), maxbits) then NoError else InternalInconsistency)
      ensures err == NoError ==> Assigned()
    {
      hide Start;
      var bithisto := new nat[33](_ => 0);
      ghost var lens := Lens();
      var ok := CountLengths(bithisto);
      if !ok { return InternalInconsistency; }
      ok := StartCodes(bithisto);
      if !ok { return InternalInconsistency; }

      var curcode := 0;
      while curcode < numcodes
        invariant curcode <= numcodes && Lens() == lens
        invariant forall l :: 1 <= l <= 32 ==> bithisto[l] == Start(lens, l) + Count(lens[..curcode], l)
        invariant forall i: nat :: i < curcode && Coded(lens, maxbits, i) ==> codes[i] == Code(lens, i)
      {
        assert lens[..curcode + 1][..curcode] == lens[..curcode];
        if numbits[curcode] > 0 {
          codes[curcode] := bithisto[numbits[curcode]];
          bithisto[numbits[curcode]] := bithisto[numbits[curcode]] + 1;
        }
        curcode := curcode + 1;
      }
      return NoError;
    }

    /** Enters one symbol into a table indexed by width bits, unless its interval leaves the table. */
    method EnterCode(curcode: nat, width: nat) returns (ok: bool)
      requires Shape() && Assigned() && curcode < numcodes && lookup.Length == Pow2(width)
      requires 0 < numbits[curcode] <= width <= maxbits
      modifies lookup
      ensures ok <==> Shl(Code(Lens(), curcode) + 1, width - numbits[curcode]) <= Pow2(width)
      ensures ok ==> lookup[..] == Filled(old(lookup[..]),
                                          Shl(Code(Lens(), curcode), width - numbits[curcode]),
                                          Shl(Code(Lens(), curcode) + 1, width - numbits[curcode]),
                                          MakeLookup(curcode, numbits[curcode]))
    {
      hide Code, Filled, MakeLookup, Shl;
      assert Coded(Lens(), maxbits, curcode);
      var shift := width - numbits[curcode];
      var dest, end := Shl(codes[curcode], shift), Shl(codes[curcode] + 1, shift);
      ShlMono(codes[curcode], codes[curcode] + 1, shift);
      Pow2Mono(0, shift);
      if dest >= Pow2(width) || end > Pow2(width) {
        return false;
      }
      FillRange(lookup, dest, end, MakeLookup(curcode, numbits[curcode]));
      return true;
    }

    /** Fills the one-level table; windows no code owns keep whatever they held. */
    method BuildFullTable() returns (err: HuffError)
      requires Shape() && !lowram && Assigned()
      modifies lookup
      ensures err == (if Fits(Lens(), maxbits) then NoError else InternalInconsistency)
      ensures err == NoError ==> Built()
      ensures err == NoError ==>
              forall w: nat :: w < Pow2(maxbits) && (forall i: nat :: !Owns(Lens(), maxbits, i, w))
                               ==> lookup[w] == old(lookup[w])
    {
      hide Painted, Owns, Code, Filled, MakeLookup;
      ghost var lens := Lens();
      ghost var before := lookup[..];
      var curcode := 0;
      NothingPainted(lens, maxbits, before);
      while curcode < numcodes
        invariant curcode <= numcodes && Lens() == lens && Assigned()
        invariant forall i: nat :: i < curcode && Coded(lens, maxbits, i) ==> Hi(lens, maxbits, i) <= Pow2(maxbits)
        invariant Painted(lens, maxbits, curcode, lookup[..], before)
      {
        FullFill(lens, maxbits, curcode, lookup[..], before);
        if numbits[curcode] > 0 {
          assert Coded(lens, maxbits, curcode);
          var ok := EnterCode(curcode, maxbits);
          if !ok {
            assert Hi(lens, maxbits, curcode) > Pow2(maxbits);
            return InternalInconsistency;
          }
        }
        curcode := curcode + 1;
      }
      forall w: nat | w < Pow2(maxbits)
        ensures EntryOk(w)
        ensures (forall i: nat :: !Owns(lens, maxbits, i, w)) ==> lookup[w] == before[w]
      {
        PaintedAll(lens, maxbits, lookup[..], before, w);
      }
      return NoError;
    }

    /** The first loop of the two-level build has entered the short codes below c. */
    ghost predicate ShortState(c: nat)
      reads this, numbits, lookup
      requires Shape()
    {
      && PaintedTwo(Lens(), maxbits, l1bits, c, 0, lookup[..], []) && Escapes(lookup[..]) == {}
      && FitBelow(c, false)
    }

    /** The second loop has entered the long codes below c. */
    ghost predicate LongState(c: nat, ids: seq<int>)
      reads this, numbits, lookup
      requires Shape()
    {
      && PaintedTwo(Lens(), maxbits, l1bits, numcodes, c, lookup[..], subtable)
      && Separate(lookup[..]) && |Escapes(lookup[..])| == |subtable|
      && Tracks(ids, lookup[..])
      && FitBelow(c, true)
    }

    /** The long, or the short, codes below c lie inside the table. */
    ghost predicate FitBelow(c: nat, long: bool)
      reads this, numbits
      requires Shape()
    {
      forall i: nat :: i < c && Coded(Lens(), maxbits, i) && (long <==> Lens()[i] > l1bits)
                       ==> Hi(Lens(), maxbits, i) <= Pow2(maxbits)
    }

    method EnterShort(c: nat) returns (ok: bool)
      requires Shape() && lowram && Assigned() && c < numcodes && ShortState(c)
      modifies lookup
      ensures !ok ==> !Fits(Lens(), maxbits)
      ensures ok ==> ShortState(c + 1)
    {
      hide Shl, Count, Start, PaintedTwo, Escapes;
      TwoShort(Lens(), maxbits, l1bits, c, lookup[..], []);
      ok := true;
      if 0 < numbits[c] <= l1bits {
        assert Coded(Lens(), maxbits, c);
        ShortFitsIff(Lens(), maxbits, l1bits, c);
        ok := EnterCode(c, l1bits);
      }
    }

    /** Gives the prefix a subtable of its own if it has none yet. */
    method EnsureSubtable(c: nat, prefix: nat, prefixSubid: array<int>) returns (err: HuffError)
      requires Shape() && lowram && Assigned() && c < numcodes && LongState(c, prefixSubid[..])
      requires l1bits < numbits[c] && prefix == Prefix(Lens(), l1bits, c) < Pow2(l1bits)
      modifies this`subtable, lookup, prefixSubid
      ensures err == NoError && LongState(c, prefixSubid[..]) && prefixSubid[prefix] >= 0
    {
      assert Coded(Lens(), maxbits, c);
      if prefixSubid[prefix] < 0 {
        ghost var was := lookup[..];
        TwoEscape(Lens(), maxbits, l1bits, numcodes, c, was, subtable);
        if |subtable| >= 2048 {
          return TooManyContexts;
        }
        var subid := |subtable|;
        MakeLookupParts(subid, 0);
        subtable := subtable + [seq(Pow2(maxbits - l1bits), _ => UNWRITTEN)];
        lookup[prefix] := MakeLookup(subid, 0);
        prefixSubid[prefix] := subid;
        assert lookup[..] == was[prefix := MakeLookup(subid, 0)];
      }
      return NoError;
    }

    /** Fills the entries of one long code in its prefix's subtable. */
    method EnterBelow(c: nat, prefix: nat, subid: nat)
      requires Shape() && Assigned() && c < numcodes && l1bits < numbits[c] <= maxbits
      requires prefix == Prefix(Lens(), l1bits, c) && subid < |subtable|
      modifies this`subtable
      ensures subtable == WithLong(Lens(), maxbits, l1bits, old(subtable), subid, c)
    {
      hide MakeLookup, Filled, Shl, Code;
      assert Coded(Lens(), maxbits, c);
      var restbits, extrabits := numbits[c] - l1bits, maxbits - l1bits;
      var localBits := codes[c] - Shl(prefix, restbits);
      var localShift := extrabits - restbits;
      assert localBits == LowBits(codes[c], restbits);
      subtable := subtable[subid := Filled(subtable[subid], Shl(localBits, localShift), Shl(localBits + 1, localShift),
                                           MakeLookup(c, numbits[c]))];
    }

    /** Enters a long code whose prefix already has its subtable. */
    method EnterEscaped(c: nat, prefix: nat, ghost ids: seq<int>, subid: nat)
      requires Shape() && lowram && Assigned() && c < numcodes && LongState(c, ids)
      requires l1bits < numbits[c] && prefix == Prefix(Lens(), l1bits, c) < Pow2(l1bits)
      requires ids[prefix] == subid
      modifies this`subtable
      ensures LongState(c + 1, ids)
    {
      assert Coded(Lens(), maxbits, c);
      assert lookup[..][prefix] / 32 == subid;
      assert FitBelow(c + 1, true) by {
        LongFitsIff(Lens(), maxbits, l1bits, c);
      }
      TwoLong(Lens(), maxbits, l1bits, numcodes, c, lookup[..], subtable);
      EnterBelow(c, prefix, subid);
    }

    method EnterLong(c: nat, prefixSubid: array<int>) returns (err: HuffError)
      requires Shape() && lowram && Assigned() && c < numcodes && LongState(c, prefixSubid[..])
      modifies this`subtable, lookup, prefixSubid
      ensures err == NoError || (err == InternalInconsistency && !Fits(Lens(), maxbits))
      ensures err == NoError ==> LongState(c + 1, prefixSubid[..])
    {
      hide Shr, Code;
      err := NoError;
      if numbits[c] > l1bits {
        assert Coded(Lens(), maxbits, c);
        var restbits := numbits[c] - l1bits;
        var prefix := Shr(codes[c], restbits);
        if prefix >= Pow2(l1bits) {
          LongFitsIff(Lens(), maxbits, l1bits, c);
          return InternalInconsistency;
        }
        err := EnsureSubtable(c, prefix, prefixSubid);
        EnterEscaped(c, prefix, prefixSubid[..], prefixSubid[prefix]);
      } else {
        TwoSkip(Lens(), maxbits, l1bits, numcodes, c, lookup[..], subtable);
      }
    }

    /** Writes the placeholder to every first-level entry. */
    method Prefill()
      requires Shape()
      modifies lookup
      ensures forall x :: 0 <= x < lookup.Length ==> lookup[x] == UNWRITTEN
    {
      var i := 0;
      while i < lookup.Length
        invariant i <= lookup.Length && forall x :: 0 <= x < i ==> lookup[x] == UNWRITTEN
      {
        lookup[i] := UNWRITTEN;
        i := i + 1;
      }
    }

    /** Rebuilds the two-level table from scratch: the result depends on the lengths alone. */
    method BuildTwoLevelTable() returns (err: HuffError)
      requires Shape() && lowram && Assigned()
      modifies this`subtable, lookup
      ensures err == (if Fits(Lens(), maxbits) then NoError else InternalInconsistency)
      ensures err == NoError ==> Built()
    {
      hide PaintedTwo, Owns, View;
      subtable := [];
      Prefill();
      TwoEmpty(Lens(), maxbits, l1bits, lookup[..]);
      var c := 0;
      while c < numcodes
        invariant c <= numcodes && Assigned() && ShortState(c) && subtable == []
      {
        var ok := EnterShort(c);
        if !ok { return InternalInconsistency; }
        c := c + 1;
      }
      assert FitBelow(numcodes, false);
      var prefixSubid := new int[Pow2(l1bits)](_ => -1);
      NothingTracked(lookup[..], prefixSubid[..]);
      c := 0;
      while c < numcodes
        invariant c <= numcodes && Assigned() && LongState(c, prefixSubid[..]) && FitBelow(numcodes, false)
      {
        err := EnterLong(c, prefixSubid);
        if err != NoError { return; }
        c := c + 1;
      }
      TwoDone();
      return NoError;
    }

    /** When both loops have passed every symbol the table is complete. */
    lemma TwoDone()
      requires Shape() && lowram && Consistent(Lens(), maxbits)
      requires PaintedTwo(Lens(), maxbits, l1bits, numcodes, numcodes, lookup[..], subtable) && Separate(lookup[..])
      requires FitBelow(numcodes, false) && FitBelow(numcodes, true)
      ensures Fits(Lens(), maxbits) && Built()
    {
      var extra := maxbits - l1bits;
      forall w: nat {:trigger Shr(w, extra)} | w < Pow2(maxbits) ensures Shr(w, extra) < lookup.Length {
        WindowPrefix(maxbits, l1bits, w);
      }
      forall w: nat | w < Pow2(maxbits) ensures EntryOk(w) {
        assert WindowOk(Lens(), maxbits, l1bits, numcodes, numcodes, lookup[..], subtable, w);
      }
    }

    method BuildLookupTable() returns (err: HuffError)
      requires Shape() && Assigned()
      modifies this`subtable, lookup
      ensures err == (if Fits(Lens(), maxbits) then NoError else InternalInconsistency)
      ensures err == NoError ==> Built()
    {
      if lowram {
        err := BuildTwoLevelTable();
      } else {
        err := BuildFullTable();
      }
    }

    /** What a complete table holds for the window at position p. */
    lemma EntryDecodes(data: seq<byte>, p: nat, e: entry)
      requires Built()
      requires e == (var w := ReadBits(data, p, maxbits);
                     if lowram then View(lookup[..], subtable, maxbits - l1bits, w) else lookup[w])
      ensures Covered(Lens(), maxbits, data, p) || lowram ==>
              e / 32 == Symbol(Lens(), maxbits, data, p) && e % 32 == Length(Lens(), maxbits, data, p)
    {
      var w := ReadBits(data, p, maxbits);
      assert EntryOk(w);
      var i := Find(Lens(), maxbits, data, p, 0);
      FindMeaning(Lens(), maxbits, data, p, 0);
      if i < |Lens()| {
        CodeAtIffOwns(Lens(), maxbits, data, p, i);
        MakeLookupParts(i, Lens()[i]);
      } else {
        forall j: nat ensures !Owns(Lens(), maxbits, j, w) {
          CodeAtIffOwns(Lens(), maxbits, data, p, j);
        }
        MakeLookupParts(0, 1);
      }
    }

    /** Decodes one symbol. A two-level table also answers where no code begins; a one-level table
        then holds whatever its memory held. */
    method DecodeOne(bitbuf: Bitstream) returns (r: nat)
      requires Built() && bitbuf.Valid()
      modifies bitbuf
      ensures bitbuf.Valid() && r < 2048
      ensures lowram || Covered(Lens(), maxbits, bitbuf.data, old(bitbuf.Position())) ==>
              && r == Symbol(Lens(), maxbits, bitbuf.data, old(bitbuf.Position()))
              && bitbuf.Position() == old(bitbuf.Position())
                                      + Length(Lens(), maxbits, bitbuf.data, old(bitbuf.Position()))
              && bitbuf.bits >= 0
    {
      hide ReadBits, Find, Owns, PeekValue, Bitstream.Valid, Bitstream.Position;
      ghost var p := bitbuf.Position();
      var window := bitbuf.Peek(maxbits);
      NarrowPeek(bitbuf.data, p, maxbits);
      var e: entry;
      if lowram {
        var extrabits := maxbits - l1bits;
        WindowPrefix(maxbits, l1bits, window);
        e := lookup[Shr(window, extrabits)];
        if e % 32 == 0 {
          e := subtable[e / 32][LowBits(window, extrabits)];
        }
      } else {
        e := lookup[window];
      }
      EntryDecodes(bitbuf.data, p, e);
      LengthBound(Lens(), maxbits, bitbuf.data, p);
      bitbuf.Remove(e % 32);
      r := e / 32;
    }

    /** Reads what follows an escaping 1 into the nodes from curnode on. */
    method ReadEscapedNodes(bitbuf: Bitstream, curnode: nat) returns (ok: bool, next: nat)
      requires Shape() && bitbuf.Valid() && bitbuf.bits >= 0 && curnode < numcodes
      modifies bitbuf, numbits
      ensures bitbuf.Valid() && bitbuf.bits >= 0
      ensures var t := ReadEscape(bitbuf.data, old(bitbuf.Position()), numcodes, TreeWidth(maxbits), old(numbits[..curnode]));
              && ok == t.Some?
              && (ok ==> curnode < next <= numcodes && t.value == Tree(numbits[..next], bitbuf.Position()))
    {
      hide ReadBits, Shl;
      ghost var acc := numbits[..curnode];
      var nodebits := bitbuf.ReadNarrow(TreeWidth(maxbits));
      if nodebits == 1 {
        numbits[curnode] := nodebits;
        ok, next := true, curnode + 1;
        assert numbits[..next] == acc + [1];
      } else {
        var repcount := bitbuf.ReadNarrow(TreeWidth(maxbits));
        repcount := repcount + 3;
        if repcount + curnode > numcodes {
          return false, curnode;
        }
        WriteRun(numbits, curnode, repcount, nodebits);
        ok, next := true, curnode + repcount;
      }
    }

    /** Reads one item of the tree into the nodes from curnode on. */
    method ReadNodes(bitbuf: Bitstream, curnode: nat) returns (ok: bool, next: nat)
      requires Shape() && bitbuf.Valid() && bitbuf.bits >= 0 && curnode < numcodes
      modifies bitbuf, numbits
      ensures bitbuf.Valid() && bitbuf.bits >= 0
      ensures var t := ReadItem(bitbuf.data, old(bitbuf.Position()), numcodes, TreeWidth(maxbits), old(numbits[..curnode]));
              && ok == t.Some?
              && (ok ==> curnode < next <= numcodes && t.value == Tree(numbits[..next], bitbuf.Position()))
    {
      ghost var acc := numbits[..curnode];
      var nodebits := bitbuf.ReadNarrow(TreeWidth(maxbits));
      if nodebits != 1 {
        numbits[curnode] := nodebits;
        ok, next := true, curnode + 1;
        assert numbits[..next] == acc + [nodebits];
      } else {
        ok, next := ReadEscapedNodes(bitbuf, curnode);
      }
    }

    /** Reads the code lengths. */
    method ReadTree(bitbuf: Bitstream) returns (ok: bool)
      requires Shape() && bitbuf.Valid() && bitbuf.bits >= 0
      modifies bitbuf, numbits
      ensures bitbuf.Valid() && bitbuf.bits >= 0
      ensures var t := ReadLens(bitbuf.data, old(bitbuf.Position()), numcodes, TreeWidth(maxbits), []);
              ok == t.Some? && (ok ==> t.value == Tree(Lens(), bitbuf.Position()))
    {
      ghost var width, p := TreeWidth(maxbits), bitbuf.Position();
      var curnode := 0;
      while curnode < numcodes
        invariant curnode <= numcodes && bitbuf.Valid() && bitbuf.bits >= 0
        invariant ReadLens(bitbuf.data, p, numcodes, width, [])
               == ReadLens(bitbuf.data, bitbuf.Position(), numcodes, width, numbits[..curnode])
      {
        var next: nat;
        ok, next := ReadNodes(bitbuf, curnode);
        if !ok { return; }
        curnode := next;
      }
      assert numbits[..curnode] == Lens();
      return true;
    }

    /** Imports a run-length coded tree: succeeds exactly when the lengths can be read, form an
        accepted code, and were not read past the end of the data. */
    method ImportTreeRle(bitbuf: Bitstream) returns (err: HuffError)
      requires Shape() && bitbuf.Valid() && bitbuf.bits >= 0
      modifies this`subtable, numbits, codes, lookup, bitbuf
      ensures bitbuf.Valid() && bitbuf.bits >= 0
      ensures err == ImportResult(bitbuf.data, old(bitbuf.Position()), numcodes, maxbits)
      ensures err == NoError ==>
              && Built()
              && ReadLens(bitbuf.data, old(bitbuf.Position()), numcodes, TreeWidth(maxbits), [])
                 == Some(Tree(Lens(), bitbuf.Position()))
    {
      var ok := ReadTree(bitbuf);
      if !ok { return InvalidData; }
      err := AssignCanonicalCodes();
      if err != NoError { return; }
      err := BuildLookupTable();
      if err != NoError { return; }
      var overflow := bitbuf.Overflow();
      return if overflow then InputBufferTooSmall else NoError;
    }
  }

  /** The outcome of importing the tree stored at p. */
  ghost function ImportResult(data: seq<byte>, p: nat, numcodes: nat, maxbits: nat): HuffError
    requires maxbits <= 32
  {
    var t := ReadLens(data, p, numcodes, TreeWidth(maxbits), []);
    if t.None? then InvalidData
    else if !Accepted(t.value.lens, maxbits) then InternalInconsistency
    else if t.value.pos > 8 * |data| then InputBufferTooSmall
    else NoError
  }

  lemma NothingPainted(lens: seq<nat>, maxbits: nat, before: seq<entry>)
    requires maxbits <= 32 && |before| == Pow2(maxbits)
    ensures Painted(lens, maxbits, 0, before, before)
  {
  }

  lemma NothingTracked(lookup: seq<entry>, ids: seq<int>)
    requires Escapes(lookup) == {} && |ids| == |lookup| && forall x :: 0 <= x < |ids| ==> ids[x] == -1
    ensures Tracks(ids, lookup) && Separate(lookup)
  {
    forall x: nat | x < |lookup| ensures lookup[x] % 32 != 0 {
      assert x !in Escapes(lookup);
    }
  }
}
