/** Decoding tables as sequences: what each step of filling the one-level and the two-level table
    does to the entry that every window sees. */
module HuffmanTables {
  import opened Bits
  import opened HuffmanCodes

  /** A table entry: symbol << 5 | code length, in 16 bits. */
  type entry = x: int | 0 <= x < 65536

  function MakeLookup(code: nat, bits: nat): entry {
    (code * 32 + bits % 32) % 65536
  }

  const UNWRITTEN: entry := MakeLookup(0, 1)

  lemma MakeLookupParts(code: nat, bits: nat)
    requires code < 2048 && bits < 32
    ensures MakeLookup(code, bits) / 32 == code && MakeLookup(code, bits) % 32 == bits
  {
  }

  lemma ShrAtLeast(w: nat, n: nat, a: nat)
    ensures Shr(w, n) >= a <==> w >= Shl(a, n)
  {
    var rest := LowBits(w, n);
    ShlMono(a, Shr(w, n), n);
    ShlMono(Shr(w, n), a, n);
  }

  // ---- progress of the build loops

  /** Code i has been entered: the first loop has passed cs symbols and enters the codes of at most
      l1 bits, the second has passed cl symbols and enters the longer ones. */
  predicate Done(lens: seq<nat>, maxbits: nat, l1: nat, cs: nat, cl: nat, i: nat) {
    Coded(lens, maxbits, i) && (if lens[i] <= l1 then i < cs else i < cl)
  }

  /** Window w sees the entry of the entered code that owns it, or else what was there before. */
  ghost predicate PaintedAt(lens: seq<nat>, maxbits: nat, l1: nat, cs: nat, cl: nat, w: nat, e: entry, base: entry)
    requires maxbits <= 32
  {
    && (forall i: nat :: Done(lens, maxbits, l1, cs, cl, i) && Owns(lens, maxbits, i, w)
                         ==> e == MakeLookup(i, lens[i]))
    && ((forall i: nat :: Done(lens, maxbits, l1, cs, cl, i) ==> !Owns(lens, maxbits, i, w)) ==> e == base)
  }

  lemma PaintNext(lens: seq<nat>, maxbits: nat, l1: nat, cs: nat, cl: nat, short: bool, w: nat, e: entry, base: entry)
    requires maxbits <= 32 && Consistent(lens, maxbits)
    requires PaintedAt(lens, maxbits, l1, cs, cl, w, e, base)
    ensures var c := if short then cs else cl;
            var e' := if Coded(lens, maxbits, c) && (short <==> lens[c] <= l1) && Owns(lens, maxbits, c, w)
                      then MakeLookup(c, lens[c]) else e;
            if short then PaintedAt(lens, maxbits, l1, cs + 1, cl, w, e', base)
            else PaintedAt(lens, maxbits, l1, cs, cl + 1, w, e', base)
  {
    var c := if short then cs else cl;
    var cs', cl' := if short then cs + 1 else cs, if short then cl else cl + 1;
    forall i: nat ensures Done(lens, maxbits, l1, cs', cl', i)
                     <==> Done(lens, maxbits, l1, cs, cl, i)
                          || (i == c && Coded(lens, maxbits, c) && (short <==> lens[c] <= l1))
    {
    }
    if Coded(lens, maxbits, c) && (short <==> lens[c] <= l1) && Owns(lens, maxbits, c, w) {
      forall i: nat | Owns(lens, maxbits, i, w) ensures i == c {
        OwnerUnique(lens, maxbits, i, c, w);
      }
    }
  }

  // ---- the one-level table

  ghost predicate Painted(lens: seq<nat>, maxbits: nat, c: nat, table: seq<entry>, base: seq<entry>)
    requires maxbits <= 32
  {
    && |table| == |base| == Pow2(maxbits)
    && forall w: nat :: w < |table| ==> PaintedAt(lens, maxbits, maxbits, c, 0, w, table[w], base[w])
  }

  function Filled(s: seq<entry>, lo: nat, hi: nat, v: entry): (r: seq<entry>)
    ensures |r| == |s| && forall x :: 0 <= x < |s| ==> r[x] == if lo <= x < hi then v else s[x]
  {
    seq(|s|, x requires 0 <= x < |s| => if lo <= x < hi then v else s[x])
  }

  /** Entering symbol c into a one-level table. */
  lemma FullFill(lens: seq<nat>, maxbits: nat, c: nat, table: seq<entry>, base: seq<entry>)
    requires maxbits <= 32 && Consistent(lens, maxbits) && Painted(lens, maxbits, c, table, base)
    ensures Coded(lens, maxbits, c) ==>
            Painted(lens, maxbits, c + 1,
                    Filled(table, Lo(lens, maxbits, c), Hi(lens, maxbits, c), MakeLookup(c, lens[c])), base)
    ensures !Coded(lens, maxbits, c) ==> Painted(lens, maxbits, c + 1, table, base)
  {
    forall w: nat | w < |table|
      ensures var e := if Owns(lens, maxbits, c, w) then MakeLookup(c, lens[c]) else table[w];
              PaintedAt(lens, maxbits, maxbits, c + 1, 0, w, e, base[w])
    {
      PaintNext(lens, maxbits, maxbits, c, 0, true, w, table[w], base[w]);
    }
  }

  /** Once every symbol is entered, each window sees its owner, or else what was there before. */
  lemma PaintedAll(lens: seq<nat>, maxbits: nat, table: seq<entry>, base: seq<entry>, w: nat)
    requires maxbits <= 32 && Painted(lens, maxbits, |lens|, table, base) && w < Pow2(maxbits)
    ensures forall i: nat :: Owns(lens, maxbits, i, w) ==> table[w] == MakeLookup(i, lens[i])
    ensures (forall i: nat :: !Owns(lens, maxbits, i, w)) ==> table[w] == base[w]
  {
    assert PaintedAt(lens, maxbits, maxbits, |lens|, 0, w, table[w], base[w]);
  }

  // ---- the two-level table

  /** What window w of a two-level table reads: its first-level entry, or, when that is an escape
      (length 0), the entry of the subtable it names. */
  function View(lookup: seq<entry>, subtable: seq<seq<entry>>, extrabits: nat, w: nat): entry
    requires Linked(lookup, subtable, extrabits) && Shr(w, extrabits) < |lookup|
  {
    var e := lookup[Shr(w, extrabits)];
    if e % 32 == 0 then subtable[e / 32][LowBits(w, extrabits)] else e
  }

  /** Escapes name existing subtables. */
  predicate Linked(lookup: seq<entry>, subtable: seq<seq<entry>>, extrabits: nat) {
    && (forall x :: 0 <= x < |lookup| && lookup[x] % 32 == 0 ==> lookup[x] / 32 < |subtable|)
    && (forall k :: 0 <= k < |subtable| ==> |subtable[k]| == Pow2(extrabits))
  }

  /** No two prefixes share a subtable. */
  predicate Separate(lookup: seq<entry>) {
    forall x, y :: 0 <= x < y < |lookup| && lookup[x] % 32 == 0 && lookup[y] % 32 == 0
                   ==> lookup[x] / 32 != lookup[y] / 32
  }

  /** Entering a short code changes exactly the windows it owns. */
  lemma ShortFill(lens: seq<nat>, maxbits: nat, l1: nat, lookup: seq<entry>, subtable: seq<seq<entry>>, c: nat, w: nat)
    requires l1 <= maxbits <= 24 && Coded(lens, maxbits, c) && lens[c] <= l1 && c < 2048
    requires Linked(lookup, subtable, maxbits - l1) && Shr(w, maxbits - l1) < |lookup|
    ensures var lo, hi := Shl(Code(lens, c), l1 - lens[c]), Shl(Code(lens, c) + 1, l1 - lens[c]);
            var lookup' := Filled(lookup, lo, hi, MakeLookup(c, lens[c]));
            && Linked(lookup', subtable, maxbits - l1)
            && View(lookup', subtable, maxbits - l1, w)
               == if Owns(lens, maxbits, c, w) then MakeLookup(c, lens[c])
                  else View(lookup, subtable, maxbits - l1, w)
  {
    hide Shl, Start, Rank;
    MakeLookupParts(c, lens[c]);
    ShortSplit(Code(lens, c), l1 - lens[c], maxbits - l1, w);
  }

  lemma ShortSplit(code: nat, k: nat, extra: nat, w: nat)
    ensures Shl(code, k) <= Shr(w, extra) < Shl(code + 1, k)
       <==> Shl(code, k + extra) <= w < Shl(code + 1, k + extra)
  {
    ShrAtLeast(w, extra, Shl(code, k));
    ShrAtLeast(w, extra, Shl(code + 1, k));
    ShlShl(code, k, extra);
    ShlShl(code + 1, k, extra);
  }

  lemma ShortFitsIff(lens: seq<nat>, maxbits: nat, l1: nat, c: nat)
    requires l1 <= maxbits <= 24 && Coded(lens, maxbits, c) && lens[c] <= l1
    ensures Shl(Code(lens, c) + 1, l1 - lens[c]) <= Pow2(l1) <==> Hi(lens, maxbits, c) <= Pow2(maxbits)
  {
    var a := Shl(Code(lens, c) + 1, l1 - lens[c]);
    ShlShl(Code(lens, c) + 1, l1 - lens[c], maxbits - l1);
    ShlShl(1, l1, maxbits - l1);
    ShlMono(a, Pow2(l1), maxbits - l1);
  }

  /** The first-level prefix of a long code. */
  function Prefix(lens: seq<nat>, l1: nat, c: nat): nat
    requires c < |lens| && l1 < lens[c] <= 32
  {
    Shr(Code(lens, c), lens[c] - l1)
  }

  lemma LongFitsIff(lens: seq<nat>, maxbits: nat, l1: nat, c: nat)
    requires l1 <= maxbits <= 24 && Coded(lens, maxbits, c) && lens[c] > l1
    ensures Prefix(lens, l1, c) < Pow2(l1) <==> Hi(lens, maxbits, c) <= Pow2(maxbits)
  {
    var code, rest := Code(lens, c), lens[c] - l1;
    ShrAtLeast(code, rest, Pow2(l1));
    ShlShl(1, l1, rest);
    ShlShl(1, lens[c], maxbits - lens[c]);
    ShlMono(code + 1, Pow2(lens[c]), maxbits - lens[c]);
  }

  /** The windows a long code owns all carry its prefix, and lie consecutively below it. */
  lemma LongWindows(lens: seq<nat>, maxbits: nat, l1: nat, c: nat, w: nat)
    requires l1 <= maxbits <= 24 && Coded(lens, maxbits, c) && lens[c] > l1
    ensures var rest := lens[c] - l1;
            var local, k := LowBits(Code(lens, c), rest), maxbits - lens[c];
            && Shl(local + 1, k) <= Pow2(maxbits - l1)
            && (Owns(lens, maxbits, c, w) <==>
                Shr(w, maxbits - l1) == Prefix(lens, l1, c)
                && Shl(local, k) <= LowBits(w, maxbits - l1) < Shl(local + 1, k))
  {
    LongSplit(Code(lens, c), lens[c] - l1, maxbits - lens[c], w);
  }

  lemma LongSplit(code: nat, rest: nat, k: nat, w: nat)
    ensures var local := LowBits(code, rest);
            && Shl(local + 1, k) <= Pow2(rest + k)
            && (Shl(code, k) <= w < Shl(code + 1, k) <==>
                Shr(w, rest + k) == Shr(code, rest) && Shl(local, k) <= LowBits(w, rest + k) < Shl(local + 1, k))
  {
    var x, y, local := Shr(code, rest), Shr(w, rest + k), LowBits(code, rest);
    LongShift(x, local, rest, k);
    LongShift(x, local + 1, rest, k);
    BlockOrder(x, y, LowBits(w, rest + k), Shl(local, k), Shl(local + 1, k), rest + k);
  }

  lemma LongShift(x: nat, local: nat, rest: nat, k: nat)
    ensures Shl(Shl(x, rest) + local, k) == Shl(x, rest + k) + Shl(local, k)
    ensures local <= Pow2(rest) ==> Shl(local, k) <= Pow2(rest + k)
  {
    ShlAdd(Shl(x, rest), local, k);
    ShlShl(x, rest, k);
    ShlMono(local, Pow2(rest), k);
    ShlShl(1, rest, k);
  }

  lemma BlockOrder(x: nat, y: nat, low: nat, a: nat, b: nat, n: nat)
    requires low < Pow2(n) && b <= Pow2(n)
    ensures Shl(x, n) + a <= Shl(y, n) + low < Shl(x, n) + b <==> y == x && a <= low < b
  {
    ShlMono(x, y, n);
    ShlMono(y, x, n);
  }

  /** Giving a prefix without code entries its own unwritten subtable changes no window. */
  lemma EscapeKeeps(lookup: seq<entry>, subtable: seq<seq<entry>>, extrabits: nat, x: nat, w: nat)
    requires Linked(lookup, subtable, extrabits) && Separate(lookup)
    requires x < |lookup| && lookup[x] == UNWRITTEN && |subtable| < 2048
    requires Shr(w, extrabits) < |lookup|
    ensures var lookup' := lookup[x := MakeLookup(|subtable|, 0)];
            var subtable' := subtable + [seq(Pow2(extrabits), _ => UNWRITTEN)];
            && Linked(lookup', subtable', extrabits) && Separate(lookup')
            && View(lookup', subtable', extrabits, w) == View(lookup, subtable, extrabits, w)
  {
    MakeLookupParts(|subtable|, 0);
    MakeLookupParts(0, 1);
  }

  /** The subtables after long code c has been entered in number id. */
  function WithLong(lens: seq<nat>, maxbits: nat, l1: nat, subtable: seq<seq<entry>>, id: nat, c: nat): seq<seq<entry>>
    requires l1 <= maxbits <= 24 && Coded(lens, maxbits, c) && lens[c] > l1 && id < |subtable|
  {
    var local, k := LowBits(Code(lens, c), lens[c] - l1), maxbits - lens[c];
    subtable[id := Filled(subtable[id], Shl(local, k), Shl(local + 1, k), MakeLookup(c, lens[c]))]
  }

  /** Entering a long code changes exactly the windows it owns. */
  lemma LongFill(lens: seq<nat>, maxbits: nat, l1: nat, lookup: seq<entry>, subtable: seq<seq<entry>>, c: nat, w: nat)
    requires l1 <= maxbits <= 24 && Coded(lens, maxbits, c) && lens[c] > l1 && c < 2048
    requires Linked(lookup, subtable, maxbits - l1) && Separate(lookup)
    requires Shr(w, maxbits - l1) < |lookup|
    requires Prefix(lens, l1, c) < |lookup| && lookup[Prefix(lens, l1, c)] % 32 == 0
    ensures var subtable' := WithLong(lens, maxbits, l1, subtable, lookup[Prefix(lens, l1, c)] / 32, c);
            && Linked(lookup, subtable', maxbits - l1)
            && View(lookup, subtable', maxbits - l1, w)
               == if Owns(lens, maxbits, c, w) then MakeLookup(c, lens[c])
                  else View(lookup, subtable, maxbits - l1, w)
  {
    LongWindows(lens, maxbits, l1, c, w);
    var y := Shr(w, maxbits - l1);
    if lookup[y] % 32 == 0 && y != Prefix(lens, l1, c) {
      assert lookup[y] / 32 != lookup[Prefix(lens, l1, c)] / 32;
    }
  }

  /** The prefix of a code not yet entered is either an escape or still unwritten. */
  lemma UnenteredPrefix(lens: seq<nat>, maxbits: nat, l1: nat, lookup: seq<entry>, subtable: seq<seq<entry>>, cs: nat, c: nat)
    requires l1 <= maxbits <= 24 && Consistent(lens, maxbits)
    requires Coded(lens, maxbits, c) && lens[c] > l1 && Prefix(lens, l1, c) < |lookup|
    requires Linked(lookup, subtable, maxbits - l1)
    requires PaintedAt(lens, maxbits, l1, cs, c, Lo(lens, maxbits, c), View(lookup, subtable, maxbits - l1, LoShr(lens, maxbits, l1, c)), UNWRITTEN)
    ensures lookup[Prefix(lens, l1, c)] % 32 == 0 || lookup[Prefix(lens, l1, c)] == UNWRITTEN
  {
    var w := Lo(lens, maxbits, c);
    ShlMono(Code(lens, c), Code(lens, c) + 1, maxbits - lens[c]);
    Pow2Mono(0, maxbits - lens[c]);
    LongWindows(lens, maxbits, l1, c, w);
    forall i: nat | Done(lens, maxbits, l1, cs, c, i) ensures !Owns(lens, maxbits, i, w) {
      if Owns(lens, maxbits, i, w) { OwnerUnique(lens, maxbits, i, c, w); }
    }
  }

  /** The first window of a long code; it lies below the code's prefix. */
  function LoShr(lens: seq<nat>, maxbits: nat, l1: nat, c: nat): (w: nat)
    requires l1 <= maxbits <= 24 && Coded(lens, maxbits, c) && lens[c] > l1
    ensures w == Lo(lens, maxbits, c) && Shr(w, maxbits - l1) == Prefix(lens, l1, c)
  {
    var w := Lo(lens, maxbits, c);
    ShlMono(Code(lens, c), Code(lens, c) + 1, maxbits - lens[c]);
    Pow2Mono(0, maxbits - lens[c]);
    LongWindows(lens, maxbits, l1, c, w);
    w
  }

  // ---- progress of the two-level build

  ghost predicate PaintedTwo(lens: seq<nat>, maxbits: nat, l1: nat, cs: nat, cl: nat,
                             lookup: seq<entry>, subtable: seq<seq<entry>>)
    requires l1 <= maxbits <= 24
  {
    && |lookup| == Pow2(l1)
    && Linked(lookup, subtable, maxbits - l1)
    && forall w: nat :: WindowOk(lens, maxbits, l1, cs, cl, lookup, subtable, w)
  }

  ghost predicate WindowOk(lens: seq<nat>, maxbits: nat, l1: nat, cs: nat, cl: nat,
                           lookup: seq<entry>, subtable: seq<seq<entry>>, w: nat)
    requires l1 <= maxbits <= 24 && Linked(lookup, subtable, maxbits - l1)
  {
    w < Pow2(maxbits) ==>
      && Shr(w, maxbits - l1) < |lookup|
      && PaintedAt(lens, maxbits, l1, cs, cl, w, View(lookup, subtable, maxbits - l1, w), UNWRITTEN)
  }

  /** The prefixes that escape to a subtable. */
  ghost function Escapes(lookup: seq<entry>): set<nat> {
    set x: nat | x < |lookup| && lookup[x] % 32 == 0
  }

  lemma {:induction false} RangeSize(s: set<nat>, n: nat)
    requires forall x :: x in s ==> x < n
    ensures |s| <= n
  {
    if n == 0 {
      assert s == {};
    } else {
      RangeSize(s - {n - 1}, n - 1);
    }
  }

  lemma WindowPrefix(maxbits: nat, l1: nat, w: nat)
    requires l1 <= maxbits && w < Pow2(maxbits)
    ensures Shr(w, maxbits - l1) < Pow2(l1)
  {
    ShrAtLeast(w, maxbits - l1, Pow2(l1));
    ShlShl(1, l1, maxbits - l1);
  }

  lemma TwoEmpty(lens: seq<nat>, maxbits: nat, l1: nat, lookup: seq<entry>)
    requires l1 <= maxbits <= 24 && |lookup| == Pow2(l1)
    requires forall x :: 0 <= x < |lookup| ==> lookup[x] == UNWRITTEN
    ensures PaintedTwo(lens, maxbits, l1, 0, 0, lookup, []) && Escapes(lookup) == {}
  {
    forall w: nat ensures WindowOk(lens, maxbits, l1, 0, 0, lookup, [], w) {
      if w < Pow2(maxbits) { WindowPrefix(maxbits, l1, w); }
    }
  }

  /** The first loop at symbol c. */
  lemma TwoShort(lens: seq<nat>, maxbits: nat, l1: nat, c: nat, lookup: seq<entry>, subtable: seq<seq<entry>>)
    requires l1 <= maxbits <= 24 && Consistent(lens, maxbits) && c < 2048
    requires PaintedTwo(lens, maxbits, l1, c, 0, lookup, subtable) && Escapes(lookup) == {}
    ensures Coded(lens, maxbits, c) && lens[c] <= l1 ==>
            var lookup' := Filled(lookup, Shl(Code(lens, c), l1 - lens[c]), Shl(Code(lens, c) + 1, l1 - lens[c]),
                                  MakeLookup(c, lens[c]));
            PaintedTwo(lens, maxbits, l1, c + 1, 0, lookup', subtable) && Escapes(lookup') == {}
    ensures !(Coded(lens, maxbits, c) && lens[c] <= l1) ==>
            PaintedTwo(lens, maxbits, l1, c + 1, 0, lookup, subtable)
  {
    var enters := Coded(lens, maxbits, c) && lens[c] <= l1;
    if enters { TwoShortFill(lens, maxbits, l1, c, lookup, subtable); }
    var next := c + 1;
    forall w: nat | !enters ensures WindowOk(lens, maxbits, l1, next, 0, lookup, subtable, w) {
      assert WindowOk(lens, maxbits, l1, c, 0, lookup, subtable, w);
      if w < Pow2(maxbits) {
        PaintNext(lens, maxbits, l1, c, 0, true, w, View(lookup, subtable, maxbits - l1, w), UNWRITTEN);
      }
    }
  }

  lemma TwoShortFill(lens: seq<nat>, maxbits: nat, l1: nat, c: nat, lookup: seq<entry>, subtable: seq<seq<entry>>)
    requires l1 <= maxbits <= 24 && Consistent(lens, maxbits) && c < 2048
    requires PaintedTwo(lens, maxbits, l1, c, 0, lookup, subtable) && Escapes(lookup) == {}
    requires Coded(lens, maxbits, c) && lens[c] <= l1
    ensures var lookup' := Filled(lookup, Shl(Code(lens, c), l1 - lens[c]), Shl(Code(lens, c) + 1, l1 - lens[c]),
                                  MakeLookup(c, lens[c]));
            PaintedTwo(lens, maxbits, l1, c + 1, 0, lookup', subtable) && Escapes(lookup') == {}
  {
    var lookup' := Filled(lookup, Shl(Code(lens, c), l1 - lens[c]), Shl(Code(lens, c) + 1, l1 - lens[c]),
                          MakeLookup(c, lens[c]));
    MakeLookupParts(c, lens[c]);
    forall x: nat | x < |lookup| ensures lookup[x] % 32 != 0 && lookup'[x] % 32 != 0 {
      assert x !in Escapes(lookup);
    }
    var next := c + 1;
    forall w: nat ensures WindowOk(lens, maxbits, l1, next, 0, lookup', subtable, w) {
      assert WindowOk(lens, maxbits, l1, c, 0, lookup, subtable, w);
      if w < Pow2(maxbits) {
        ShortFill(lens, maxbits, l1, lookup, subtable, c, w);
        PaintNext(lens, maxbits, l1, c, 0, true, w, View(lookup, subtable, maxbits - l1, w), UNWRITTEN);
      }
    }
  }

  /** The second loop gives the prefix of symbol c a subtable of its own. */
  lemma TwoEscape(lens: seq<nat>, maxbits: nat, l1: nat, n: nat, c: nat, lookup: seq<entry>, subtable: seq<seq<entry>>)
    requires l1 <= maxbits <= 24 && l1 <= 10 && Consistent(lens, maxbits)
    requires PaintedTwo(lens, maxbits, l1, n, c, lookup, subtable) && Separate(lookup)
    requires |Escapes(lookup)| == |subtable|
    requires Coded(lens, maxbits, c) && lens[c] > l1
    requires Prefix(lens, l1, c) < |lookup| && lookup[Prefix(lens, l1, c)] % 32 != 0
    ensures |subtable| < 2048
    ensures var lookup' := lookup[Prefix(lens, l1, c) := MakeLookup(|subtable|, 0)];
            var subtable' := subtable + [seq(Pow2(maxbits - l1), _ => UNWRITTEN)];
            && PaintedTwo(lens, maxbits, l1, n, c, lookup', subtable') && Separate(lookup')
            && |Escapes(lookup')| == |subtable'|
  {
    EscapesBounded(lookup, l1);
    var x := Prefix(lens, l1, c);
    var w0 := LoShr(lens, maxbits, l1, c);
    LoInTable(lens, maxbits, l1, c);
    assert WindowOk(lens, maxbits, l1, n, c, lookup, subtable, w0);
    UnenteredPrefix(lens, maxbits, l1, lookup, subtable, n, c);
    EscapeKeeps(lookup, subtable, maxbits - l1, x, w0);
    EscapeCounts(lookup, x, |subtable|);
    var lookup' := lookup[x := MakeLookup(|subtable|, 0)];
    var subtable' := subtable + [seq(Pow2(maxbits - l1), _ => UNWRITTEN)];
    forall w: nat ensures WindowOk(lens, maxbits, l1, n, c, lookup', subtable', w) {
      assert WindowOk(lens, maxbits, l1, n, c, lookup, subtable, w);
      if w < Pow2(maxbits) {
        EscapeKeeps(lookup, subtable, maxbits - l1, x, w);
      }
    }
  }

  lemma EscapesBounded(lookup: seq<entry>, l1: nat)
    requires |lookup| == Pow2(l1) && l1 <= 10
    ensures |Escapes(lookup)| <= 1024
  {
    RangeSize(Escapes(lookup), |lookup|);
    Pow2Mono(l1, 10);
    ShlByConstants(4);
    ShlShl(1, 2, 8);
  }

  lemma EscapeCounts(lookup: seq<entry>, x: nat, id: nat)
    requires x < |lookup| && lookup[x] % 32 != 0 && id < 2048
    ensures |Escapes(lookup[x := MakeLookup(id, 0)])| == |Escapes(lookup)| + 1
  {
    MakeLookupParts(id, 0);
    assert Escapes(lookup[x := MakeLookup(id, 0)]) == Escapes(lookup) + {x};
  }

  lemma LoInTable(lens: seq<nat>, maxbits: nat, l1: nat, c: nat)
    requires l1 <= maxbits <= 24 && Coded(lens, maxbits, c) && lens[c] > l1
    requires Prefix(lens, l1, c) < Pow2(l1)
    ensures Lo(lens, maxbits, c) < Pow2(maxbits)
  {
    LongFitsIff(lens, maxbits, l1, c);
    ShlMono(Code(lens, c), Code(lens, c) + 1, maxbits - lens[c]);
    Pow2Mono(0, maxbits - lens[c]);
  }

  /** The second loop enters symbol c below its prefix. */
  lemma TwoLong(lens: seq<nat>, maxbits: nat, l1: nat, n: nat, c: nat, lookup: seq<entry>, subtable: seq<seq<entry>>)
    requires l1 <= maxbits <= 24 && Consistent(lens, maxbits) && c < 2048
    requires PaintedTwo(lens, maxbits, l1, n, c, lookup, subtable) && Separate(lookup)
    requires Coded(lens, maxbits, c) && lens[c] > l1
    requires Prefix(lens, l1, c) < |lookup| && lookup[Prefix(lens, l1, c)] % 32 == 0
    ensures var subtable' := WithLong(lens, maxbits, l1, subtable, lookup[Prefix(lens, l1, c)] / 32, c);
            PaintedTwo(lens, maxbits, l1, n, c + 1, lookup, subtable')
  {
    var subtable' := WithLong(lens, maxbits, l1, subtable, lookup[Prefix(lens, l1, c)] / 32, c);
    LongFill(lens, maxbits, l1, lookup, subtable, c, LoShr(lens, maxbits, l1, c));
    var next := c + 1;
    forall w: nat ensures WindowOk(lens, maxbits, l1, n, next, lookup, subtable', w) {
      assert WindowOk(lens, maxbits, l1, n, c, lookup, subtable, w);
      if w < Pow2(maxbits) {
        LongFill(lens, maxbits, l1, lookup, subtable, c, w);
        PaintNext(lens, maxbits, l1, n, c, false, w, View(lookup, subtable, maxbits - l1, w), UNWRITTEN);
      }
    }
  }

  /** The second loop passes over symbol c. */
  lemma TwoSkip(lens: seq<nat>, maxbits: nat, l1: nat, n: nat, c: nat, lookup: seq<entry>, subtable: seq<seq<entry>>)
    requires l1 <= maxbits <= 24 && Consistent(lens, maxbits)
    requires PaintedTwo(lens, maxbits, l1, n, c, lookup, subtable)
    requires !(Coded(lens, maxbits, c) && lens[c] > l1)
    ensures PaintedTwo(lens, maxbits, l1, n, c + 1, lookup, subtable)
  {
    var next := c + 1;
    forall w: nat ensures WindowOk(lens, maxbits, l1, n, next, lookup, subtable, w) {
      assert WindowOk(lens, maxbits, l1, n, c, lookup, subtable, w);
      if w < Pow2(maxbits) {
        PaintNext(lens, maxbits, l1, n, c, false, w, View(lookup, subtable, maxbits - l1, w), UNWRITTEN);
      }
    }
  }
}
