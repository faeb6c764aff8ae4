/** Canonical Huffman codes as a function of the list of code lengths: the codes assigned, the
    table interval each one owns, and the symbol that a position in a bit stream decodes to. */
module HuffmanCodes {
  import opened Bits

  /** How many symbols have code length l. */
  function Count(lens: seq<nat>, l: nat): nat {
    if lens == [] then 0
    else Count(lens[..|lens| - 1], l) + (if lens[|lens| - 1] == l then 1 else 0)
  }

  /** How many symbols before i share its code length. */
  function Rank(lens: seq<nat>, i: nat): nat
    requires i < |lens|
  {
    Count(lens[..i], lens[i])
  }

  /** The first code of length l, counting up from the longest codes. */
  function Start(lens: seq<nat>, l: nat): nat
    requires l <= 32
    decreases 32 - l
  {
    if l == 32 then 0 else (Start(lens, l + 1) + Count(lens, l + 1)) / 2
  }

  /** No length exceeds the maximum, and the codes of every length but 1 pair up evenly. */
  ghost predicate Consistent(lens: seq<nat>, maxbits: nat) {
    && (forall i :: 0 <= i < |lens| ==> lens[i] <= maxbits)
    && (forall l :: 2 <= l <= 32 ==> EvenAt(lens, l))
  }

  predicate EvenAt(lens: seq<nat>, l: nat)
    requires l <= 32
  {
    (Start(lens, l) + Count(lens, l)) % 2 == 0
  }

  function Code(lens: seq<nat>, i: nat): nat
    requires i < |lens| && lens[i] <= 32
  {
    Start(lens, lens[i]) + Rank(lens, i)
  }

  /** Symbol i owns the windows Lo .. Hi of a table indexed by maxbits bits. */
  function Lo(lens: seq<nat>, maxbits: nat, i: nat): nat
    requires i < |lens| && lens[i] <= maxbits <= 32
  {
    Shl(Code(lens, i), maxbits - lens[i])
  }

  function Hi(lens: seq<nat>, maxbits: nat, i: nat): nat
    requires i < |lens| && lens[i] <= maxbits <= 32
  {
    Shl(Code(lens, i) + 1, maxbits - lens[i])
  }

  predicate Coded(lens: seq<nat>, maxbits: nat, i: nat) {
    i < |lens| && 0 < lens[i] <= maxbits
  }

  predicate Owns(lens: seq<nat>, maxbits: nat, i: nat, w: nat)
    requires maxbits <= 32
  {
    Coded(lens, maxbits, i) && Lo(lens, maxbits, i) <= w < Hi(lens, maxbits, i)
  }

  /** Every interval lies inside the table. */
  ghost predicate Fits(lens: seq<nat>, maxbits: nat)
    requires maxbits <= 32
  {
    forall i :: Coded(lens, maxbits, i) ==> Hi(lens, maxbits, i) <= Pow2(maxbits)
  }

  /** The lengths for which assignment and table building both succeed. */
  ghost predicate Accepted(lens: seq<nat>, maxbits: nat)
    requires maxbits <= 32
  {
    Consistent(lens, maxbits) && Fits(lens, maxbits)
  }

  // ---- the layout of the intervals

  /** Where the codes of length l begin and end in the table. */
  function Edge(lens: seq<nat>, maxbits: nat, l: nat): nat
    requires l <= maxbits <= 32
  {
    Shl(Start(lens, l), maxbits - l)
  }

  function End(lens: seq<nat>, maxbits: nat, l: nat): nat
    requires l <= maxbits <= 32
  {
    Shl(Start(lens, l) + Count(lens, l), maxbits - l)
  }

  /** The number of windows owned by any symbol. */
  function Total(lens: seq<nat>, maxbits: nat): nat
    requires 1 <= maxbits <= 32
  {
    End(lens, maxbits, 1)
  }

  lemma ShlTwice(x: nat, n: nat)
    ensures Shl(2 * x, n) == Shl(x, n + 1)
  {
    ShlShl(x, 1, n);
    assert Shl(x, 1) == 2 * x;
  }

  /** The codes of length l - 1 begin where those of length l end. */
  lemma Contiguous(lens: seq<nat>, maxbits: nat, l: nat)
    requires Consistent(lens, maxbits) && 2 <= l <= maxbits <= 32
    ensures Edge(lens, maxbits, l - 1) == End(lens, maxbits, l)
  {
    assert EvenAt(lens, l);
    ShlTwice(Start(lens, l - 1), maxbits - l);
  }

  lemma EdgeBeforeEnd(lens: seq<nat>, maxbits: nat, l: nat)
    requires l <= maxbits <= 32
    ensures Edge(lens, maxbits, l) <= End(lens, maxbits, l)
  {
    ShlMono(Start(lens, l), Start(lens, l) + Count(lens, l), maxbits - l);
  }

  lemma {:induction false} LongerFirst(lens: seq<nat>, maxbits: nat, k: nat, l: nat)
    requires Consistent(lens, maxbits) && 1 <= k < l <= maxbits <= 32
    ensures End(lens, maxbits, l) <= Edge(lens, maxbits, k)
    decreases l - k
  {
    Contiguous(lens, maxbits, l);
    if k < l - 1 {
      EdgeBeforeEnd(lens, maxbits, l - 1);
      LongerFirst(lens, maxbits, k, l - 1);
    }
  }

  lemma {:induction false} CountMono(lens: seq<nat>, i: nat, j: nat, l: nat)
    requires i <= j <= |lens|
    ensures Count(lens[..i], l) <= Count(lens[..j], l)
  {
    if i < j {
      CountMono(lens, i, j - 1, l);
      assert lens[..j][..j - 1] == lens[..j - 1];
    }
  }

  /** A later symbol of the same length has a larger rank. */
  lemma RankGrows(lens: seq<nat>, i: nat, j: nat)
    requires i < j <= |lens|
    ensures Rank(lens, i) + 1 <= Count(lens[..j], lens[i])
  {
    assert lens[..i + 1][..i] == lens[..i];
    CountMono(lens, i + 1, j, lens[i]);
  }

  lemma RankBelowCount(lens: seq<nat>, i: nat)
    requires i < |lens|
    ensures Rank(lens, i) < Count(lens, lens[i])
  {
    RankGrows(lens, i, |lens|);
    assert lens[..|lens|] == lens;
  }

  lemma WithinLength(lens: seq<nat>, maxbits: nat, i: nat)
    requires Coded(lens, maxbits, i) && maxbits <= 32
    ensures Edge(lens, maxbits, lens[i]) <= Lo(lens, maxbits, i) < Hi(lens, maxbits, i)
    ensures Hi(lens, maxbits, i) <= End(lens, maxbits, lens[i])
  {
    RankBelowCount(lens, i);
    var s, n := Start(lens, lens[i]), maxbits - lens[i];
    ShlMono(s, Code(lens, i), n);
    ShlMono(Code(lens, i), Code(lens, i) + 1, n);
    Pow2Mono(0, n);
    ShlMono(Code(lens, i) + 1, s + Count(lens, lens[i]), n);
  }

  /** Intervals of different symbols do not meet: longer codes come first, and equal lengths keep
      the order of the symbols. */
  lemma Disjoint(lens: seq<nat>, maxbits: nat, i: nat, j: nat)
    requires Consistent(lens, maxbits) && maxbits <= 32
    requires Coded(lens, maxbits, i) && Coded(lens, maxbits, j)
    requires lens[i] > lens[j] || (lens[i] == lens[j] && i < j)
    ensures Hi(lens, maxbits, i) <= Lo(lens, maxbits, j)
  {
    if lens[i] > lens[j] {
      WithinLength(lens, maxbits, i);
      WithinLength(lens, maxbits, j);
      LongerFirst(lens, maxbits, lens[j], lens[i]);
    } else {
      RankGrows(lens, i, j);
      ShlMono(Code(lens, i) + 1, Code(lens, j), maxbits - lens[i]);
    }
  }

  /** A window has at most one owner. */
  lemma OwnerUnique(lens: seq<nat>, maxbits: nat, i: nat, j: nat, w: nat)
    requires Consistent(lens, maxbits) && maxbits <= 32
    requires Owns(lens, maxbits, i, w) && Owns(lens, maxbits, j, w)
    ensures i == j
  {
    if i != j {
      if lens[i] > lens[j] || (lens[i] == lens[j] && i < j) {
        Disjoint(lens, maxbits, i, j);
      } else {
        Disjoint(lens, maxbits, j, i);
      }
    }
  }

  // ---- coverage

  lemma {:induction false} Select(lens: seq<nat>, l: nat, k: nat) returns (i: nat)
    requires k < Count(lens, l)
    ensures i < |lens| && lens[i] == l && Rank(lens, i) == k
  {
    var n := |lens| - 1;
    if lens[n] == l && Count(lens[..n], l) == k {
      i := n;
    } else {
      i := Select(lens[..n], l, k);
      assert lens[..n][..i] == lens[..i];
    }
  }

  lemma {:induction false} LengthOfWindow(lens: seq<nat>, maxbits: nat, w: nat, l: nat) returns (k: nat)
    requires Consistent(lens, maxbits) && 1 <= l <= maxbits <= 32
    requires Edge(lens, maxbits, l) <= w < Total(lens, maxbits)
    ensures 1 <= k <= maxbits && Edge(lens, maxbits, k) <= w < End(lens, maxbits, k)
    decreases l
  {
    if w < End(lens, maxbits, l) {
      k := l;
    } else {
      Contiguous(lens, maxbits, l);
      k := LengthOfWindow(lens, maxbits, w, l - 1);
    }
  }

  lemma {:induction false} StartPastMax(lens: seq<nat>, maxbits: nat, l: nat)
    requires maxbits <= l <= 32 && forall i :: 0 <= i < |lens| ==> lens[i] <= maxbits
    ensures Start(lens, l) == 0
    decreases 32 - l
  {
    if l < 32 {
      StartPastMax(lens, maxbits, l + 1);
      NoneLonger(lens, l + 1);
    }
  }

  lemma {:induction false} NoneLonger(lens: seq<nat>, l: nat)
    requires forall i :: 0 <= i < |lens| ==> lens[i] < l
    ensures Count(lens, l) == 0
  {
    if lens != [] { NoneLonger(lens[..|lens| - 1], l); }
  }

  lemma OwnerWithinLength(lens: seq<nat>, maxbits: nat, w: nat, l: nat) returns (i: nat)
    requires 1 <= l <= maxbits <= 32
    requires Edge(lens, maxbits, l) <= w < End(lens, maxbits, l)
    ensures Owns(lens, maxbits, i, w)
  {
    var n, s, c := maxbits - l, Start(lens, l), Shr(w, maxbits - l);
    var rest := LowBits(w, n);
    if c < s {
      ShlMono(c, s, n);
      assert false;
    }
    if c >= s + Count(lens, l) {
      ShlMono(s + Count(lens, l), c, n);
      assert false;
    }
    i := Select(lens, l, c - s);
    ShlAdd(c, 1, n);
  }

  /** Exactly the windows below Total have an owner. */
  lemma OwnedIffBelowTotal(lens: seq<nat>, maxbits: nat, w: nat)
    requires Consistent(lens, maxbits) && 1 <= maxbits <= 32
    ensures (exists i :: Owns(lens, maxbits, i, w)) <==> w < Total(lens, maxbits)
  {
    if w < Total(lens, maxbits) {
      StartPastMax(lens, maxbits, maxbits);
      var l := LengthOfWindow(lens, maxbits, w, maxbits);
      var i := OwnerWithinLength(lens, maxbits, w, l);
    }
    forall i: nat | Owns(lens, maxbits, i, w) ensures w < Total(lens, maxbits) {
      WithinLength(lens, maxbits, i);
      EndBelowTotal(lens, maxbits, lens[i]);
    }
  }

  lemma EndBelowTotal(lens: seq<nat>, maxbits: nat, l: nat)
    requires Consistent(lens, maxbits) && 1 <= l <= maxbits <= 32
    ensures End(lens, maxbits, l) <= Total(lens, maxbits)
  {
    if l > 1 {
      LongerFirst(lens, maxbits, 1, l);
      EdgeBeforeEnd(lens, maxbits, 1);
    }
  }

  /** The codes fit the table exactly when they claim nothing, half of it or all of it. */
  lemma FitsIff(lens: seq<nat>, maxbits: nat)
    requires Consistent(lens, maxbits) && 1 <= maxbits <= 32
    ensures Fits(lens, maxbits) <==> Total(lens, maxbits) in {0, Pow2(maxbits - 1), Pow2(maxbits)}
  {
    var t := Start(lens, 1) + Count(lens, 1);
    HalvesOfTable(t, maxbits);
    if t <= 2 {
      forall i: nat | Coded(lens, maxbits, i) ensures Hi(lens, maxbits, i) <= Pow2(maxbits) {
        WithinLength(lens, maxbits, i);
        EndBelowTotal(lens, maxbits, lens[i]);
      }
    } else {
      OwnedIffBelowTotal(lens, maxbits, Pow2(maxbits));
    }
  }

  lemma HalvesOfTable(t: nat, maxbits: nat)
    requires 1 <= maxbits
    ensures t <= 2 <==> Shl(t, maxbits - 1) in {0, Pow2(maxbits - 1), Pow2(maxbits)}
    ensures t > 2 ==> Pow2(maxbits) < Shl(t, maxbits - 1)
  {
    ShlMono(2, t, maxbits - 1);
    ShlMono(t, 2, maxbits - 1);
    ShlTwice(1, maxbits - 1);
    Pow2Mono(0, maxbits - 1);
    ShlZero(maxbits - 1);
  }

  // ---- decoding

  /** The bits at position p begin with the code of symbol i. */
  predicate CodeAt(lens: seq<nat>, maxbits: nat, data: seq<byte>, p: nat, i: nat)
    requires maxbits <= 32
  {
    Coded(lens, maxbits, i) && ReadBits(data, p, lens[i]) == Code(lens, i)
  }

  lemma CodeAtIffOwns(lens: seq<nat>, maxbits: nat, data: seq<byte>, p: nat, i: nat)
    requires maxbits <= 32
    ensures CodeAt(lens, maxbits, data, p, i) <==> Owns(lens, maxbits, i, ReadBits(data, p, maxbits))
  {
    hide Shl, ReadBits, Code;
    if Coded(lens, maxbits, i) {
      var n := maxbits - lens[i];
      ReadBitsSplit(data, p, lens[i], n);
      ShiftedInterval(ReadBits(data, p, lens[i]), Code(lens, i), ReadBits(data, p + lens[i], n), n);
    }
  }

  lemma ShiftedInterval(v: nat, c: nat, rest: nat, n: nat)
    requires rest < Pow2(n)
    ensures v == c <==> Shl(c, n) <= Shl(v, n) + rest < Shl(c + 1, n)
  {
    ShlMono(c, v, n);
    ShlMono(v, c, n);
    ShlMono(v, c + 1, n);
    ShlMono(c + 1, v, n);
    ShlAdd(c, 1, n);
  }

  /** No code is a prefix of another: two codes never both begin at the same position. */
  lemma PrefixFree(lens: seq<nat>, maxbits: nat, data: seq<byte>, p: nat, i: nat, j: nat)
    requires Consistent(lens, maxbits) && maxbits <= 32
    requires CodeAt(lens, maxbits, data, p, i) && CodeAt(lens, maxbits, data, p, j)
    ensures i == j
  {
    CodeAtIffOwns(lens, maxbits, data, p, i);
    CodeAtIffOwns(lens, maxbits, data, p, j);
    OwnerUnique(lens, maxbits, i, j, ReadBits(data, p, maxbits));
  }

  /** The first symbol from k on whose code begins at p, or |lens|. */
  function Find(lens: seq<nat>, maxbits: nat, data: seq<byte>, p: nat, k: nat): (i: nat)
    requires maxbits <= 32 && k <= |lens|
    ensures i <= |lens|
    decreases |lens| - k
  {
    if k == |lens| then k
    else if CodeAt(lens, maxbits, data, p, k) then k
    else Find(lens, maxbits, data, p, k + 1)
  }

  lemma {:induction false} FindMeaning(lens: seq<nat>, maxbits: nat, data: seq<byte>, p: nat, k: nat)
    requires maxbits <= 32 && k <= |lens|
    ensures var i := Find(lens, maxbits, data, p, k);
            && (i < |lens| ==> CodeAt(lens, maxbits, data, p, i))
            && forall j :: k <= j < i ==> !CodeAt(lens, maxbits, data, p, j)
    decreases |lens| - k
  {
    if k < |lens| && !CodeAt(lens, maxbits, data, p, k) {
      FindMeaning(lens, maxbits, data, p, k + 1);
    }
  }

  predicate Covered(lens: seq<nat>, maxbits: nat, data: seq<byte>, p: nat)
    requires maxbits <= 32
  {
    Find(lens, maxbits, data, p, 0) < |lens|
  }

  /** The symbol decoded at p; bits no code begins with read as symbol 0 ... */
  function Symbol(lens: seq<nat>, maxbits: nat, data: seq<byte>, p: nat): nat
    requires maxbits <= 32
  {
    if Covered(lens, maxbits, data, p) then Find(lens, maxbits, data, p, 0) else 0
  }

  /** ... of length 1. */
  function Length(lens: seq<nat>, maxbits: nat, data: seq<byte>, p: nat): (n: nat)
    requires maxbits <= 32
  {
    if Covered(lens, maxbits, data, p) then lens[Find(lens, maxbits, data, p, 0)] else 1
  }

  lemma LengthBound(lens: seq<nat>, maxbits: nat, data: seq<byte>, p: nat)
    requires 1 <= maxbits <= 32
    ensures 1 <= Length(lens, maxbits, data, p) <= maxbits
    ensures Symbol(lens, maxbits, data, p) < |lens| || Symbol(lens, maxbits, data, p) == 0
  {
    FindMeaning(lens, maxbits, data, p, 0);
  }

  lemma CoveredIffBelowTotal(lens: seq<nat>, maxbits: nat, data: seq<byte>, p: nat)
    requires Consistent(lens, maxbits) && 1 <= maxbits <= 32
    ensures Covered(lens, maxbits, data, p) <==> ReadBits(data, p, maxbits) < Total(lens, maxbits)
  {
    var w := ReadBits(data, p, maxbits);
    OwnedIffBelowTotal(lens, maxbits, w);
    var i := Find(lens, maxbits, data, p, 0);
    FindMeaning(lens, maxbits, data, p, 0);
    if i < |lens| {
      CodeAtIffOwns(lens, maxbits, data, p, i);
    } else {
      forall j ensures !Owns(lens, maxbits, j, w) {
        CodeAtIffOwns(lens, maxbits, data, p, j);
      }
    }
  }

  /** Decoding depends only on the bits it consumes, even where no code begins: an accepted code
      that leaves windows unowned leaves all those that start with a one. */
  lemma DecodeLocal(lens: seq<nat>, maxbits: nat, d: seq<byte>, p: nat, e: seq<byte>, q: nat)
    requires 1 <= maxbits <= 32 && Accepted(lens, maxbits)
    requires forall j :: p <= j < p + Length(lens, maxbits, d, p) ==> BitAt(d, j) == BitAt(e, j - p + q)
    ensures Symbol(lens, maxbits, e, q) == Symbol(lens, maxbits, d, p)
    ensures Length(lens, maxbits, e, q) == Length(lens, maxbits, d, p)
    ensures Covered(lens, maxbits, e, q) == Covered(lens, maxbits, d, p)
  {
    var i := Find(lens, maxbits, d, p, 0);
    FindMeaning(lens, maxbits, d, p, 0);
    FindMeaning(lens, maxbits, e, q, 0);
    ReadBitsAgree(d, e, p, q, Length(lens, maxbits, d, p));
    if i < |lens| {
      assert CodeAt(lens, maxbits, e, q, i);
      var j := Find(lens, maxbits, e, q, 0);
      PrefixFree(lens, maxbits, e, q, i, j);
    } else {
      UncoveredByFirstBit(lens, maxbits, d, p, e, q);
    }
  }

  lemma UncoveredByFirstBit(lens: seq<nat>, maxbits: nat, d: seq<byte>, p: nat, e: seq<byte>, q: nat)
    requires 1 <= maxbits <= 32 && Accepted(lens, maxbits)
    requires !Covered(lens, maxbits, d, p) && ReadBits(d, p, 1) == ReadBits(e, q, 1)
    ensures !Covered(lens, maxbits, e, q)
  {
    FitsIff(lens, maxbits);
    CoveredIffBelowTotal(lens, maxbits, d, p);
    CoveredIffBelowTotal(lens, maxbits, e, q);
    FirstBitHalves(d, p, maxbits);
    FirstBitHalves(e, q, maxbits);
  }

  lemma FirstBitHalves(d: seq<byte>, p: nat, n: nat)
    requires 1 <= n
    ensures ReadBits(d, p, n) < Pow2(n - 1) <==> ReadBits(d, p, 1) == 0
  {
    ReadBitsSplit(d, p, 1, n - 1);
    ShlZero(n - 1);
    ShlMono(1, ReadBits(d, p, 1), n - 1);
  }
}
