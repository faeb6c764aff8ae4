/** Which length assignments a decoder accepts, in terms of their Kraft sum alone. */
module HuffmanKraft {
  import opened Bits
  import opened HuffmanCodes

  /** The Kraft sum, in units of one window: every coded symbol claims 2^(maxbits - length). */
  function Kraft(lens: seq<nat>, maxbits: nat): nat {
    if lens == [] then 0
    else
      var x := lens[|lens| - 1];
      Kraft(lens[..|lens| - 1], maxbits) + (if 1 <= x <= maxbits then Pow2(maxbits - x) else 0)
  }

  /** The part of the sum that lengths l and above contribute, length by length. */
  function Above(lens: seq<nat>, maxbits: nat, l: nat): nat
    decreases maxbits + 1 - l
  {
    if l > maxbits then 0 else Above(lens, maxbits, l + 1) + Shl(Count(lens, l), maxbits - l)
  }

  /** The part that lengths below l contribute, in units of 2^(maxbits - l + 1). */
  function Below(lens: seq<nat>, l: nat): nat {
    if l <= 1 then 0 else 2 * Below(lens, l - 1) + Count(lens, l - 1)
  }

  lemma {:induction false} AboveAppend(lens: seq<nat>, maxbits: nat, l: nat)
    requires lens != [] && 1 <= l
    ensures var n := |lens| - 1;
            Above(lens, maxbits, l) == Above(lens[..n], maxbits, l)
                                       + (if l <= lens[n] <= maxbits then Pow2(maxbits - lens[n]) else 0)
    decreases maxbits + 1 - l
  {
    if l <= maxbits {
      var n := |lens| - 1;
      AboveAppend(lens, maxbits, l + 1);
      ShlAdd(Count(lens[..n], l), 1, maxbits - l);
    }
  }

  lemma {:induction false} AboveNothing(maxbits: nat, l: nat)
    ensures Above([], maxbits, l) == 0
    decreases maxbits + 1 - l
  {
    if l <= maxbits {
      AboveNothing(maxbits, l + 1);
      ShlZero(maxbits - l);
    }
  }

  /** Summing by symbol and by length is the same. */
  lemma {:induction false} KraftByLength(lens: seq<nat>, maxbits: nat)
    ensures Kraft(lens, maxbits) == Above(lens, maxbits, 1)
  {
    if lens == [] {
      AboveNothing(maxbits, 1);
    } else {
      KraftByLength(lens[..|lens| - 1], maxbits);
      AboveAppend(lens, maxbits, 1);
    }
  }

  /** Lengths below l contribute a multiple of what two codes of length l claim. */
  lemma {:induction false} KraftSplit(lens: seq<nat>, maxbits: nat, l: nat)
    requires 1 <= l <= maxbits
    ensures Above(lens, maxbits, 1) == Above(lens, maxbits, l) + Shl(Below(lens, l), maxbits - l + 1)
  {
    if l == 1 {
      ShlZero(maxbits);
    } else {
      KraftSplit(lens, maxbits, l - 1);
      var n := maxbits - l + 1;
      ShlTwice(Below(lens, l - 1), n);
      ShlAdd(2 * Below(lens, l - 1), Count(lens, l - 1), n);
    }
  }

  /** While the codes above l pair up, their left edge is the sum of what longer codes claim. */
  lemma {:induction false} EdgeIsAbove(lens: seq<nat>, maxbits: nat, l: nat)
    requires 1 <= l <= maxbits <= 32 && forall i :: 0 <= i < |lens| ==> lens[i] <= maxbits
    requires forall k :: l < k <= 32 ==> EvenAt(lens, k)
    ensures Edge(lens, maxbits, l) == Above(lens, maxbits, l + 1)
    ensures End(lens, maxbits, l) == Above(lens, maxbits, l)
    decreases maxbits - l
  {
    if l == maxbits {
      StartPastMax(lens, maxbits, l);
      ShlZero(0);
    } else {
      EdgeIsAbove(lens, maxbits, l + 1);
      assert EvenAt(lens, l + 1);
      ShlTwice(Start(lens, l), maxbits - l - 1);
    }
    ShlAdd(Start(lens, l), Count(lens, l), maxbits - l);
  }

  /** The three sums an accepted code may have: nothing, half of the table, or all of it. */
  predicate WholeOrHalf(sum: nat, maxbits: nat)
    requires 1 <= maxbits
  {
    sum == 0 || sum == Pow2(maxbits - 1) || sum == Pow2(maxbits)
  }

  lemma ShlEven(x: nat, a: nat, t: nat, n: nat)
    requires Shl(x, n) + Shl(a, n + 1) == Shl(t, n + 1)
    ensures x % 2 == 0
  {
    ShlTwice(a, n);
    ShlTwice(t, n);
    ShlAdd(x, 2 * a, n);
    ShlMono(x + 2 * a, 2 * t, n);
    ShlMono(2 * t, x + 2 * a, n);
  }

  /** A sum of nothing, half or all is a multiple of every smaller power of two. */
  lemma MultipleOf(sum: nat, maxbits: nat, l: nat) returns (t: nat)
    requires 2 <= l <= maxbits && WholeOrHalf(sum, maxbits)
    ensures sum == Shl(t, maxbits - l + 1)
  {
    var n := maxbits - l + 1;
    if sum == 0 {
      t := 0;
      ShlZero(n);
    } else if sum == Pow2(maxbits - 1) {
      t := Pow2(l - 2);
      ShlShl(1, l - 2, n);
    } else {
      t := Pow2(l - 1);
      ShlShl(1, l - 1, n);
    }
  }

  lemma {:induction false} EvenFromKraft(lens: seq<nat>, maxbits: nat, l: nat)
    requires 2 <= l <= 32 && 1 <= maxbits <= 32 && WholeOrHalf(Kraft(lens, maxbits), maxbits)
    requires forall i :: 0 <= i < |lens| ==> lens[i] <= maxbits
    ensures forall k :: l <= k <= 32 ==> EvenAt(lens, k)
    decreases 32 - l
  {
    hide Kraft, Above, Below, Start, Count;
    if l < 32 { EvenFromKraft(lens, maxbits, l + 1); }
    if l > maxbits {
      StartPastMax(lens, maxbits, l);
      NoneLonger(lens, l);
    } else {
      KraftByLength(lens, maxbits);
      KraftSplit(lens, maxbits, l);
      EdgeIsAbove(lens, maxbits, l);
      var t := MultipleOf(Kraft(lens, maxbits), maxbits, l);
      ShlEven(Start(lens, l) + Count(lens, l), Below(lens, l), t, maxbits - l);
    }
  }

  /** Assignment and table building accept exactly the lengths within the maximum whose Kraft sum is
      nothing, one half or one. */
  lemma AcceptedIffKraft(lens: seq<nat>, maxbits: nat)
    requires 1 <= maxbits <= 32
    ensures Accepted(lens, maxbits)
       <==> (forall i :: 0 <= i < |lens| ==> lens[i] <= maxbits) && WholeOrHalf(Kraft(lens, maxbits), maxbits)
  {
    hide Kraft, Above, Start, Count, Fits;
    if forall i :: 0 <= i < |lens| ==> lens[i] <= maxbits {
      KraftByLength(lens, maxbits);
      if WholeOrHalf(Kraft(lens, maxbits), maxbits) {
        EvenFromKraft(lens, maxbits, 2);
      }
      if Consistent(lens, maxbits) {
        EdgeIsAbove(lens, maxbits, 1);
        FitsIff(lens, maxbits);
      }
    }
  }
}
