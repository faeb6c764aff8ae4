/** Writing code lengths down the way trees are stored, and reading them back. */
module HuffmanTreeRoundTrip {
  import opened Bits
  import opened HuffmanCodes
  import opened HuffmanDecoderModule
  import opened HuffmanRoundTrip

  /** One item of a stored tree: a length, or a run of equal lengths. */
  datatype Item = Single(len: nat) | Run(len: nat, count: nat)
  {
    /** A run is of any length but 1, and its count, less 3, takes as many bits as a length. */
    predicate Valid(width: nat) {
      len < Pow2(width) && (Run? ==> len != 1 && 3 <= count < 3 + Pow2(width))
    }

    /** The lengths it stands for. */
    function Lens(): seq<nat> {
      if Single? then [len] else seq(count, _ => len)
    }

    /** A 1 escapes: doubled it is a single 1, else a run follows. */
    function Stored(width: nat): seq<bool>
      requires Valid(width)
    {
      if Run? then CodeBits(1, width) + (CodeBits(len, width) + CodeBits(count - 3, width))
      else if len == 1 then CodeBits(1, width) + CodeBits(1, width)
      else CodeBits(len, width)
    }
  }

  predicate AllValid(items: seq<Item>, width: nat) {
    forall i :: 0 <= i < |items| ==> items[i].Valid(width)
  }

  function LensOf(items: seq<Item>): seq<nat> {
    if items == [] then [] else items[0].Lens() + LensOf(items[1..])
  }

  function StoredItems(items: seq<Item>, width: nat): seq<bool>
    requires AllValid(items, width)
  {
    if items == [] then [] else items[0].Stored(width) + StoredItems(items[1..], width)
  }

  /** Reading an item back, or refusing a run past the last symbol. */
  lemma ReadsItem(data: seq<byte>, p: nat, n: nat, width: nat, acc: seq<nat>, item: Item)
    requires 0 < width && item.Valid(width) && Holds(data, p, item.Stored(width))
    ensures ReadItem(data, p, n, width, acc)
         == if item.Run? && |acc| + item.count > n then None
            else Some(Tree(acc + item.Lens(), p + |item.Stored(width)|))
  {
    hide Holds, ReadBits, CodeBits;
    Pow2Mono(1, width);
    assert Pow2(1) == 2 by { assert Pow2(0) == 1; }
    if item.Run? {
      var a, b, c := CodeBits(1, width), CodeBits(item.len, width), CodeBits(item.count - 3, width);
      HoldsSplit(data, p, a, b + c);
      HoldsSplit(data, p + width, b, c);
      ReadCodeBits(data, p, 1, width);
      ReadCodeBits(data, p + width, item.len, width);
      ReadCodeBits(data, p + width + width, item.count - 3, width);
      assert Repeat(item.len, item.count) == item.Lens();
    } else if item.len == 1 {
      HoldsSplit(data, p, CodeBits(1, width), CodeBits(1, width));
      ReadCodeBits(data, p, 1, width);
      ReadCodeBits(data, p + width, 1, width);
    } else {
      ReadCodeBits(data, p, item.len, width);
    }
  }

  /** However lengths are cut into items, reading the items returns them, whatever bits follow. */
  lemma {:induction false} TreeRoundTrip(data: seq<byte>, p: nat, n: nat, width: nat, acc: seq<nat>, items: seq<Item>)
    requires 0 < width && AllValid(items, width) && Holds(data, p, StoredItems(items, width))
    requires |acc| + |LensOf(items)| == n
    ensures ReadLens(data, p, n, width, acc) == Some(Tree(acc + LensOf(items), p + |StoredItems(items, width)|))
    decreases |items|
  {
    hide ReadItem, Holds, Item.Valid, Item.Stored;
    if items != [] {
      var item, rest := items[0], items[1..];
      HoldsSplit(data, p, item.Stored(width), StoredItems(rest, width));
      ReadsItem(data, p, n, width, acc, item);
      NotEmpty(item, width);
      TreeRoundTrip(data, p + |item.Stored(width)|, n, width, acc + item.Lens(), rest);
      assert (acc + item.Lens()) + LensOf(rest) == acc + LensOf(items);
    } else {
      assert acc + [] == acc;
    }
  }

  lemma NotEmpty(item: Item, width: nat)
    requires item.Valid(width)
    ensures item.Lens() != []
  {
  }

  /** A run that goes past the last symbol is refused, after any items that do not. */
  lemma {:induction false} LongRunRefused(data: seq<byte>, p: nat, n: nat, width: nat, acc: seq<nat>,
                                         items: seq<Item>, run: Item)
    requires 0 < width && AllValid(items, width) && run.Valid(width) && run.Run?
    requires Holds(data, p, StoredItems(items, width) + run.Stored(width))
    requires |acc| + |LensOf(items)| < n < |acc| + |LensOf(items)| + run.count
    ensures ReadLens(data, p, n, width, acc) == None
    decreases |items|
  {
    hide ReadItem, Holds, Item.Valid, Item.Stored;
    if items != [] {
      var item, rest := items[0], items[1..];
      assert StoredItems(items, width) + run.Stored(width)
          == item.Stored(width) + (StoredItems(rest, width) + run.Stored(width));
      HoldsSplit(data, p, item.Stored(width), StoredItems(rest, width) + run.Stored(width));
      ReadsItem(data, p, n, width, acc, item);
      NotEmpty(item, width);
      LongRunRefused(data, p + |item.Stored(width)|, n, width, acc + item.Lens(), rest, run);
    } else {
      assert [] + run.Stored(width) == run.Stored(width);
      ReadsItem(data, p, n, width, acc, run);
    }
  }

  /** A length takes the least number of bits that can tell all lengths apart, but at least three. */
  lemma WidthIsLeast(maxbits: nat)
    requires maxbits < 32
    ensures var w := TreeWidth(maxbits); 3 <= w && maxbits < Pow2(w) && (w > 3 ==> Pow2(w - 1) <= maxbits)
  {
    assert Pow2(1) == 2 && Pow2(2) == 4;
    assert Pow2(3) == 8 && Pow2(4) == 16;
    assert Pow2(5) == 32;
  }

  // ---- every list can be written

  /** The plainest way of writing lengths. */
  function Singles(lens: seq<nat>): (items: seq<Item>)
    ensures |items| == |lens|
  {
    seq(|lens|, i requires 0 <= i < |lens| => Single(lens[i]))
  }

  lemma {:induction false} SinglesLens(lens: seq<nat>)
    ensures LensOf(Singles(lens)) == lens
  {
    if lens != [] {
      assert Singles(lens)[1..] == Singles(lens[1..]);
      SinglesLens(lens[1..]);
    }
  }

  /** A stored tree with accepted lengths is imported; other lengths are refused as the canonical codes demand. */
  lemma ImportsStored(data: seq<byte>, p: nat, n: nat, maxbits: nat, items: seq<Item>)
    requires maxbits <= 24 && |LensOf(items)| == n
    requires var w := TreeWidth(maxbits); AllValid(items, w) && Holds(data, p, StoredItems(items, w))
    ensures var w, end := TreeWidth(maxbits), p + |StoredItems(items, TreeWidth(maxbits))|;
            && ReadLens(data, p, n, w, []) == Some(Tree(LensOf(items), end))
            && (ImportResult(data, p, n, maxbits) == NoError <==> Accepted(LensOf(items), maxbits) && end <= 8 * |data|)
  {
    hide ReadLens, Holds, Accepted;
    TreeRoundTrip(data, p, n, TreeWidth(maxbits), [], items);
    assert [] + LensOf(items) == LensOf(items);
  }
}
