/** Encoding with the canonical codes, packing the bits into bytes, and decoding them again. */
module HuffmanRoundTrip {
  import opened Bits
  import opened BitstreamModule
  import opened HuffmanCodes
  import opened HuffmanDecoderModule

  function BitOf(b: bool): nat {
    if b then 1 else 0
  }

  /** The n low bits of c, most significant first. */
  function CodeBits(c: nat, n: nat): (s: seq<bool>)
    ensures |s| == n
  {
    if n == 0 then [] else CodeBits(c / 2, n - 1) + [c % 2 == 1]
  }

  ghost predicate AllCoded(lens: seq<nat>, maxbits: nat, syms: seq<nat>) {
    forall i :: 0 <= i < |syms| ==> Coded(lens, maxbits, syms[i])
  }

  /** The codes of the symbols, one after the other. */
  ghost function Encode(lens: seq<nat>, maxbits: nat, syms: seq<nat>): seq<bool>
    requires maxbits <= 32 && AllCoded(lens, maxbits, syms)
  {
    if syms == [] then []
    else CodeBits(Code(lens, syms[0]), lens[syms[0]]) + Encode(lens, maxbits, syms[1..])
  }

  /** The stream holds these bits from position p on; whatever follows is free. */
  ghost predicate Holds(data: seq<byte>, p: nat, bits: seq<bool>) {
    forall j :: p <= j < p + |bits| ==> BitAt(data, j) == BitOf(bits[j - p])
  }

  lemma HoldsSplit(data: seq<byte>, p: nat, a: seq<bool>, b: seq<bool>)
    requires Holds(data, p, a + b)
    ensures Holds(data, p, a) && Holds(data, p + |a|, b)
  {
    forall j | p <= j < p + |a| ensures BitAt(data, j) == BitOf(a[j - p]) {
      assert (a + b)[j - p] == a[j - p];
    }
    forall j | p + |a| <= j < p + |a| + |b| ensures BitAt(data, j) == BitOf(b[j - (p + |a|)]) {
      assert (a + b)[j - p] == b[j - (p + |a|)];
    }
  }

  lemma {:induction false} ReadCodeBits(data: seq<byte>, p: nat, c: nat, n: nat)
    requires c < Pow2(n) && Holds(data, p, CodeBits(c, n))
    ensures ReadBits(data, p, n) == c
  {
    if n > 0 {
      HoldsSplit(data, p, CodeBits(c / 2, n - 1), [c % 2 == 1]);
      ReadCodeBits(data, p, c / 2, n - 1);
      assert BitAt(data, p + n - 1) == BitOf([c % 2 == 1][(p + n - 1) - (p + (n - 1))]);
    }
  }

  lemma CodeFits(lens: seq<nat>, maxbits: nat, i: nat)
    requires maxbits <= 32 && Accepted(lens, maxbits) && Coded(lens, maxbits, i)
    ensures Code(lens, i) < Pow2(lens[i])
  {
    ShlShl(1, lens[i], maxbits - lens[i]);
    ShlMono(Code(lens, i) + 1, Pow2(lens[i]), maxbits - lens[i]);
  }

  /** A code at p is decoded to its symbol. */
  lemma DecodesCode(lens: seq<nat>, maxbits: nat, data: seq<byte>, p: nat, i: nat)
    requires 1 <= maxbits <= 32 && Accepted(lens, maxbits) && Coded(lens, maxbits, i)
    requires Holds(data, p, CodeBits(Code(lens, i), lens[i]))
    ensures Covered(lens, maxbits, data, p)
    ensures Symbol(lens, maxbits, data, p) == i && Length(lens, maxbits, data, p) == lens[i]
  {
    CodeFits(lens, maxbits, i);
    ReadCodeBits(data, p, Code(lens, i), lens[i]);
    assert CodeAt(lens, maxbits, data, p, i);
    var j := Find(lens, maxbits, data, p, 0);
    FindMeaning(lens, maxbits, data, p, 0);
    PrefixFree(lens, maxbits, data, p, i, j);
  }

  /** n symbols decoded from p on, and the position after them. */
  function DecodeAll(lens: seq<nat>, maxbits: nat, data: seq<byte>, p: nat, n: nat): (seq<nat>, nat)
    requires maxbits <= 32
    decreases n
  {
    if n == 0 then ([], p)
    else
      var (rest, q) := DecodeAll(lens, maxbits, data, p + Length(lens, maxbits, data, p), n - 1);
      ([Symbol(lens, maxbits, data, p)] + rest, q)
  }

  /** Each of n symbols decoded from p on has a code. */
  predicate AllCovered(lens: seq<nat>, maxbits: nat, data: seq<byte>, p: nat, n: nat)
    requires maxbits <= 32
    decreases n
  {
    n == 0 || (Covered(lens, maxbits, data, p)
               && AllCovered(lens, maxbits, data, p + Length(lens, maxbits, data, p), n - 1))
  }

  /** Decoding what was encoded returns the symbols and consumes exactly their codes, whatever bits
      follow. */
  lemma {:induction false} RoundTrip(lens: seq<nat>, maxbits: nat, data: seq<byte>, p: nat, syms: seq<nat>)
    requires 1 <= maxbits <= 32 && Accepted(lens, maxbits) && AllCoded(lens, maxbits, syms)
    requires Holds(data, p, Encode(lens, maxbits, syms))
    ensures AllCovered(lens, maxbits, data, p, |syms|)
    ensures DecodeAll(lens, maxbits, data, p, |syms|) == (syms, p + |Encode(lens, maxbits, syms)|)
    decreases |syms|
  {
    hide Accepted, Symbol, Length, Covered, Code;
    if syms != [] {
      var i := syms[0];
      var head, tail := CodeBits(Code(lens, i), lens[i]), Encode(lens, maxbits, syms[1..]);
      HoldsSplit(data, p, head, tail);
      DecodesCode(lens, maxbits, data, p, i);
      RoundTrip(lens, maxbits, data, p + lens[i], syms[1..]);
      assert [syms[0]] + syms[1..] == syms;
    }
  }

  // ---- packing

  /** n bits from position p as a number, zeros past the end. */
  function Gather(bits: seq<bool>, p: nat, n: nat): nat {
    if n == 0 then 0
    else 2 * Gather(bits, p, n - 1) + (if p + n - 1 < |bits| then BitOf(bits[p + n - 1]) else 0)
  }

  lemma {:induction false} GatherTop(bits: seq<bool>, p: nat, n: nat, k: nat)
    requires k <= n
    ensures Shr(Gather(bits, p, n), n - k) == Gather(bits, p, k)
  {
    if k < n {
      ShrOnce(Gather(bits, p, n), n - 1 - k);
      GatherTop(bits, p, n - 1, k);
    }
  }

  lemma GatherByte(bits: seq<bool>, p: nat)
    ensures Gather(bits, p, 8) < 256
  {
    assert Gather(bits, p, 1) < 2;
    assert Gather(bits, p, 2) < 4;
    assert Gather(bits, p, 3) < 8;
    assert Gather(bits, p, 4) < 16;
    assert Gather(bits, p, 5) < 32;
    assert Gather(bits, p, 6) < 64;
    assert Gather(bits, p, 7) < 128;
  }

  function PackByte(bits: seq<bool>, k: nat): byte {
    GatherByte(bits, 8 * k);
    Gather(bits, 8 * k, 8)
  }

  /** The bits in whole bytes, the last one filled up with zeros. */
  function Pack(bits: seq<bool>): seq<byte> {
    seq((|bits| + 7) / 8, k requires k >= 0 => PackByte(bits, k))
  }

  lemma PackHolds(bits: seq<bool>)
    ensures Holds(Pack(bits), 0, bits)
  {
    forall j | 0 <= j < 0 + |bits| ensures BitAt(Pack(bits), j) == BitOf(bits[j - 0]) {
      assert Pack(bits)[j / 8] == PackByte(bits, j / 8);
      GatherTop(bits, 8 * (j / 8), 8, j % 8 + 1);
      assert 8 * (j / 8) + (j % 8 + 1) - 1 == j;
    }
  }

  /** Decoding inverts encoding for every symbol sequence, with anything behind it. */
  lemma PackedRoundTrip(lens: seq<nat>, maxbits: nat, syms: seq<nat>, rest: seq<bool>)
    requires 1 <= maxbits <= 32 && Accepted(lens, maxbits) && AllCoded(lens, maxbits, syms)
    ensures DecodeAll(lens, maxbits, Pack(Encode(lens, maxbits, syms) + rest), 0, |syms|)
         == (syms, |Encode(lens, maxbits, syms)|)
  {
    hide Accepted, DecodeAll;
    var bits := Encode(lens, maxbits, syms);
    PackHolds(bits + rest);
    HoldsSplit(Pack(bits + rest), 0, bits, rest);
    RoundTrip(lens, maxbits, Pack(bits + rest), 0, syms);
  }

  /** Decodes n symbols in a row. */
  method DecodeSymbols(decoder: HuffmanDecoder, bitbuf: Bitstream, n: nat) returns (syms: seq<nat>)
    requires decoder.Built() && bitbuf.Valid()
    requires decoder.lowram || AllCovered(decoder.Lens(), decoder.maxbits, bitbuf.data, bitbuf.Position(), n)
    modifies bitbuf
    ensures bitbuf.Valid()
    ensures (syms, bitbuf.Position())
         == DecodeAll(decoder.Lens(), decoder.maxbits, bitbuf.data, old(bitbuf.Position()), n)
  {
    hide Symbol, Length, Covered;
    ghost var lens, maxbits, data, p := decoder.Lens(), decoder.maxbits, bitbuf.data, bitbuf.Position();
    syms := [];
    var cur := 0;
    while cur < n
      invariant cur <= n && bitbuf.Valid() && decoder.Built() && decoder.Lens() == lens
      invariant decoder.lowram || AllCovered(lens, maxbits, data, bitbuf.Position(), n - cur)
      invariant DecodeAll(lens, maxbits, data, p, n).0
             == syms + DecodeAll(lens, maxbits, data, bitbuf.Position(), n - cur).0
      invariant DecodeAll(lens, maxbits, data, p, n).1 == DecodeAll(lens, maxbits, data, bitbuf.Position(), n - cur).1
    {
      var v := decoder.DecodeOne(bitbuf);
      ghost var rest := DecodeAll(lens, maxbits, data, bitbuf.Position(), n - cur - 1).0;
      assert syms + ([v] + rest) == (syms + [v]) + rest;
      syms := syms + [v];
      cur := cur + 1;
    }
    assert DecodeAll(lens, maxbits, data, bitbuf.Position(), 0) == ([], bitbuf.Position());
    assert syms + [] == syms;
  }
}
