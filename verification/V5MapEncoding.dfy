/** How a compressed map is written: types as literals and runs in Huffman codes, then the fields of all
    entries; and what a list of entries must meet to be written with given types. */
module V5MapEncoding {
  import opened Bits
  import opened HuffmanCodes
  import opened HuffmanRoundTrip
  import opened V5Map
  import opened V5MapMeaning

  // ---- types

  /** A literal is a type and no run; a run repeats the type before it 3 to 274 times. */
  predicate Writable(t: Token) {
    match t
    case Literal(kind) => kind < 16 && kind != 7 && kind != 8
    case Run(length) => 3 <= length <= 274
  }

  /** The symbols of a token: short runs have one digit, long ones two. */
  function Symbols(t: Token): (syms: seq<nat>)
    requires Writable(t)
    ensures forall i :: 0 <= i < |syms| ==> syms[i] < 16
  {
    match t
    case Literal(kind) => [kind]
    case Run(length) => if length <= 18 then [7, length - 3] else [8, (length - 19) / 16, (length - 19) % 16]
  }

  predicate AllWritable(tokens: seq<Token>) {
    forall i :: 0 <= i < |tokens| ==> Writable(tokens[i])
  }

  /** Every symbol of the tokens has a code. */
  ghost predicate TokensCoded(lens: seq<nat>, tokens: seq<Token>) {
    AllWritable(tokens) && forall i :: 0 <= i < |tokens| ==> AllCoded(lens, MAXBITS, Symbols(tokens[i]))
  }

  ghost function TypeBits(lens: seq<nat>, tokens: seq<Token>): seq<bool>
    requires TokensCoded(lens, tokens)
  {
    if tokens == [] then [] else Encode(lens, MAXBITS, Symbols(tokens[0])) + TypeBits(lens, tokens[1..])
  }

  /** The types that tokens stand for, after a hunk of the given type. */
  function Expanded(last: nat, tokens: seq<Token>): seq<nat>
    decreases |tokens|
  {
    if tokens == [] then []
    else
      match tokens[0]
      case Literal(kind) => [kind] + Expanded(kind, tokens[1..])
      case Run(length) => Copies(last, length) + Expanded(last, tokens[1..])
  }

  // ---- fields

  /** The bytes of the file that the first k hunks take. */
  function Taken(es: seq<Entry>, k: nat): nat
    requires k <= |es|
  {
    if k == 0 then 0 else Taken(es, k - 1) + if es[k - 1].kind <= 4 then es[k - 1].length else 0
  }

  /** Where the data of hunk k would begin. */
  function DataPlace(par: Params, es: seq<Entry>, k: nat): nat
    requires k <= |es|
  {
    (par.firstoffs + Taken(es, k)) % 0x1_0000_0000_0000_0000
  }

  /** The target of the last reference of a kind before hunk k, or 0. */
  function Target(es: seq<Entry>, kind: nat, k: nat): nat
    requires k <= |es|
  {
    if k == 0 then 0
    else if es[k - 1].kind == kind then es[k - 1].offset
    else Target(es, kind, k - 1)
  }

  predicate IsStored(par: Params, es: seq<Entry>, k: nat, kind: nat)
    requires k < |es|
  {
    es[k].kind == kind && es[k].offset == DataPlace(par, es, k) && es[k].crc < 0x1_0000
  }

  /** A reference of a kind: 5 to another hunk, 6 into the parent. */
  predicate Refers(e: Entry, kind: nat, target: nat) {
    e == Entry(kind, 0, target, 0)
  }

  /** Entry k can be written as a hunk of the given type. */
  predicate Stands(par: Params, es: seq<Entry>, k: nat, kind: nat)
    requires par.unitbytes > 0 && k < |es|
  {
    match kind
    case 0 | 1 | 2 | 3 => IsStored(par, es, k, kind) && es[k].length < Pow2(par.lengthbits)
    case 4 => IsStored(par, es, k, 4) && es[k].length == par.hunkbytes
    case 5 => Refers(es[k], 5, es[k].offset) && es[k].offset < Pow2(par.selfbits)
    case 6 => Refers(es[k], 6, es[k].offset) && es[k].offset < Pow2(par.parentbits)
    case 9 => Refers(es[k], 5, Target(es, 5, k))
    case 10 => Refers(es[k], 5, (Target(es, 5, k) + 1) % 0x1_0000_0000)
    case 11 => Refers(es[k], 6, (k * par.hunkbytes) / par.unitbytes)
    case 12 => Refers(es[k], 6, Target(es, 6, k))
    case 13 => Refers(es[k], 6, (Target(es, 6, k) + par.hunkbytes / par.unitbytes) % 0x1_0000_0000_0000_0000)
    case 14 | 15 => es[k] == Entry(kind, 0, DataPlace(par, es, k), 0)
    case _ => false
  }

  ghost predicate AllStand(par: Params, es: seq<Entry>, kinds: seq<nat>)
    requires par.unitbytes > 0
  {
    |kinds| == |es| && forall k :: 0 <= k < |es| ==> Stands(par, es, k, kinds[k])
  }

  /** The fields of an entry: length and checksum, checksum alone, or a target. */
  function FieldBits(par: Params, kind: nat, e: Entry): seq<bool> {
    if kind <= 3 then CodeBits(e.length, par.lengthbits) + CodeBits(e.crc, 16)
    else if kind == 4 then CodeBits(e.crc, 16)
    else if kind == 5 then CodeBits(e.offset, par.selfbits)
    else if kind == 6 then CodeBits(e.offset, par.parentbits)
    else []
  }

  /** The fields of all hunks from k on. */
  function FieldBitsFrom(par: Params, es: seq<Entry>, kinds: seq<nat>, k: nat): seq<bool>
    requires k <= |es| == |kinds|
    decreases |es| - k
  {
    if k == |es| then [] else FieldBits(par, kinds[k], es[k]) + FieldBitsFrom(par, es, kinds, k + 1)
  }

  /** Where the fields of hunk k begin, if those of hunk 0 begin at p. */
  function FieldPlace(par: Params, es: seq<Entry>, kinds: seq<nat>, p: nat, k: nat): nat
    requires k <= |es| == |kinds|
  {
    if k == 0 then p else FieldPlace(par, es, kinds, p, k - 1) + |FieldBits(par, kinds[k - 1], es[k - 1])|
  }

  /** How many of its lowest bits a field at p loses, as at most 32 bits are held from a byte boundary on. */
  function Lost(p: nat, n: nat): nat {
    if p % 8 + n <= 32 then 0 else p % 8 + n - 32
  }

  /** The bits a field loses are zeros. */
  predicate Kept(p: nat, n: nat, c: nat) {
    LowBits(c, Lost(p, n)) == 0
  }

  /** No field of the entry, stored at p, loses a one. */
  predicate FieldsKept(par: Params, kind: nat, e: Entry, p: nat) {
    if kind <= 3 then Kept(p, par.lengthbits, e.length)
    else if kind == 5 then Kept(p, par.selfbits, e.offset)
    else if kind == 6 then Kept(p, par.parentbits, e.offset)
    else true
  }

  ghost predicate AllKept(par: Params, es: seq<Entry>, kinds: seq<nat>, p: nat)
    requires |kinds| == |es|
  {
    forall k :: 0 <= k < |es| ==> FieldsKept(par, kinds[k], es[k], FieldPlace(par, es, kinds, p, k))
  }

  /** The entries, serialised one after the other. */
  function Serialised(es: seq<Entry>): (s: seq<byte>)
    ensures |s| == 12 * |es|
  {
    if es == [] then [] else Serialised(es[..|es| - 1]) + EntryBytes(es[|es| - 1])
  }
}
