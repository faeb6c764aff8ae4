/** Maps written for a list of entries decode to that list, exactly if no field loses a one. */
module V5MapRoundTrip {
  import opened Bits
  import opened BitstreamModule
  import opened HuffmanCodes
  import opened HuffmanDecoderModule
  import opened HuffmanRoundTrip
  import opened V5Map
  import opened V5MapMeaning
  import opened V5MapEncoding

  // ---- pass 1

  /** Pass 1 before hunk k stands at p, with no run pending. */
  ghost predicate Reached(m: Source, k: nat, p: nat, last: nat, pending: nat) {
    Types(m, k) == TypeState(p, last, pending)
  }

  lemma DecodesSymbol(m: Source, p: nat, v: nat, rest: seq<nat>)
    requires m.Valid() && AllCoded(m.lens, MAXBITS, [v] + rest) && Holds(m.blob, p, Encode(m.lens, MAXBITS, [v] + rest))
    ensures AllCoded(m.lens, MAXBITS, rest)
    ensures var q := After(m.lens, m.blob, p);
            && Sym(m.lens, m.blob, p) == v && Covered(m.lens, MAXBITS, m.blob, p)
            && Holds(m.blob, q, Encode(m.lens, MAXBITS, rest))
            && p + |Encode(m.lens, MAXBITS, [v] + rest)| == q + |Encode(m.lens, MAXBITS, rest)|
  {
    hide Accepted, Holds, Code;
    var syms := [v] + rest;
    assert syms[0] == v && syms[1..] == rest;
    forall i | 0 <= i < |rest| ensures Coded(m.lens, MAXBITS, rest[i]) { assert rest[i] == syms[i + 1]; }
    HoldsSplit(m.blob, p, CodeBits(Code(m.lens, v), m.lens[v]), Encode(m.lens, MAXBITS, rest));
    DecodesCode(m.lens, MAXBITS, m.blob, p, v);
  }

  lemma OneSymbol(m: Source, p: nat, v: nat)
    requires m.Valid() && AllCoded(m.lens, MAXBITS, [v]) && Holds(m.blob, p, Encode(m.lens, MAXBITS, [v]))
    ensures Sym(m.lens, m.blob, p) == v && Covered(m.lens, MAXBITS, m.blob, p)
    ensures After(m.lens, m.blob, p) == p + |Encode(m.lens, MAXBITS, [v])|
  {
    hide Accepted, Holds, Encode, AllCoded;
    assert [v] + [] == [v];
    DecodesSymbol(m, p, v, []);
    EncodeNothing(m.lens);
  }

  lemma TwoSymbols(m: Source, p: nat, v: nat, w: nat)
    requires m.Valid() && AllCoded(m.lens, MAXBITS, [v, w]) && Holds(m.blob, p, Encode(m.lens, MAXBITS, [v, w]))
    ensures Sym(m.lens, m.blob, p) == v && Covered(m.lens, MAXBITS, m.blob, p)
    ensures var q := After(m.lens, m.blob, p);
            && Sym(m.lens, m.blob, q) == w && Covered(m.lens, MAXBITS, m.blob, q)
            && After(m.lens, m.blob, q) == p + |Encode(m.lens, MAXBITS, [v, w])|
  {
    hide Accepted, Holds, Encode, AllCoded;
    assert [v] + [w] == [v, w];
    DecodesSymbol(m, p, v, [w]);
    OneSymbol(m, After(m.lens, m.blob, p), w);
  }

  lemma ThreeSymbols(m: Source, p: nat, v: nat, w: nat, x: nat)
    requires m.Valid() && AllCoded(m.lens, MAXBITS, [v, w, x]) && Holds(m.blob, p, Encode(m.lens, MAXBITS, [v, w, x]))
    ensures Sym(m.lens, m.blob, p) == v && Covered(m.lens, MAXBITS, m.blob, p)
    ensures var q := After(m.lens, m.blob, p);
            var r := After(m.lens, m.blob, q);
            && Sym(m.lens, m.blob, q) == w && Covered(m.lens, MAXBITS, m.blob, q)
            && Sym(m.lens, m.blob, r) == x && Covered(m.lens, MAXBITS, m.blob, r)
            && After(m.lens, m.blob, r) == p + |Encode(m.lens, MAXBITS, [v, w, x])|
  {
    hide Accepted, Holds, Encode, AllCoded;
    assert [v] + [w, x] == [v, w, x];
    DecodesSymbol(m, p, v, [w, x]);
    TwoSymbols(m, After(m.lens, m.blob, p), w, x);
  }

  /** A token is read back: a literal type, or the first hunk of a run. */
  lemma TokenReads(m: Source, k: nat, p: nat, last: nat, t: Token)
    requires m.Valid() && Reached(m, k, p, last, 0) && Writable(t) && AllCoded(m.lens, MAXBITS, Symbols(t))
    requires Holds(m.blob, p, Encode(m.lens, MAXBITS, Symbols(t)))
    ensures CoveredNext(m.lens, m.blob, Types(m, k))
    ensures var q := p + |Encode(m.lens, MAXBITS, Symbols(t))|;
            if t.Run? then Reached(m, k + 1, q, last, t.length - 1) else Reached(m, k + 1, q, t.kind, 0)
  {
    hide Accepted, Holds, Encode, AllCoded, Sym, After, Covered;
    if t.Literal? {
      OneSymbol(m, p, t.kind);
    } else if t.length <= 18 {
      TwoSymbols(m, p, 7, t.length - 3);
    } else {
      ThreeSymbols(m, p, 8, (t.length - 19) / 16, (t.length - 19) % 16);
    }
  }

  lemma EncodeNothing(lens: seq<nat>)
    ensures Encode(lens, MAXBITS, []) == []
  {
  }

  /** The hunks k .. k + |kinds| have these types, for which every symbol read has a code and begins before `end`. */
  ghost predicate Typed(m: Source, k: nat, kinds: seq<nat>, end: nat) {
    forall j: nat :: j < |kinds| ==> TypedAt(m, k + j, kinds[j], end)
  }

  ghost predicate TypedAt(m: Source, k: nat, kind: nat, end: nat) {
    Kind(m, k) == kind && CoveredNext(m.lens, m.blob, Types(m, k)) && (Types(m, k).repcount == 0 ==> Types(m, k).pos <= end)
  }

  lemma TypedJoin(m: Source, k: nat, a: seq<nat>, b: seq<nat>, end: nat)
    requires Typed(m, k, a, end) && Typed(m, k + |a|, b, end)
    ensures Typed(m, k, a + b, end)
  {
    hide TypedAt;
    forall j: nat | j < |a + b| ensures TypedAt(m, k + j, (a + b)[j], end) {
      if j >= |a| {
        assert TypedAt(m, k + |a| + (j - |a|), b[j - |a|], end);
        assert k + |a| + (j - |a|) == k + j;
      }
    }
  }

  /** A pending run gives its type to the hunks it is for. */
  lemma {:induction false} PendingReads(m: Source, k: nat, p: nat, last: nat, n: nat, end: nat)
    requires Reached(m, k, p, last, n)
    ensures Reached(m, k + n, p, last, 0) && Typed(m, k, Copies(last, n), end)
    decreases n
  {
    hide Sym, After, Covered;
    if n > 0 {
      assert Reached(m, k + 1, p, last, n - 1);
      PendingReads(m, k + 1, p, last, n - 1, end);
      assert TypedAt(m, k + 0, last, end);
      OneTyped(m, k, last, end);
      TypedJoin(m, k, [last], Copies(last, n - 1), end);
      assert Copies(last, n) == [last] + Copies(last, n - 1);
    }
  }

  lemma OneTyped(m: Source, k: nat, kind: nat, end: nat)
    requires TypedAt(m, k, kind, end)
    ensures Typed(m, k, [kind], end)
  {
    hide TypedAt;
    forall j: nat | j < 1 ensures TypedAt(m, k + j, [kind][j], end) {
      assert k + j == k;
    }
  }

  /** One token more, and the hunks it stands for. */
  lemma TokenTypes(m: Source, k: nat, p: nat, last: nat, t: Token, end: nat)
    requires m.Valid() && Reached(m, k, p, last, 0) && Writable(t) && AllCoded(m.lens, MAXBITS, Symbols(t)) && p <= end
    requires Holds(m.blob, p, Encode(m.lens, MAXBITS, Symbols(t)))
    ensures var kinds, q := (if t.Run? then Copies(last, t.length) else [t.kind]), p + |Encode(m.lens, MAXBITS, Symbols(t))|;
            && Typed(m, k, kinds, end)
            && Reached(m, k + |kinds|, q, if t.Run? then last else t.kind, 0)
  {
    hide Accepted, Holds, Encode, Typed, CoveredNext, Types;
    var q := p + |Encode(m.lens, MAXBITS, Symbols(t))|;
    TokenReads(m, k, p, last, t);
    var kind := if t.Run? then last else t.kind;
    assert TypedAt(m, k, kind, end);
    OneTyped(m, k, kind, end);
    if t.Run? {
      PendingReads(m, k + 1, q, last, t.length - 1, end);
      TypedJoin(m, k, [last], Copies(last, t.length - 1), end);
      assert Copies(last, t.length) == [last] + Copies(last, t.length - 1);
    }
  }

  /** However types are cut into literals and runs, pass 1 reads them back, whatever bits follow. */
  lemma {:induction false} TypesRoundTrip(m: Source, k: nat, p: nat, last: nat, tokens: seq<Token>, end: nat)
    requires m.Valid() && Reached(m, k, p, last, 0) && TokensCoded(m.lens, tokens)
    requires Holds(m.blob, p, TypeBits(m.lens, tokens)) && p + |TypeBits(m.lens, tokens)| <= end
    ensures var kinds := Expanded(last, tokens);
            && Typed(m, k, kinds, end)
            && Types(m, k + |kinds|).pos == p + |TypeBits(m.lens, tokens)|
    decreases |tokens|
  {
    hide Accepted, Holds, Encode, Typed, Types, Symbols;
    if tokens == [] {
      NoneTyped(m, k, end);
    } else {
      var t, rest := tokens[0], tokens[1..];
      var head := Encode(m.lens, MAXBITS, Symbols(t));
      HoldsSplit(m.blob, p, head, TypeBits(m.lens, rest));
      TokenTypes(m, k, p, last, t, end);
      var kinds := if t.Run? then Copies(last, t.length) else [t.kind];
      var next := if t.Run? then last else t.kind;
      TypesRoundTrip(m, k + |kinds|, p + |head|, next, rest, end);
      TypedJoin(m, k, kinds, Expanded(next, rest), end);
    }
  }

  lemma NoneTyped(m: Source, k: nat, end: nat)
    ensures Typed(m, k, [], end)
  {
  }

  // ---- pass 2

  /** A field returns what was written exactly if the bits it loses are zeros. */
  lemma FieldIff(data: seq<byte>, p: nat, n: nat, c: nat)
    requires n <= 32 && c < Pow2(n) && Holds(data, p, CodeBits(c, n))
    ensures Field(data, p, n) == c <==> Kept(p, n, c)
    ensures n <= 25 ==> Kept(p, n, c)
  {
    hide Holds, ReadBits, Shl, Shr;
    ReadCodeBits(data, p, c, n);
    var m := Deliverable(p, n);
    var lost := n - m;
    var top, low := ReadBits(data, p, m), ReadBits(data, p + m, lost);
    ReadBitsSplit(data, p, m, lost);
    ShrShl(top, low, lost);
    assert c == Shl(Shr(c, lost), lost) + LowBits(c, lost);
  }

  /** Pass 2 before hunk k, if all entries so far are these. */
  function StateOf(par: Params, es: seq<Entry>, k: nat, p: nat): FieldState
    requires k <= |es|
  {
    FieldState(p, DataPlace(par, es, k), Target(es, 5, k), Target(es, 6, k))
  }

  lemma StateNext(par: Params, es: seq<Entry>, k: nat, p: nat, q: nat)
    requires k < |es|
    ensures var e, f := es[k], StateOf(par, es, k, p);
            StateOf(par, es, k + 1, q)
            == FieldState(q, (f.curoffset + if e.kind <= 4 then e.length else 0) % TWO64,
                          if e.kind == 5 then e.offset else f.lastSelf, if e.kind == 6 then e.offset else f.lastParent)
    ensures StateOf(par, es, k, p).curoffset < TWO64
  {
    WrapAdd(par.firstoffs + Taken(es, k), if es[k].kind <= 4 then es[k].length else 0);
  }

  lemma Pow16()
    ensures Pow2(16) == 0x1_0000
  {
    ShlByConstants(1);
    ShlShl(1, 8, 8);
    ShlByConstants(256);
  }

  /** The fields of an entry return it exactly if they lose no one. */
  lemma FieldsRead(par: Params, data: seq<byte>, es: seq<Entry>, k: nat, kind: nat, p: nat)
    requires par.Valid() && k < |es| && Stands(par, es, k, kind) && Holds(data, p, FieldBits(par, kind, es[k]))
    ensures kind <= 3 ==>
            && (Field(data, p, par.lengthbits) == es[k].length <==> FieldsKept(par, kind, es[k], p))
            && Field(data, p + par.lengthbits, 16) == es[k].crc
    ensures kind == 4 ==> Field(data, p, 16) == es[k].crc
    ensures kind == 5 ==> (Field(data, p, par.selfbits) == es[k].offset <==> FieldsKept(par, kind, es[k], p))
    ensures kind == 6 ==> (Field(data, p, par.parentbits) == es[k].offset <==> FieldsKept(par, kind, es[k], p))
  {
    hide Field, Kept, Holds, CodeBits, Pow2, DataPlace, Target;
    var e := es[k];
    Pow16();
    if kind <= 3 {
      HoldsSplit(data, p, CodeBits(e.length, par.lengthbits), CodeBits(e.crc, 16));
      FieldIff(data, p, par.lengthbits, e.length);
      FieldIff(data, p + par.lengthbits, 16, e.crc);
    } else if kind == 4 {
      FieldIff(data, p, 16, e.crc);
    } else if kind == 5 {
      FieldIff(data, p, par.selfbits, e.offset);
    } else if kind == 6 {
      FieldIff(data, p, par.parentbits, e.offset);
    }
  }

  /** Pass 2 reads an entry back exactly if no field of it loses a one, and then goes on from the next. */
  lemma EntryReads(par: Params, data: seq<byte>, es: seq<Entry>, k: nat, kind: nat, p: nat)
    requires par.Valid() && k < |es| && Stands(par, es, k, kind) && Holds(data, p, FieldBits(par, kind, es[k]))
    ensures var r := NextEntry(par, data, k, kind, StateOf(par, es, k, p));
            && (r.0 == es[k] <==> FieldsKept(par, kind, es[k], p))
            && (r.0 == es[k] ==> r.1 == StateOf(par, es, k + 1, p + |FieldBits(par, kind, es[k])|))
  {
    hide Field, Kept, Holds, CodeBits, Pow2, DataPlace, Target;
    FieldsRead(par, data, es, k, kind, p);
    StateNext(par, es, k, p, p + |FieldBits(par, kind, es[k])|);
  }

  /** The fields of all entries lie at their places. */
  lemma {:induction false} FieldsLie(data: seq<byte>, par: Params, es: seq<Entry>, kinds: seq<nat>, p: nat, k: nat)
    requires k < |es| == |kinds| && Holds(data, p, FieldBitsFrom(par, es, kinds, 0))
    ensures Holds(data, FieldPlace(par, es, kinds, p, k), FieldBits(par, kinds[k], es[k]))
    ensures Holds(data, FieldPlace(par, es, kinds, p, k), FieldBitsFrom(par, es, kinds, k))
  {
    hide Holds, FieldBits;
    if k > 0 {
      FieldsLie(data, par, es, kinds, p, k - 1);
      HoldsSplit(data, FieldPlace(par, es, kinds, p, k - 1), FieldBits(par, kinds[k - 1], es[k - 1]),
                 FieldBitsFrom(par, es, kinds, k));
    }
    HoldsSplit(data, FieldPlace(par, es, kinds, p, k), FieldBits(par, kinds[k], es[k]),
               FieldBitsFrom(par, es, kinds, k + 1));
  }

  /** The entries below n are read back. */
  ghost predicate Returned(m: Source, es: seq<Entry>, n: nat)
    requires m.par.unitbytes > 0 && n <= |es|
  {
    forall k: nat :: k < n ==> EntryOf(m, k) == es[k]
  }

  ghost predicate KeptBelow(par: Params, es: seq<Entry>, kinds: seq<nat>, p: nat, n: nat)
    requires n <= |es| == |kinds|
  {
    forall k: nat :: k < n ==> FieldsKept(par, kinds[k], es[k], FieldPlace(par, es, kinds, p, k))
  }

  /** What has been read for one list of types and entries. */
  ghost predicate Written(m: Source, es: seq<Entry>, kinds: seq<nat>, p: nat) {
    && m.par.Valid() && |es| == |kinds| == m.par.hunkcount && AllStand(m.par, es, kinds)
    && (forall k: nat :: k < |es| ==> Kind(m, k) == kinds[k])
    && Types(m, m.par.hunkcount).pos == p && Holds(m.blob, p, FieldBitsFrom(m.par, es, kinds, 0))
  }

  /** Pass 2 returns the entries exactly as far as no field loses a one. */
  lemma {:induction false} FieldsRoundTrip(m: Source, es: seq<Entry>, kinds: seq<nat>, p: nat, n: nat)
    requires Written(m, es, kinds, p) && n <= |es|
    ensures Returned(m, es, n) <==> KeptBelow(m.par, es, kinds, p, n)
    ensures Returned(m, es, n) ==> Fields(m, n) == StateOf(m.par, es, n, FieldPlace(m.par, es, kinds, p, n))
  {
    hide Types, Holds, FieldBits, NextEntry, Stands, FieldsKept;
    if n > 0 {
      var k := n - 1;
      FieldsRoundTrip(m, es, kinds, p, k);
      FieldsLie(m.blob, m.par, es, kinds, p, k);
      EntryReads(m.par, m.blob, es, k, kinds[k], FieldPlace(m.par, es, kinds, p, k));
      assert Returned(m, es, n) <==> Returned(m, es, k) && EntryOf(m, k) == es[k];
      assert KeptBelow(m.par, es, kinds, p, n) <==>
             KeptBelow(m.par, es, kinds, p, k) && FieldsKept(m.par, kinds[k], es[k], FieldPlace(m.par, es, kinds, p, k));
    } else {
      NothingTaken(m.par, es);
    }
  }

  lemma NothingTaken(par: Params, es: seq<Entry>)
    requires par.Valid()
    ensures DataPlace(par, es, 0) == par.firstoffs && Target(es, 5, 0) == 0 && Target(es, 6, 0) == 0
  {
  }

  // ---- the map

  /** What is written behind the tree. */
  ghost function Body(par: Params, lens: seq<nat>, tokens: seq<Token>, es: seq<Entry>, kinds: seq<nat>): seq<bool>
    requires TokensCoded(lens, tokens) && |es| == |kinds|
  {
    TypeBits(lens, tokens) + FieldBitsFrom(par, es, kinds, 0)
  }

  /** A map written with these types decodes to the entries it was written for, if and only if no field
      loses a one: for any code, any cut of the types into literals and runs, any choice among the types that
      fit an entry, and whatever bits follow. */
  lemma MapRoundTrip(m: Source, tokens: seq<Token>, es: seq<Entry>, kinds: seq<nat>)
    requires m.Valid() && |es| == |kinds| == m.par.hunkcount && AllStand(m.par, es, kinds)
    requires TokensCoded(m.lens, tokens) && Expanded(0, tokens) == kinds
    requires Holds(m.blob, m.treeEnd, Body(m.par, m.lens, tokens, es, kinds))
    requires m.treeEnd + |Body(m.par, m.lens, tokens, es, kinds)| <= 8 * |m.blob|
    ensures TypesInside(m, m.par.hunkcount) && TypesCovered(m, m.par.hunkcount)
    ensures (forall k: nat :: k < |es| ==> EntryOf(m, k) == es[k])
       <==> AllKept(m.par, es, kinds, m.treeEnd + |TypeBits(m.lens, tokens)|)
  {
    hide Accepted, Holds, Types, Typed, TypesInside, TypesCovered, CoveredNext, AllKept, KeptBelow, Returned,
         AllStand, TokensCoded, EntryOf, Kind;
    var n, q := m.par.hunkcount, m.treeEnd + |TypeBits(m.lens, tokens)|;
    HoldsSplit(m.blob, m.treeEnd, TypeBits(m.lens, tokens), FieldBitsFrom(m.par, es, kinds, 0));
    assert Reached(m, 0, m.treeEnd, 0, 0) by { TypesStart(m); }
    TypesRoundTrip(m, 0, m.treeEnd, 0, tokens, q);
    TypedInside(m, kinds, q);
    assert Written(m, es, kinds, q);
    FieldsRoundTrip(m, es, kinds, q, n);
    WholeList(m, es, kinds, q);
  }

  lemma TypedInside(m: Source, kinds: seq<nat>, end: nat)
    requires Typed(m, 0, kinds, end) && |kinds| == m.par.hunkcount && end <= 8 * |m.blob|
    ensures TypesInside(m, m.par.hunkcount) && TypesCovered(m, m.par.hunkcount)
    ensures forall k: nat :: k < |kinds| ==> Kind(m, k) == kinds[k]
  {
    hide Types, CoveredNext;
    forall k: nat | k < |kinds|
      ensures !Stops(Types(m, k), |m.blob|) && CoveredNext(m.lens, m.blob, Types(m, k)) && Kind(m, k) == kinds[k]
    {
      assert TypedAt(m, 0 + k, kinds[k], end);
    }
  }

  lemma WholeList(m: Source, es: seq<Entry>, kinds: seq<nat>, p: nat)
    requires m.par.unitbytes > 0 && |es| == |kinds|
    ensures Returned(m, es, |es|) <==> forall k: nat :: k < |es| ==> EntryOf(m, k) == es[k]
    ensures KeptBelow(m.par, es, kinds, p, |es|) <==> AllKept(m.par, es, kinds, p)
  {
    hide EntryOf, FieldsKept, FieldPlace;
  }

  lemma TypesStart(m: Source)
    ensures Types(m, 0) == TypeState(m.treeEnd, 0, 0)
  {
  }
}
