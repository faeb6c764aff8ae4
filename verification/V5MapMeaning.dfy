/** What the two passes over the map mean: types are a run-length coded list, stored hunks lie back to
    back in the file, and the short reference codes repeat or continue the reference before them. */
module V5MapMeaning {
  import opened Bits
  import opened V5Map

  // ---- pass 1

  /** A literal type, or a run of some further hunks like the one before. */
  datatype Token = Literal(kind: nat) | Run(length: nat)

  /** A list that repeats its last element, or type 0 at the start. */
  function Last(kinds: seq<nat>): nat {
    if kinds == [] then 0 else kinds[|kinds| - 1]
  }

  function Copies(kind: nat, n: nat): seq<nat> {
    seq(n, _ => kind)
  }

  function Expand(tokens: seq<Token>): seq<nat> {
    if tokens == [] then []
    else
      var before := Expand(tokens[..|tokens| - 1]);
      match tokens[|tokens| - 1]
      case Literal(kind) => before + [kind]
      case Run(length) => before + Copies(Last(before), length)
  }

  /** The token read for a hunk that no pending run covers. */
  function TokenAt(lens: seq<nat>, data: seq<byte>, p: nat): Token {
    var v := Sym(lens, data, p);
    if IsRun(v) then Run(RunCount(lens, data, v, After(lens, data, p)).0 + 1) else Literal(v)
  }

  /** The tokens read for the first n hunks. */
  function Tokens(m: Source, n: nat): seq<Token> {
    if n == 0 then []
    else
      var s := Types(m, n - 1);
      Tokens(m, n - 1) + if s.repcount > 0 then [] else [TokenAt(m.lens, m.blob, s.pos)]
  }

  function Kinds(m: Source, n: nat): (kinds: seq<nat>)
    ensures |kinds| == n
  {
    if n == 0 then [] else Kinds(m, n - 1) + [Kind(m, n - 1)]
  }

  /** The tokens stand for the types so far, then for the rest of the pending run. */
  lemma {:induction false} KindsAreExpanded(m: Source, n: nat)
    ensures Expand(Tokens(m, n)) == Kinds(m, n) + Copies(Types(m, n).lastcomp, Types(m, n).repcount)
    ensures Types(m, n).lastcomp == Last(Kinds(m, n))
  {
    hide Sym, After, RunCount, Expand, Copies, Last, TokenAt;
    if n > 0 {
      KindsAreExpanded(m, n - 1);
      var s, before, kinds := Types(m, n - 1), Tokens(m, n - 1), Kinds(m, n - 1);
      if s.repcount > 0 {
        PendingKind(kinds, s.lastcomp, s.repcount);
        assert before + [] == before;
      } else {
        TokenKind(m.lens, m.blob, before, kinds, s);
      }
    } else {
      NoKinds();
    }
  }

  lemma NoKinds()
    ensures Expand([]) == [] + Copies(0, 0) && Last([]) == 0
  {
  }

  /** One more hunk out of a pending run. */
  lemma PendingKind(kinds: seq<nat>, last: nat, n: nat)
    requires n > 0
    ensures kinds + Copies(last, n) == (kinds + [last]) + Copies(last, n - 1) && Last(kinds + [last]) == last
  {
    assert Copies(last, n) == [last] + Copies(last, n - 1);
  }

  /** One more hunk from a token. */
  lemma TokenKind(lens: seq<nat>, data: seq<byte>, before: seq<Token>, kinds: seq<nat>, s: TypeState)
    requires s.repcount == 0 && Expand(before) == kinds + Copies(s.lastcomp, 0) && s.lastcomp == Last(kinds)
    ensures var next := NextType(lens, data, s);
            && Expand(before + [TokenAt(lens, data, s.pos)]) == (kinds + [next.lastcomp]) + Copies(next.lastcomp, next.repcount)
            && next.lastcomp == Last(kinds + [next.lastcomp])
  {
    hide Sym, After, RunCount;
    var t := TokenAt(lens, data, s.pos);
    assert (before + [t])[..|before|] == before;
    assert kinds + Copies(s.lastcomp, 0) == kinds;
    if t.Run? {
      PendingKind(kinds, s.lastcomp, t.length);
    } else {
      assert kinds + [t.kind] + Copies(t.kind, 0) == kinds + [t.kind];
    }
  }

  // ---- pass 2

  /** Hunks whose data the file holds. */
  predicate Stored(e: Entry) {
    e.kind <= NONE
  }

  /** The bytes that the first n hunks take in the file. */
  function StoredBytes(m: Source, n: nat): nat
    requires m.par.unitbytes > 0
  {
    if n == 0 then 0
    else StoredBytes(m, n - 1) + if Stored(EntryOf(m, n - 1)) then EntryOf(m, n - 1).length else 0
  }

  lemma {:induction false} OffsetSoFar(m: Source, n: nat)
    requires m.par.Valid()
    ensures Fields(m, n).curoffset == (m.par.firstoffs + StoredBytes(m, n)) % TWO64
  {
    hide NextEntry, Types;
    if n > 0 {
      OffsetSoFar(m, n - 1);
      OffsetStep(m.par, m.blob, n - 1, Kind(m, n - 1), Fields(m, n - 1));
      var e := EntryOf(m, n - 1);
      WrapAdd(m.par.firstoffs + StoredBytes(m, n - 1), if Stored(e) then e.length else 0);
    }
  }

  lemma OffsetStep(par: Params, data: seq<byte>, hunk: nat, kind: nat, f: FieldState)
    requires par.unitbytes > 0 && f.curoffset < TWO64
    ensures var (e, next) := NextEntry(par, data, hunk, kind, f);
            next.curoffset == (f.curoffset + if Stored(e) then e.length else 0) % TWO64
  {
  }

  lemma WrapAdd(a: nat, b: nat)
    ensures (a % TWO64 + b) % TWO64 == (a + b) % TWO64
  {
  }

  /** Stored hunks lie back to back, in hunk order, from the first offset on. */
  lemma StoredBackToBack(m: Source, k: nat)
    requires m.par.Valid() && Stored(EntryOf(m, k))
    ensures EntryOf(m, k).offset == (m.par.firstoffs + StoredBytes(m, k)) % TWO64
  {
    hide Field, Types, Fields;
    OffsetSoFar(m, k);
  }

  /** The target of the last reference of a kind among the first n hunks. */
  function LastTarget(m: Source, kind: nat, n: nat): nat
    requires m.par.unitbytes > 0
  {
    if n == 0 then 0
    else if EntryOf(m, n - 1).kind == kind then EntryOf(m, n - 1).offset
    else LastTarget(m, kind, n - 1)
  }

  lemma {:induction false} LastTargets(m: Source, n: nat)
    requires m.par.unitbytes > 0
    ensures Fields(m, n).lastSelf == LastTarget(m, SELF, n)
    ensures Fields(m, n).lastParent == LastTarget(m, PARENT, n)
  {
    hide Field, Types;
    if n > 0 {
      LastTargets(m, n - 1);
    }
  }

  /** The short reference codes: the target before again, the one after it, or the hunk's own place. */
  lemma ShortReferences(m: Source, k: nat)
    requires m.par.unitbytes > 0
    ensures var e, kind := EntryOf(m, k), Kind(m, k);
            && (kind == SELF_0 ==> e.kind == SELF && e.offset == LastTarget(m, SELF, k))
            && (kind == SELF_1 ==> e.kind == SELF && e.offset == (LastTarget(m, SELF, k) + 1) % TWO32)
            && (kind == PARENT_0 ==> e.kind == PARENT && e.offset == LastTarget(m, PARENT, k))
            && (kind == PARENT_1 ==>
                  e.kind == PARENT
                  && e.offset == (LastTarget(m, PARENT, k) + m.par.hunkbytes / m.par.unitbytes) % TWO64)
            && (kind == PARENT_SELF ==> e.kind == PARENT && e.offset == ParentUnit(m.par, k))
  {
    hide Field, Types, Fields, ParentUnit;
    LastTargets(m, k);
  }
}
