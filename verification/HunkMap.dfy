/** The decoded hunk map as the map of an image. */
module HunkMap {
  import opened Bits
  import opened MapEntries
  import V5Map
  import V5MapLowRam

  /** The map as the decoder lays it out, one entry a hunk. */
  function MapOf(m: V5Map.Source, n: nat): (entries: seq<seq<byte>>)
    requires m.par.unitbytes > 0
    ensures |entries| == n && forall k :: 0 <= k < n ==> entries[k] == V5Map.EntryBytes(V5Map.EntryOf(m, k))
  {
    seq(n, k requires 0 <= k => V5Map.EntryBytes(V5Map.EntryOf(m, k)))
  }

  /** An entry without compression keeps the length of a hunk exactly when that fits 24 bits. */
  lemma NoneLengthIff(m: V5Map.Source, k: nat)
    requires m.par.unitbytes > 0 && V5Map.EntryOf(m, k).kind == V5Map.NONE
    ensures Length(V5Map.EntryBytes(V5Map.EntryOf(m, k))) == m.par.hunkbytes <==> m.par.hunkbytes < 0x100_0000
  {
    hide Number, V5Map.EntryBytes, V5Map.NextEntry, V5Map.Fields, V5Map.Kind;
    EntryRead(V5Map.EntryOf(m, k));
    NoneEntry(m.par, m.blob, k, V5Map.Kind(m, k), V5Map.Fields(m, k));
  }

  lemma NoneEntry(par: V5Map.Params, data: seq<byte>, hunk: nat, kind: nat, f: V5Map.FieldState)
    requires par.unitbytes > 0
    ensures var e := V5Map.NextEntry(par, data, hunk, kind, f).0; e.kind == V5Map.NONE ==> e.length == par.hunkbytes
  {
  }

  /** Entry k of the map in memory is entry k of the image: what the full decoder stored there, and what
      a lazy lookup returns. */
  lemma MapInMemory(m: V5Map.Source, n: nat, k: nat)
    requires m.par.unitbytes > 0 && k < n
    ensures V5Map.MapBytes(m, n)[12 * k..12 * k + 12] == MapOf(m, n)[k]
  {
    V5Map.MapBytesAt(m, n, k);
  }

  lemma KindKept(m: V5Map.Source, k: nat)
    requires m.Valid()
    ensures V5Map.EntryOf(m, k).kind < 256
  {
    hide V5Map.Types, V5Map.Fields, V5Map.Field;
    V5MapLowRam.TypesSmall(m, k + 1);
  }

  /** The entries a decoded map hands to the read path are the ones it relies on: an uncompressed one is
      never longer than a hunk. */
  lemma MapSuits(m: V5Map.Source, n: nat, k: nat)
    requires m.Valid() && k < n
    ensures |MapOf(m, n)[k]| == 12
    ensures Kind(MapOf(m, n)[k]) == V5Map.NONE ==> Length(MapOf(m, n)[k]) == m.par.hunkbytes % 0x100_0000
  {
    hide V5Map.EntryBytes, V5Map.NextEntry, V5Map.Fields, V5Map.Kind, Number;
    var e := V5Map.EntryOf(m, k);
    EntryRead(e);
    KindKept(m, k);
    NoneEntry(m.par, m.blob, k, V5Map.Kind(m, k), V5Map.Fields(m, k));
  }
}
