/** Writing a plane: differences of neighbouring samples, runs of zeros as run codes; and reading it back. */
module DeltaRleWriter {
  import opened Bits
  import opened DeltaRle

  /** What the sixteen run codes stand for. */
  const RUNS: seq<nat> := [8, 9, 10, 11, 12, 13, 14, 15, 16, 32, 64, 128, 256, 512, 1024, 2048]

  lemma RunTable(i: nat)
    requires i < 16
    ensures RunLength(0x100 + i) == RUNS[i]
  {
    if i >= 8 {
      assert Shl(16, 1) == 32 && Shl(16, 2) == 64 && Shl(16, 3) == 128;
      assert Shl(16, 4) == 256 && Shl(16, 5) == 512 && Shl(16, 6) == 1024;
      assert Shl(16, 7) == 2048;
    }
  }

  /** The differences that codes stand for. */
  function Differences(codes: seq<nat>): seq<byte> {
    if codes == [] then [] else One(codes[0]) + Differences(codes[1..])
  }

  /** A byte stands for itself, a code of the table for a run of zeros. */
  function One(code: nat): seq<byte> {
    if code < 256 then [code] else if code < 272 then Zeros(RUNS[code - 256]) else []
  }

  lemma OneIs(code: nat)
    requires code < 272
    ensures One(code) == Deltas(code) && One(code) != []
  {
    if code >= 256 { RunTable(code - 256); }
  }

  predicate AllCodes(codes: seq<nat>) {
    forall i :: 0 <= i < |codes| ==> codes[i] < 272
  }

  lemma {:induction false} DifferencesConcat(a: seq<nat>, b: seq<nat>)
    ensures Differences(a + b) == Differences(a) + Differences(b)
  {
    hide One;
    if a == [] {
      assert a + b == b;
    } else {
      assert (a + b)[1..] == a[1..] + b;
      DifferencesConcat(a[1..], b);
    }
  }

  lemma {:induction false} ExpandIs(codes: seq<nat>)
    requires AllCodes(codes)
    ensures Expand(codes) == Differences(codes)
  {
    hide One, Deltas;
    if codes != [] {
      var n := |codes| - 1;
      ExpandIs(codes[..n]);
      OneIs(codes[n]);
      assert codes == codes[..n] + [codes[n]];
      DifferencesConcat(codes[..n], [codes[n]]);
      assert Differences([codes[n]]) == One(codes[n]) + Differences([]);
    }
  }

  // ---- the encoder

  /** The differences of samples, modulo 256. */
  function DeltasOf(prev: byte, samples: seq<byte>): (ds: seq<byte>)
    ensures |ds| == |samples|
    decreases |samples|
  {
    if samples == [] then [] else [(samples[0] - prev) % 256] + DeltasOf(samples[0], samples[1..])
  }

  /** Partial sums undo differences. */
  lemma {:induction false} SumsOfDeltas(prev: byte, samples: seq<byte>)
    ensures PrefixSums(prev, DeltasOf(prev, samples)) == samples
    decreases |samples|
  {
    hide PrefixSums, Total;
    if samples == [] {
      NoSums(prev);
    } else {
      var d: byte, rest := (samples[0] - prev) % 256, samples[1..];
      SumsOfDeltas(samples[0], rest);
      PrefixSumsConcat(prev, [d], DeltasOf(samples[0], rest));
      OneTotal(prev, d);
      DeltaBack(prev, samples[0]);
      assert samples == [samples[0]] + rest;
    }
  }

  lemma NoSums(prev: byte)
    ensures PrefixSums(prev, []) == []
  {
  }

  lemma DeltaBack(prev: byte, x: byte)
    ensures (prev + (x - prev) % 256) % 256 == x
  {
  }

  lemma OneTotal(prev: byte, d: byte)
    ensures Total(prev, [d]) == (prev + d) % 256 && PrefixSums(prev, [d]) == [(prev + d) % 256]
  {
    assert [d][..0] == [];
    assert Total(prev, []) == prev;
  }

  function LeadingZeros(ds: seq<byte>): (n: nat)
    ensures n <= |ds| && ds[..n] == Zeros(n)
  {
    if ds == [] || ds[0] != 0 then 0 else 1 + LeadingZeros(ds[1..])
  }

  /** The longest run code that n zeros fill. */
  function BestRun(n: nat, i: nat): (k: nat)
    requires i < 16 && RUNS[0] <= n
    ensures k <= i && RUNS[k] <= n
  {
    if i == 0 || RUNS[i] <= n then i else BestRun(n, i - 1)
  }

  /** Runs of eight and more zeros as run codes, all else as single differences. */
  function EncodeDeltas(ds: seq<byte>): (codes: seq<nat>)
    ensures AllCodes(codes)
    decreases |ds|
  {
    if ds == [] then []
    else
      var n := LeadingZeros(ds);
      if n < 8 then [ds[0]] + EncodeDeltas(ds[1..])
      else
        var k := BestRun(n, 15);
        [256 + k] + EncodeDeltas(ds[RUNS[k]..])
  }

  lemma DifferencesFirst(code: nat, rest: seq<nat>)
    ensures Differences([code] + rest) == One(code) + Differences(rest)
  {
    assert ([code] + rest)[1..] == rest;
  }

  lemma RunSplit(ds: seq<byte>, n: nat, r: nat)
    requires r <= n <= |ds| && ds[..n] == Zeros(n)
    ensures ds == Zeros(r) + ds[r..]
  {
    assert ds[..r] == ds[..n][..r];
  }

  /** Encoding differences loses none. */
  lemma {:induction false} EncodeExpands(ds: seq<byte>)
    ensures Differences(EncodeDeltas(ds)) == ds
    decreases |ds|
  {
    hide Differences, LeadingZeros, BestRun, Zeros;
    if ds == [] {
      assert Differences([]) == [] by { NoDifferences(); }
    } else {
      var n := LeadingZeros(ds);
      if n < 8 {
        EncodeExpands(ds[1..]);
        DifferencesFirst(ds[0], EncodeDeltas(ds[1..]));
        assert ds == [ds[0]] + ds[1..];
      } else {
        var k := BestRun(n, 15);
        EncodeExpands(ds[RUNS[k]..]);
        DifferencesFirst(256 + k, EncodeDeltas(ds[RUNS[k]..]));
        RunSplit(ds, n, RUNS[k]);
      }
    }
  }

  lemma NoDifferences()
    ensures Differences([]) == []
  {
  }

  /** A plane comes back from its codes, by the run codes' expansion and partial sums. */
  lemma PlaneRoundTrip(prev: byte, samples: seq<byte>)
    ensures PrefixSums(prev, Expand(EncodeDeltas(DeltasOf(prev, samples)))) == samples
  {
    var ds := DeltasOf(prev, samples);
    EncodeExpands(ds);
    ExpandIs(EncodeDeltas(ds));
    SumsOfDeltas(prev, samples);
  }
}
