/** Slices of sequences. */
module Sequences {

  /** A slice of a slice. */
  lemma SliceSlice<T>(s: seq<T>, at: nat, m: nat, i: nat, n: nat)
    requires at + m <= |s| && i + n <= m
    ensures s[at..at + m][i..i + n] == s[at + i..at + i + n]
  {
    var u, v := s[at..at + m][i..i + n], s[at + i..at + i + n];
    forall k | 0 <= k < n ensures u[k] == v[k] {}
  }

  /** Neighbouring slices make up one. */
  lemma SliceJoin<T>(s: seq<T>, at: nat, m: nat, n: nat)
    requires at + m + n <= |s|
    ensures s[at..at + m + n] == s[at..at + m] + s[at + m..at + m + n]
  {
  }
}
