/** Strictly sorted key sequences, best key first: ascending for asks, descending for bids. */
module SortedKeys {

  predicate Before(desc: bool, a: real, b: real) { if desc then a > b else a < b }

  ghost predicate Sorted(desc: bool, ks: seq<real>) {
    forall i, j :: 0 <= i < j < |ks| ==> Before(desc, ks[i], ks[j])
  }

  /** How many leading keys come before k: where k is, or where it would be inserted. */
  function Rank(desc: bool, ks: seq<real>, k: real): (n: nat)
    ensures n <= |ks|
    ensures forall i :: 0 <= i < n ==> Before(desc, ks[i], k)
    ensures n < |ks| ==> !Before(desc, ks[n], k)
  {
    if ks == [] || !Before(desc, ks[0], k) then 0 else 1 + Rank(desc, ks[1..], k)
  }

  /** Any split into keys before k and keys not before k is the split at Rank. */
  lemma RankIsUnique(desc: bool, ks: seq<real>, k: real, n: nat)
    requires n <= |ks|
    requires forall i :: 0 <= i < n ==> Before(desc, ks[i], k)
    requires n < |ks| ==> !Before(desc, ks[n], k)
    ensures Rank(desc, ks, k) == n
  {
  }
}
