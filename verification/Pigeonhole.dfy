/** Distinct numbers from a bounded range. */
module Pigeonhole {

  ghost function Range(lo: nat, hi: nat): (r: set<nat>)
    requires lo <= hi
    ensures |r| == hi - lo && forall x: nat :: x in r <==> lo <= x < hi
    decreases hi
  {
    if lo == hi then {} else Range(lo, hi - 1) + {hi - 1}
  }

  ghost predicate DistinctSeq(s: seq<nat>) {
    forall i, j :: 0 <= i < j < |s| ==> s[i] != s[j]
  }

  /** Pigeonhole: distinct members of a set are no more than the set has. */
  lemma {:induction false} DistinctBound(s: seq<nat>, r: set<nat>)
    requires DistinctSeq(s) && forall i :: 0 <= i < |s| ==> s[i] in r
    ensures |s| <= |r|
    decreases |s|
  {
    if s != [] {
      DistinctBound(s[1..], r - {s[0]});
    }
  }
}
