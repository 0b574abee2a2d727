/** Sums over sequences, for counting what threads have still to do. */
module Sums {

  function Sum(s: seq<int>): int {
    if s == [] then 0 else Sum(s[..|s| - 1]) + s[|s| - 1]
  }

  lemma {:induction false} SumSet(s: seq<int>, i: nat, v: int)
    requires i < |s|
    ensures Sum(s[i := v]) == Sum(s) - s[i] + v
  {
    var last := |s| - 1;
    if i == last {
      assert s[i := v][..last] == s[..last];
    } else {
      SumSet(s[..last], i, v);
      assert s[i := v][..last] == s[..last][i := v];
    }
  }

  /** If no element grows by more than d, the sum grows by at most d for each element. */
  lemma {:induction false} SumRaise(s: seq<int>, s': seq<int>, d: nat)
    requires |s| == |s'| && forall i :: 0 <= i < |s| ==> s'[i] <= s[i] + d
    ensures Sum(s') <= Sum(s) + d * |s|
  {
    if s != [] {
      var last := |s| - 1;
      SumRaise(s[..last], s'[..last], d);
      assert d * |s| == d * last + d;
    }
  }

  lemma {:induction false} SumBounds(s: seq<int>, d: nat)
    requires forall i :: 0 <= i < |s| ==> 0 <= s[i] <= d
    ensures 0 <= Sum(s) <= d * |s|
  {
    if s != [] {
      var last := |s| - 1;
      SumBounds(s[..last], d);
      assert d * |s| == d * last + d;
    }
  }
}
