/** Times that keep a least distance from one to the next. */
module Spacing {
  predicate Spaced(times: seq<nat>, gap: nat) {
    forall i :: 0 <= i < |times| - 1 ==> times[i] + gap <= times[i + 1]
  }

  lemma {:induction false} SpacedSpan(times: seq<nat>, gap: nat)
    requires Spaced(times, gap) && times != []
    ensures times[0] + (|times| - 1) * gap <= times[|times| - 1]
    decreases |times|
  {
    if |times| > 1 {
      var n := |times| - 1;
      SpacedSpan(times[..n], gap);
      assert times[..n][n - 1] == times[n - 1];
      assert times[n - 1] + gap <= times[n - 1 + 1];
      assert (n - 1) * gap + gap == n * gap;
    }
  }
}
