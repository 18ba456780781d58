/** Rounding shared by billing and by the job-consensus test. */
module Numbers {

  function CeilReal(x: real): int { if x.Floor as real == x then x.Floor else x.Floor + 1 }

  lemma CeilIsLeast(x: real, k: int)
    ensures CeilReal(x) <= k <==> x <= k as real
  {}
}
