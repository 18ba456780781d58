/** Fault classes of a provider's outcome (`proto/messages.rs`), the classification of a
    reported failure and the job-consensus test (`trust/antiabuse.rs`). */
module Verdicts {
  import opened Numbers
  import opened Text

  datatype Verdict = Correct | Incorrect | Timeout | Malformed | ResourceExceeded | Infeasible | Inconclusive

  predicate IsProviderFault(v: Verdict) { v.Incorrect? || v.Timeout? || v.Malformed? }

  const RESOURCE_PATTERNS := [
    "out of memory", "could not allocate", "memory limit", "failed to allocate", "exceeds the memory limit",
    "resource exhaust", "too large", "disk quota", "no space left", "cap deadline exceeded"]

  const INFEASIBLE_PATTERNS := [
    "syntax error", "parser error", "binder error", "catalog error", "does not exist", "no such", "not found",
    "referenced table", "referenced column", "type mismatch", "conversion error", "permission", "no files found"]

  predicate Mentions(message: string, patterns: seq<string>) { exists p | p in patterns :: Contains(message, p) }

  /** An error message is never, by itself, evidence against the provider. */
  function Classify(message: string): (v: Verdict)
    ensures !IsProviderFault(v) && !v.Correct?
    ensures v.ResourceExceeded? <==> Mentions(AsciiLower(message), RESOURCE_PATTERNS)
    ensures v.Infeasible?
       <==> Mentions(AsciiLower(message), INFEASIBLE_PATTERNS) && !Mentions(AsciiLower(message), RESOURCE_PATTERNS)
  {
    var m := AsciiLower(message);
    if Mentions(m, RESOURCE_PATTERNS) then ResourceExceeded
    else if Mentions(m, INFEASIBLE_PATTERNS) then Infeasible
    else Inconclusive
  }

  function Clamp01(x: real): real { if x < 0.0 then 0.0 else if x > 1.0 then 1.0 else x }

  /** Whether `same` of the `selected` providers failing alike is the job's fault. */
  predicate JobConsensus(same: nat, selected: nat, fraction: real) {
    selected >= 2 && same >= 2 && same >= CeilReal(Clamp01(fraction) * selected as real)
  }
}
