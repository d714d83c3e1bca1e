/** The cancellation test a caller hands in. */
module Checks {

  /** `check` is the caller's cancellation test; `check(k)` is the outcome of its k-th call. */
  ghost predicate Passed(check: nat -> bool, calls: nat) { forall k: nat | k < calls :: check(k) }

  ghost predicate FailedAt(check: nat -> bool, calls: nat) {
    0 < calls && !check(calls - 1) && Passed(check, calls - 1)
  }

  method Check(check: nat -> bool, before: nat) returns (ok: bool, calls: nat)
    requires Passed(check, before)
    ensures calls == before + 1
    ensures if ok then Passed(check, calls) else FailedAt(check, calls)
  {
    calls := before + 1;
    ok := check(before);
  }
}
