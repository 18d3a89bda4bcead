/** Cancellation, reduced to what the adapter and the orchestration observe:
    whether the context is done at each of their checks. */
module Contexts {
  import opened Wrappers

  /** Whether a context cancelled from its `cancelAt`-th check on is done at
      check number `k`. */
  predicate DoneAt(cancelAt: Option<nat>, k: nat) {
    cancelAt.Some? && k >= cancelAt.value
  }

  class Context {
    const cancelAt: Option<nat>
    var checks: nat

    constructor (cancelAt: Option<nat>)
      ensures this.cancelAt == cancelAt && checks == 0
    {
      this.cancelAt := cancelAt;
      checks := 0;
    }

    /** A non-blocking receive on ctx.Done(). */
    method Done() returns (done: bool)
      modifies this
      ensures checks == old(checks) + 1
      ensures done == DoneAt(cancelAt, old(checks))
    {
      done := DoneAt(cancelAt, checks);
      checks := checks + 1;
    }
  }
}
