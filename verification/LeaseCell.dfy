/** One replica's local view of a key's lease, and the parts of `check` that run under its lock. */
module LeaseCell {
  import opened LeaseMath

  datatype Lease = Lease(window: u64, remaining: nat, exhausted: bool)

  /** A cell created for a key that has none. */
  function Blank(window: u64): Lease
  {
    Lease(window, 0, false)
  }

  /** Any other window, earlier ones included, resets the cell. */
  function Roll(lease: Lease, window: u64): Lease
  {
    if lease.window != window then Blank(window) else lease
  }

  /** Can the rolled cell answer without the backend? */
  predicate AnswersLocally(lease: Lease)
  {
    lease.remaining > 0 || lease.exhausted
  }

  /** The cell and the decision when it can. */
  function Spend(lease: Lease, now: u64, leaseMs: u64): (Lease, Decision)
    requires AnswersLocally(lease) && leaseMs > 0
  {
    if lease.remaining > 0 then (lease.(remaining := lease.remaining - 1), Allow)
    else (lease, Throttle(UntilNextWindow(now, leaseMs)))
  }

  /** The cell and the decision once the backend has granted `granted` tokens. */
  function Settle(lease: Lease, granted: nat, now: u64, leaseMs: u64): (Lease, Decision)
    requires leaseMs > 0
  {
    if granted == 0 then (lease.(exhausted := true), Throttle(UntilNextWindow(now, leaseMs)))
    else (lease.(remaining := granted - 1), Allow)
  }

  /** Does a prune at `now` with window length `leaseMs` keep this (unlocked) cell? */
  predicate SurvivesPrune(lease: Lease, now: u64, leaseMs: u64)
  {
    lease.window >= now / Max(leaseMs, 1)
  }
}
