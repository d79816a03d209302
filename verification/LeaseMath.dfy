/**
 Window arithmetic of the distributed rate limiter: which window a request falls in, how
 many tokens that window may grant fleet-wide, how many a replica leases at once, how long
 the shared counter lives and when the next window starts.

 Machine integers are written out: an unchecked `u64` operation is taken modulo 2^64, as a
 release build computes it, and each lemma says exactly when the result is the intended one.
 */
module LeaseMath {

  const U32_RANGE: nat := 0x1_0000_0000
  const U64_RANGE: nat := 0x1_0000_0000_0000_0000

  type u32 = n: nat | n < U32_RANGE
  type u64 = n: nat | n < U64_RANGE

  function Max(a: nat, b: nat): nat { if a < b then b else a }
  function Min(a: nat, b: nat): nat { if a < b then a else b }

  /** The fleet-global rate one key is held to. */
  datatype Quota = Quota(rps: u32, burst: u32, leaseMs: u64)

  /** Everything `check` derives from the quota and the clock before it touches a cell. */
  datatype RawPlan = RawPlan(leaseMs: u64, window: u64, budget: u64, want: u64, ttlMs: u64)

  type Plan = p: RawPlan | 1 <= p.leaseMs && 1 <= p.want <= p.budget witness RawPlan(1, 0, 1, 1, 1001)

  datatype Decision = Allow | Throttle(retryAfterMs: nat)

  function WindowBudget(rps: u32, leaseMs: u64): u64
  {
    Max((rps * leaseMs % U64_RANGE + 999) / 1000, 1)
  }

  function Chunk(burst: u32, budget: u64): u64
  {
    Min(Max(burst, 1), budget)
  }

  function TtlMs(leaseMs: u64): u64
  {
    Max(Min(leaseMs * 2, U64_RANGE - 1), (leaseMs + 1000) % U64_RANGE)
  }

  function UntilNextWindow(now: u64, leaseMs: u64): nat
    requires leaseMs > 0
  {
    leaseMs - now % leaseMs
  }

  function MakePlan(quota: Quota, now: u64): Plan
  {
    var leaseMs: u64 := Max(quota.leaseMs, 1);
    var window: u64 := now / leaseMs;
    WindowContains(now, leaseMs);
    var budget := WindowBudget(quota.rps, leaseMs);
    RawPlan(leaseMs, window, budget, Chunk(quota.burst, budget), TtlMs(leaseMs))
  }

  /**
   The window a request is charged to contains the instant its replica read, and a chunk is the most
   that neither the burst nor the budget forbids.
   */
  lemma PlanCoversNow(quota: Quota, now: u64)
    ensures var p := MakePlan(quota, now);
            && p.leaseMs == Max(quota.leaseMs, 1)
            && p.window * p.leaseMs <= now < (p.window + 1) * p.leaseMs
            && p.want <= Max(quota.burst, 1) && p.want <= p.budget
            && (p.want == Max(quota.burst, 1) || p.want == p.budget)
  {
    WindowContains(now, Max(quota.leaseMs, 1));
  }

  lemma MulMonotone(a: nat, b: nat, c: nat)
    requires a <= b
    ensures a * c <= b * c
  {
  }

  lemma WindowContains(now: nat, leaseMs: nat)
    requires leaseMs > 0
    ensures now / leaseMs * leaseMs <= now < (now / leaseMs + 1) * leaseMs
    ensures now / leaseMs <= now
  {
    var w := now / leaseMs;
    assert now == leaseMs * w + now % leaseMs;
    assert (w + 1) * leaseMs == leaseMs * w + leaseMs;
    MulMonotone(1, leaseMs, w);
  }

  /** A window number is determined by the interval that contains the instant. */
  lemma WindowIsUnique(t: nat, leaseMs: nat, w: nat)
    requires leaseMs > 0 && w * leaseMs <= t < (w + 1) * leaseMs
    ensures t / leaseMs == w
  {
    WindowContains(t, leaseMs);
    var v := t / leaseMs;
    if v < w {
      MulMonotone(v + 1, w, leaseMs);
    } else if w < v {
      MulMonotone(w + 1, v, leaseMs);
    }
  }

  /** `b` is `ceil(product / 1000)`, raised to 1: the least positive count covering the product. */
  predicate IsWindowBudget(b: nat, product: nat)
  {
    1 <= b && product <= 1000 * b && (b == 1 || 1000 * (b - 1) < product)
  }

  /**
   The budget is the promised ceiling exactly when `rps * lease_ms` fits in 64 bits. One
   window's budget then exceeds the configured rate by less than one token.
   */
  lemma BudgetIsCeilingIffNoOverflow(rps: u32, leaseMs: u64)
    ensures IsWindowBudget(WindowBudget(rps, leaseMs), rps * leaseMs) <==> rps * leaseMs < U64_RANGE
    ensures 0 < rps * leaseMs < U64_RANGE ==> 1000 * WindowBudget(rps, leaseMs) < rps * leaseMs + 1000
  {
    var product := rps * leaseMs;
    var wrapped := product % U64_RANGE;
    assert wrapped < U64_RANGE;
    assert product < U64_RANGE ==> wrapped == product;
  }

  /** The counter outlives its window by `max(lease_ms, 1000)` exactly when doubling fits in 64 bits, else it saturates. */
  lemma TtlIsExactIffNoOverflow(leaseMs: u64)
    ensures TtlMs(leaseMs) == leaseMs + Max(leaseMs, 1000) <==> 2 * leaseMs < U64_RANGE
    ensures 2 * leaseMs >= U64_RANGE ==> TtlMs(leaseMs) == U64_RANGE - 1
  {
  }

  lemma NextWindowStart(now: nat, leaseMs: nat)
    requires leaseMs > 0
    ensures now + (leaseMs - now % leaseMs) == (now / leaseMs + 1) * leaseMs
  {
    var w := now / leaseMs;
    assert now == leaseMs * w + now % leaseMs;
    assert (w + 1) * leaseMs == leaseMs * w + leaseMs;
  }

  /** Waiting out `retry_after` lands exactly on the first instant of the next window. */
  lemma RetryLandsOnNextWindow(now: u64, leaseMs: u64)
    requires leaseMs > 0
    ensures now + UntilNextWindow(now, leaseMs) == (now / leaseMs + 1) * leaseMs
    ensures (now + UntilNextWindow(now, leaseMs)) / leaseMs == now / leaseMs + 1
    ensures forall t :: now <= t < now + UntilNextWindow(now, leaseMs) ==> t / leaseMs == now / leaseMs
  {
    NextWindowStart(now, leaseMs);
    WindowContains(now, leaseMs);
    var w, next := now / leaseMs, now + UntilNextWindow(now, leaseMs);
    MulSucc(w + 1, leaseMs);
    WindowIsUnique(next, leaseMs, w + 1);
    forall t | now <= t < next ensures t / leaseMs == w {
      WindowIsUnique(t, leaseMs, w);
    }
  }

  lemma MulSucc(a: nat, c: nat)
    ensures (a + 1) * c == a * c + c
  {
  }

  lemma MulAdd(a: nat, b: nat, c: nat)
    ensures (a + b) * c == a * c + b * c
  {
  }

  lemma DivMonotone(a: nat, b: nat, d: nat)
    requires a <= b && d > 0
    ensures a / d <= b / d
  {
    WindowContains(a, d);
    WindowContains(b, d);
  }
}
