/** The fleet seen from outside: how many requests any interval of time admits. */
module LeaseFleetRates {
  import opened LeaseMath
  import opened ClaimStore
  import opened Sums
  import opened LeaseFleet
  import opened LeaseFleetSafety
  import opened LeaseFleetTtl

  /** Admitted on `key` with a replica clock reading in `[from, to)`. */
  function AdmittedIn(key: string, from: nat, to: nat): Request -> nat
  {
    (req: Request) => if req.key == key && from <= req.now < to && req.phase == Decided(Allow) then 1 else 0
  }

  /** Admitted on `key` in the windows `[lo, hi)`. */
  function AdmittedWindows(key: string, lo: nat, hi: nat): Request -> nat
  {
    (req: Request) => if req.key == key && lo <= req.plan.window < hi && req.phase == Decided(Allow) then 1 else 0
  }

  /** If each term is at most `k` where `g` is 1 and zero where `g` is 0, the sum is at most `k` times `g`'s. */
  lemma {:induction false} SumOfScaled<T>(s: seq<T>, f: T -> nat, g: T -> nat, k: nat)
    requires forall i :: 0 <= i < |s| ==> g(s[i]) <= 1 && f(s[i]) <= k && (g(s[i]) == 0 ==> f(s[i]) == 0)
    ensures SumOf(s, f) <= SumOf(s, g) * k
  {
    if s != [] {
      var n := |s| - 1;
      assert forall i :: 0 <= i < n ==> s[..n][i] == s[i];
      SumOfScaled(s[..n], f, g, k);
      MulSucc(SumOf(s[..n], g), k);
    }
  }

  lemma {:induction false} WindowsAddUp(s: State, key: string, lo: nat, hi: nat, b: nat)
    requires lo <= hi
    requires forall v: u64 :: lo <= v < hi ==> Admitted(s, Slot(key, v)) <= b
    ensures SumOf(s.reqs, AdmittedWindows(key, lo, hi)) <= (hi - lo) * b
    decreases hi - lo
  {
    if lo == hi {
      SumOfScaled(s.reqs, AdmittedWindows(key, lo, hi), AdmittedWindows(key, lo, hi), 0);
    } else {
      WindowsAddUp(s, key, lo, hi - 1, b);
      MulSucc(hi - 1 - lo, b);
      if hi - 1 < U64_RANGE {
        SumOfPlus(s.reqs, AdmittedWindows(key, lo, hi - 1), AdmittedOn(Slot(key, hi - 1)), AdmittedWindows(key, lo, hi));
      } else {
        SumOfAtMost(s.reqs, AdmittedWindows(key, lo, hi), AdmittedWindows(key, lo, hi - 1));
      }
    }
  }

  lemma WindowsTouched(from: nat, length: nat, leaseMs: nat)
    requires leaseMs > 0 && length > 0
    ensures from / leaseMs <= (from + length - 1) / leaseMs
    ensures (from + length - 1) / leaseMs - from / leaseMs <= (length + leaseMs - 1) / leaseMs
  {
    var lo, hi, n := from / leaseMs, (from + length - 1) / leaseMs, (length + leaseMs - 1) / leaseMs;
    WindowContains(from, leaseMs);
    WindowContains(from + length - 1, leaseMs);
    WindowContains(length + leaseMs - 1, leaseMs);
    assert hi * leaseMs < (lo + 1) * leaseMs + (n + 1) * leaseMs - leaseMs;
    assert hi * leaseMs < (lo + n + 1) * leaseMs;
    if hi > lo + n {
      MulMonotone(lo + n + 1, hi, leaseMs);
    }
    if hi < lo {
      MulMonotone(hi + 1, lo, leaseMs);
    }
  }

  /**
   The rate bound: under the conditions of budget safety, requests whose replica clocks read an
   instant in any interval of the given length are admitted at most `ceil(length / lease_ms) + 1`
   budgets' worth of times.
   */
  lemma RateBound(t: Trace, i: nat, key: string, quota: Quota, skew: nat, delay: nat, from: nat, length: nat)
    requires IsRun(t) && i < |t.states| && WithinSkew(t.states[i], key, quota, skew)
    requires forall k :: 0 <= k < i ==> Prompt(t.states[k], t.steps[k], key, delay)
    requires Tolerated(quota, skew, delay)
    ensures var leaseMs: u64 := Max(quota.leaseMs, 1);
            SumOf(t.states[i].reqs, AdmittedIn(key, from, from + length))
            <= ((length + leaseMs - 1) / leaseMs + 1) * WindowBudget(quota.rps, leaseMs)
  {
    var leaseMs: u64 := Max(quota.leaseMs, 1);
    var lo, hi := WindowRange(from, length, leaseMs);
    IntervalInWindows(t.states[i], key, quota, skew, from, from + length, lo, hi);
    WindowsWithinBudget(t, i, key, quota, skew, delay, lo, hi);
    MulMonotone(hi - lo, (length + leaseMs - 1) / leaseMs + 1, WindowBudget(quota.rps, leaseMs));
  }

  lemma WindowsWithinBudget(t: Trace, i: nat, key: string, quota: Quota, skew: nat, delay: nat, lo: nat, hi: nat)
    requires IsRun(t) && i < |t.states| && WithinSkew(t.states[i], key, quota, skew) && lo <= hi
    requires forall k :: 0 <= k < i ==> Prompt(t.states[k], t.steps[k], key, delay)
    requires Tolerated(quota, skew, delay)
    ensures SumOf(t.states[i].reqs, AdmittedWindows(key, lo, hi))
            <= (hi - lo) * WindowBudget(quota.rps, Max(quota.leaseMs, 1))
  {
    var b := WindowBudget(quota.rps, Max(quota.leaseMs, 1));
    forall v: u64 | lo <= v < hi ensures Admitted(t.states[i], Slot(key, v)) <= b {
      SafeUnderSkew(t, i, Slot(key, v), quota, skew, delay);
    }
    WindowsAddUp(t.states[i], key, lo, hi, b);
  }

  /** The windows an interval touches. */
  lemma WindowRange(from: nat, length: nat, leaseMs: nat) returns (lo: nat, hi: nat)
    requires leaseMs > 0
    ensures lo <= hi && hi - lo <= (length + leaseMs - 1) / leaseMs + 1
    ensures lo * leaseMs <= from && from + length <= hi * leaseMs
  {
    if length == 0 {
      lo, hi := OwnWindow(from, leaseMs);
    } else {
      lo, hi := SpanRange(from, length, leaseMs);
    }
  }

  lemma OwnWindow(from: nat, leaseMs: nat) returns (lo: nat, hi: nat)
    requires leaseMs > 0
    ensures lo <= hi && hi - lo <= (leaseMs - 1) / leaseMs + 1 && lo * leaseMs <= from <= hi * leaseMs
  {
    lo, hi := from / leaseMs, from / leaseMs + 1;
    WindowContains(from, leaseMs);
    WindowContains(leaseMs - 1, leaseMs);
  }

  lemma SpanRange(from: nat, length: nat, leaseMs: nat) returns (lo: nat, hi: nat)
    requires leaseMs > 0 && length > 0
    ensures lo <= hi && hi - lo <= (length + leaseMs - 1) / leaseMs + 1
    ensures lo * leaseMs <= from && from + length <= hi * leaseMs
  {
    lo, hi := from / leaseMs, (from + length - 1) / leaseMs + 1;
    WindowsTouched(from, length, leaseMs);
    WindowContains(from, leaseMs);
    WindowContains(from + length - 1, leaseMs);
  }

  /** An interval inside the windows `[lo, hi)` admits no more than they do. */
  lemma IntervalInWindows(s: State, key: string, quota: Quota, skew: nat, from: nat, to: nat, lo: nat, hi: nat)
    requires WithinSkew(s, key, quota, skew)
    requires lo * Max(quota.leaseMs, 1) <= from && to <= hi * Max(quota.leaseMs, 1)
    ensures SumOf(s.reqs, AdmittedIn(key, from, to)) <= SumOf(s.reqs, AdmittedWindows(key, lo, hi))
  {
    var leaseMs := Max(quota.leaseMs, 1);
    var f, g := AdmittedIn(key, from, to), AdmittedWindows(key, lo, hi);
    forall r | 0 <= r < |s.reqs| ensures f(s.reqs[r]) <= g(s.reqs[r]) {
      var req := s.reqs[r];
      if req.key == key && from <= req.now < to {
        PlanCoversNow(quota, req.now);
        MulCancels(lo, req.plan.window + 1, leaseMs);
        MulCancels(req.plan.window, hi, leaseMs);
      }
    }
    SumOfAtMost(s.reqs, f, g);
  }

  lemma MulCancels(a: nat, b: nat, c: nat)
    requires a * c < b * c
    ensures a < b
  {
    if b <= a {
      MulMonotone(b, a, c);
    }
  }
}
