/**
 When a counter can expire between two claims, and when it cannot. The expiry is refreshed by
 granting claims only, so the guarantee is counted from the first grant.
 */
module LeaseFleetTtl {
  import opened LeaseMath
  import opened ClaimStore
  import opened LeaseFleet
  import opened LeaseFleetSafety

  predicate TtlAtLeast(s: State, slot: Slot, ttl: nat)
  {
    forall r :: 0 <= r < |s.reqs| && s.reqs[r].Slot() == slot ==> ttl <= s.reqs[r].plan.ttlMs
  }

  /** A claim executed now is within `ttl` of the slot's first grant, if there was one. */
  predicate Timely(s: State, step: Step, slot: Slot, ttl: nat)
  {
    var first := Log(s.history, slot).openedAt;
    ClaimsOn(s, step, slot) && first.Some? ==> s.clock <= first.value + ttl
  }

  /** The counter was never found expired, and will last at least `ttl` from the first grant. */
  predicate Lasts(s: State, slot: Slot, ttl: nat)
  {
    var l := Log(s.history, slot);
    && l.resets == 0
    && (slot in s.store <==> l.openedAt.Some?)
    && (l.openedAt.Some? ==> l.openedAt.value + ttl <= s.store[slot].expireAt && l.openedAt.value <= s.clock)
  }

  lemma StepLasts(s: State, step: Step, slot: Slot, ttl: nat)
    requires Enabled(s, step) && Lasts(s, slot, ttl) && TtlAtLeast(s, slot, ttl) && Timely(s, step, slot, ttl)
    ensures Lasts(Next(s, step), slot, ttl)
  {
    StepOnSlot(s, step, slot);
    assert Claims(s.history, slot).openedAt == Log(s.history, slot).openedAt;
    assert Claims(Next(s, step).history, slot).openedAt == Log(Next(s, step).history, slot).openedAt;
  }

  /** Requests only ever gain company: what holds of them all at the end held throughout. */
  lemma {:induction false} RequestsPersistAlong(t: Trace, i: nat, j: nat)
    requires IsRun(t) && i <= j < |t.states|
    ensures |t.states[i].reqs| <= |t.states[j].reqs|
    ensures forall r :: 0 <= r < |t.states[i].reqs| ==>
              t.states[i].reqs[r] == t.states[j].reqs[r].(phase := t.states[i].reqs[r].phase)
  {
    if i < j {
      RequestsPersistAlong(t, i, j - 1);
      assert Moves(t.states[j - 1], t.steps[j - 1], t.states[j]);
      RequestsPersist(t.states[j - 1], t.steps[j - 1]);
    }
  }

  lemma TtlHeldThroughout(t: Trace, i: nat, j: nat, slot: Slot, ttl: nat)
    requires IsRun(t) && i <= j < |t.states| && TtlAtLeast(t.states[j], slot, ttl)
    ensures TtlAtLeast(t.states[i], slot, ttl)
  {
    RequestsPersistAlong(t, i, j);
    forall r | 0 <= r < |t.states[i].reqs| && t.states[i].reqs[r].Slot() == slot
      ensures ttl <= t.states[i].reqs[r].plan.ttlMs
    {
      assert t.states[j].reqs[r].Slot() == slot;
    }
  }

  /**
   If every claim on a slot reaches the store within the counter's lifetime of the slot's first
   grant, no claim finds the counter expired, although zero grants never refresh the expiry.
   */
  lemma {:induction false} TimelyClaimsFindTheCounter(t: Trace, i: nat, slot: Slot, ttl: nat)
    requires IsRun(t) && i < |t.states| && TtlAtLeast(t.states[i], slot, ttl)
    requires forall k :: 0 <= k < i ==> Timely(t.states[k], t.steps[k], slot, ttl)
    ensures Lasts(t.states[i], slot, ttl)
  {
    if i > 0 {
      TtlHeldThroughout(t, i - 1, i, slot, ttl);
      TimelyClaimsFindTheCounter(t, i - 1, slot, ttl);
      assert Moves(t.states[i - 1], t.steps[i - 1], t.states[i]);
      assert Timely(t.states[i - 1], t.steps[i - 1], slot, ttl);
      StepLasts(t.states[i - 1], t.steps[i - 1], slot, ttl);
    }
  }

  /** The tokens a claim executed now would be granted. */
  function GrantNow(s: State, step: Step, slot: Slot): nat
    requires ClaimsOn(s, step, slot)
  {
    Claim(s.store, slot, s.reqs[step.req].plan, s.clock).1
  }

  lemma StepExpiry(t: Trace, k: nat, slot: Slot)
    requires IsRun(t) && k < |t.steps|
    ensures var s, step, s' := t.states[k], t.steps[k], t.states[k + 1];
            && (ClaimsOn(s, step, slot) && GrantNow(s, step, slot) > 0 ==>
                  slot in s'.store && s'.store[slot].expireAt == s.clock + s.reqs[step.req].plan.ttlMs)
            && (slot in s.store && (ClaimsOn(s, step, slot) ==> GrantNow(s, step, slot) == 0) ==>
                  slot in s'.store && s'.store[slot] == s.store[slot])
  {
    assert Moves(t.states[k], t.steps[k], t.states[k + 1]);
    StepOnSlot(t.states[k], t.steps[k], slot);
  }

  /** This step grants no token of `slot`. */
  predicate GrantsNothing(s: State, step: Step, slot: Slot)
  {
    ClaimsOn(s, step, slot) ==> GrantNow(s, step, slot) == 0
  }

  lemma {:induction false} CounterKept(t: Trace, i: nat, j: nat, slot: Slot)
    requires IsRun(t) && i <= j < |t.states| && slot in t.states[i].store
    requires forall m :: i <= m < j ==> GrantsNothing(t.states[m], t.steps[m], slot)
    ensures slot in t.states[j].store && t.states[j].store[slot] == t.states[i].store[slot]
    decreases j
  {
    if i < j {
      CounterKept(t, i, j - 1, slot);
      assert GrantsNothing(t.states[j - 1], t.steps[j - 1], slot);
      StepExpiry(t, j - 1, slot);
    }
  }

  /**
   Every grant gives the counter a whole new lifetime, and refusals leave it alone: until the next
   grant the counter is expired exactly if the lifetime of the latest grant has passed.
   */
  lemma LatestGrantCounts(t: Trace, k: nat, j: nat, slot: Slot)
    requires IsRun(t) && k < j < |t.states|
    requires ClaimsOn(t.states[k], t.steps[k], slot) && GrantNow(t.states[k], t.steps[k], slot) > 0
    requires forall m :: k < m < j ==> GrantsNothing(t.states[m], t.steps[m], slot)
    ensures Expired(t.states[j].store, slot, t.states[j].clock) <==>
            t.states[k].clock + t.states[k].reqs[t.steps[k].req].plan.ttlMs < t.states[j].clock
  {
    StepExpiry(t, k, slot);
    CounterKept(t, k + 1, j, slot);
  }

  // ---------- Clock skew ----------

  /** Every request on `key` uses `quota`, and its replica's clock was within `skew` of the store's. */
  predicate WithinSkew(s: State, key: string, quota: Quota, skew: nat)
  {
    forall r :: 0 <= r < |s.reqs| && s.reqs[r].key == key ==>
      && s.reqs[r].plan == MakePlan(quota, s.reqs[r].now)
      && s.reqs[r].now <= s.reqs[r].arrived + skew
      && s.reqs[r].arrived <= s.reqs[r].now + skew
  }

  /** A claim on `key` executed now belongs to a request that arrived at most `delay` ago. */
  predicate Prompt(s: State, step: Step, key: string, delay: nat)
  {
    step.Execute? && step.req < |s.reqs| && s.reqs[step.req].key == key ==>
      s.clock <= s.reqs[step.req].arrived + delay
  }

  /** No request arrived in the future, and no slot of `key` opened before its window, less the skew. */
  predicate Dated(s: State, slot: Slot, leaseMs: nat, skew: nat)
  {
    && (forall r :: 0 <= r < |s.reqs| ==> s.reqs[r].arrived <= s.clock)
    && var first := Log(s.history, slot).openedAt;
       first.Some? ==> slot.window * leaseMs <= first.value + skew
  }

  lemma StepDated(s: State, step: Step, slot: Slot, quota: Quota, skew: nat)
    requires Enabled(s, step) && WithinSkew(s, slot.key, quota, skew)
    requires Dated(s, slot, Max(quota.leaseMs, 1), skew)
    ensures Dated(Next(s, step), slot, Max(quota.leaseMs, 1), skew)
  {
    StepArrivals(s, step);
    StepOnSlot(s, step, slot);
    assert Claims(s.history, slot).openedAt == Log(s.history, slot).openedAt;
    assert Claims(Next(s, step).history, slot).openedAt == Log(Next(s, step).history, slot).openedAt;
    if ClaimsOn(s, step, slot) {
      PlanCoversNow(quota, s.reqs[step.req].now);
    }
  }

  lemma StepArrivals(s: State, step: Step)
    requires Enabled(s, step) && forall r :: 0 <= r < |s.reqs| ==> s.reqs[r].arrived <= s.clock
    ensures forall r :: 0 <= r < |Next(s, step).reqs| ==> Next(s, step).reqs[r].arrived <= Next(s, step).clock
  {
    RequestsPersist(s, step);
  }

  /** Twice the skew plus the delay is what the lifetime leaves beyond the window, or one more. */
  predicate Tolerated(quota: Quota, skew: nat, delay: nat)
  {
    var leaseMs: u64 := Max(quota.leaseMs, 1);
    leaseMs + 2 * skew + delay <= TtlMs(leaseMs) + 1
  }

  lemma SkewedClaimsAreTimely(s: State, step: Step, slot: Slot, quota: Quota, skew: nat, delay: nat)
    requires WithinSkew(s, slot.key, quota, skew) && Prompt(s, step, slot.key, delay)
    requires Dated(s, slot, Max(quota.leaseMs, 1), skew)
    requires Tolerated(quota, skew, delay)
    ensures Timely(s, step, slot, TtlMs(Max(quota.leaseMs, 1)))
  {
    if ClaimsOn(s, step, slot) {
      PlanCoversNow(quota, s.reqs[step.req].now);
      MulSucc(slot.window, Max(quota.leaseMs, 1));
    }
  }

  lemma SkewHeldThroughout(t: Trace, i: nat, j: nat, key: string, quota: Quota, skew: nat)
    requires IsRun(t) && i <= j < |t.states| && WithinSkew(t.states[j], key, quota, skew)
    ensures WithinSkew(t.states[i], key, quota, skew)
  {
    RequestsPersistAlong(t, i, j);
    forall r | 0 <= r < |t.states[i].reqs| && t.states[i].reqs[r].key == key
      ensures var req := t.states[i].reqs[r];
              req.plan == MakePlan(quota, req.now) && req.now <= req.arrived + skew && req.arrived <= req.now + skew
    {
      assert t.states[j].reqs[r].key == key;
    }
  }

  lemma {:induction false} RunDated(t: Trace, i: nat, slot: Slot, quota: Quota, skew: nat)
    requires IsRun(t) && i < |t.states| && WithinSkew(t.states[i], slot.key, quota, skew)
    ensures Dated(t.states[i], slot, Max(quota.leaseMs, 1), skew)
  {
    if i > 0 {
      SkewHeldThroughout(t, i - 1, i, slot.key, quota, skew);
      RunDated(t, i - 1, slot, quota, skew);
      assert Moves(t.states[i - 1], t.steps[i - 1], t.states[i]);
      StepDated(t.states[i - 1], t.steps[i - 1], slot, quota, skew);
    }
  }

  /**
   Budget safety under clock skew: if replica clocks stay within `skew` of the store's and every
   claim executes within `delay` of its request's arrival, then every window of the key stays within
   its budget, provided twice the skew plus the delay is tolerated: at most `max(lease_ms, 1000) + 1`
   unless the lifetime saturates.
   */
  lemma SafeUnderSkew(t: Trace, i: nat, slot: Slot, quota: Quota, skew: nat, delay: nat)
    requires IsRun(t) && i < |t.states| && WithinSkew(t.states[i], slot.key, quota, skew)
    requires forall k :: 0 <= k < i ==> Prompt(t.states[k], t.steps[k], slot.key, delay)
    requires Tolerated(quota, skew, delay)
    ensures Admitted(t.states[i], slot) <= WindowBudget(quota.rps, Max(quota.leaseMs, 1))
  {
    var leaseMs: u64 := Max(quota.leaseMs, 1);
    var ttl := TtlMs(leaseMs);
    forall k | 0 <= k < i ensures Timely(t.states[k], t.steps[k], slot, ttl) {
      SkewHeldThroughout(t, k, i, slot.key, quota, skew);
      RunDated(t, k, slot, quota, skew);
      SkewedClaimsAreTimely(t.states[k], t.steps[k], slot, quota, skew, delay);
    }
    assert TtlAtLeast(t.states[i], slot, ttl);
    TimelyClaimsFindTheCounter(t, i, slot, ttl);
    NeverOverspent(t, i, slot, WindowBudget(quota.rps, leaseMs));
  }
}
