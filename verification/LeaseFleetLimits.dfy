/**
 The tolerated skew and delay are exact: one millisecond beyond them, under every quota, some run
 overspends.
 */
module LeaseFleetLimits {
  import opened LeaseMath
  import opened LeaseCell
  import opened ClaimStore
  import opened Sums
  import opened LeaseFleet
  import opened LeaseFleetSafety
  import opened LeaseFleetTtl

  // ---------- Growing a run ----------

  function Last(t: Trace): State
    requires t.states != []
  {
    t.states[|t.states| - 1]
  }

  /** Every step of the run was taken under condition `p`. */
  ghost predicate Along(t: Trace, p: (State, Step) -> bool)
    requires |t.states| == |t.steps| + 1
  {
    forall k :: 0 <= k < |t.steps| ==> p(t.states[k], t.steps[k])
  }

  lemma TakeStep(t: Trace, step: Step, p: (State, Step) -> bool) returns (t': Trace)
    requires IsRun(t) && Along(t, p) && Enabled(Last(t), step) && p(Last(t), step)
    ensures IsRun(t') && Along(t', p) && Last(t') == Next(Last(t), step)
  {
    t' := Trace(t.states + [Next(Last(t), step)], t.steps + [step]);
    forall i | 0 <= i < |t'.steps| ensures Moves(t'.states[i], t'.steps[i], t'.states[i + 1]) {
      if i < |t.steps| {
        assert Moves(t.states[i], t.steps[i], t.states[i + 1]);
      }
    }
  }

  // ---------- The tolerated skew and delay are exact ----------

  /** Requests that all read `now` when the store's clock is at `start`. */
  datatype Scene = Scene(key: string, quota: Quota, plan: Plan, now: u64, start: nat) {
    function Slot(): Slot { ClaimStore.Slot(key, plan.window) }

    function Ask(phase: Phase): Request { Request(0, key, plan, now, start, phase) }

    function Asked(n: nat): seq<Request> { seq(n, _ => Ask(Decided(Allow))) }

    function CellWith(remaining: nat, guard: Guard): Cell { Cell(0, key, Lease(plan.window, remaining, false), guard) }
  }

  predicate CountIs(s: State, c: Scene, n: nat)
  {
    && Count(s.store, c.Slot()) == n <= c.plan.budget
    && (c.Slot() in s.store ==> s.store[c.Slot()].expireAt == c.start + c.plan.ttlMs)
  }

  /** One replica has admitted `n` requests and leases `remaining` tokens more. */
  predicate Ready(s: State, c: Scene, n: nat, remaining: nat)
  {
    && s.clock == c.start && s.reqs == c.Asked(n) && CountIs(s, c, n + remaining)
    && (if s.cells == [] then s.book == map[] && n == remaining == 0
        else s.cells == [c.CellWith(remaining, Free)] && s.book == map[(0, c.key) := 0])
  }

  /** The next request of the scene is in a cell that holds `remaining` tokens. */
  predicate Asking(s: State, c: Scene, n: nat, remaining: nat, guard: Guard, phase: Phase)
  {
    && s.clock == c.start && s.reqs == c.Asked(n) + [c.Ask(phase)]
    && s.cells == [c.CellWith(remaining, guard)] && s.book == map[(0, c.key) := 0]
  }

  lemma AskOne(s: State, c: Scene, n: nat, remaining: nat)
    requires Ready(s, c, n, remaining) && c.plan == MakePlan(c.quota, c.now)
    ensures Asking(Next(s, Arrive(0, c.key, c.quota, c.now)), c, n, remaining, Free, Queued)
    ensures CountIs(Next(s, Arrive(0, c.key, c.quota, c.now)), c, n + remaining)
  {
  }

  /** A leased token answers at once. */
  lemma AnswerLocally(s: State, c: Scene, n: nat, remaining: nat)
    requires Asking(s, c, n, remaining, Free, Queued) && CountIs(s, c, n + remaining) && remaining > 0
    ensures Enabled(s, Acquire(n)) && Ready(Next(s, Acquire(n)), c, n + 1, remaining - 1)
  {
    assert c.Asked(n + 1) == (c.Asked(n) + [c.Ask(Queued)])[n := c.Ask(Decided(Allow))];
  }

  lemma SendClaim(s: State, c: Scene, n: nat)
    requires Asking(s, c, n, 0, Free, Queued)
    ensures Enabled(s, Acquire(n)) && Asking(Next(s, Acquire(n)), c, n, 0, Sent(n), Working)
    ensures Next(s, Acquire(n)).store == s.store
  {
    assert c.Asked(n) + [c.Ask(Working)] == (c.Asked(n) + [c.Ask(Queued)])[n := c.Ask(Working)];
  }

  lemma RunClaim(s: State, c: Scene, n: nat) returns (grant: nat)
    requires Asking(s, c, n, 0, Sent(n), Working) && CountIs(s, c, n) && n < c.plan.budget
    ensures 0 < grant && Enabled(s, Execute(n)) && Asking(Next(s, Execute(n)), c, n, 0, Replied(n, grant), Working)
    ensures CountIs(Next(s, Execute(n)), c, n + grant)
  {
    grant := Claim(s.store, c.Slot(), c.plan, s.clock).1;
    assert s.reqs[n] == c.Ask(Working) && s.reqs[n].Slot() == c.Slot();
  }

  lemma TakeGrant(s: State, c: Scene, n: nat, grant: nat)
    requires Asking(s, c, n, 0, Replied(n, grant), Working) && CountIs(s, c, n + grant) && grant > 0
    ensures Enabled(s, Deliver(n)) && Ready(Next(s, Deliver(n)), c, n + 1, grant - 1)
  {
    assert c.Asked(n + 1) == (c.Asked(n) + [c.Ask(Working)])[n := c.Ask(Decided(Allow))];
  }

  /** Claims execute within `delay` of their request. */
  function Prompted(key: string, delay: nat): (State, Step) -> bool
  {
    (s: State, step: Step) => Prompt(s, step, key, delay)
  }

  lemma ServeOne(t: Trace, c: Scene, delay: nat, n: nat, remaining: nat) returns (t': Trace, left: nat)
    requires IsRun(t) && Along(t, Prompted(c.key, delay)) && Ready(Last(t), c, n, remaining)
    requires c.plan == MakePlan(c.quota, c.now) && n < c.plan.budget
    ensures IsRun(t') && Along(t', Prompted(c.key, delay)) && Ready(Last(t'), c, n + 1, left)
  {
    AskOne(Last(t), c, n, remaining);
    var t1 := TakeStep(t, Arrive(0, c.key, c.quota, c.now), Prompted(c.key, delay));
    if remaining > 0 {
      AnswerLocally(Last(t1), c, n, remaining);
      t' := TakeStep(t1, Acquire(n), Prompted(c.key, delay));
      left := remaining - 1;
    } else {
      t', left := ServeByClaim(t1, c, delay, n);
    }
  }

  lemma ServeByClaim(t: Trace, c: Scene, delay: nat, n: nat) returns (t': Trace, left: nat)
    requires IsRun(t) && Along(t, Prompted(c.key, delay))
    requires Asking(Last(t), c, n, 0, Free, Queued) && CountIs(Last(t), c, n) && n < c.plan.budget
    ensures IsRun(t') && Along(t', Prompted(c.key, delay)) && Ready(Last(t'), c, n + 1, left)
  {
    SendClaim(Last(t), c, n);
    var t1 := TakeStep(t, Acquire(n), Prompted(c.key, delay));
    var grant := RunClaim(Last(t1), c, n);
    assert Last(t1).reqs[n].arrived == Last(t1).clock;
    var t2 := TakeStep(t1, Execute(n), Prompted(c.key, delay));
    TakeGrant(Last(t2), c, n, grant);
    t' := TakeStep(t2, Deliver(n), Prompted(c.key, delay));
    left := grant - 1;
  }

  lemma {:induction false} ServeMany(c: Scene, delay: nat, n: nat) returns (t: Trace, left: nat)
    requires c.plan == MakePlan(c.quota, c.now) && n <= c.plan.budget
    ensures IsRun(t) && Along(t, Prompted(c.key, delay)) && Ready(Last(t), c, n, left)
  {
    if n == 0 {
      t := TakeStep(Trace([Initial], []), Tick(c.start), Prompted(c.key, delay));
      left := 0;
    } else {
      var t0, left0 := ServeMany(c, delay, n - 1);
      t, left := ServeOne(t0, c, delay, n - 1, left0);
    }
  }

  lemma {:induction false} AskedAreAdmitted(c: Scene, n: nat)
    ensures SumOf(c.Asked(n), AdmittedOn(c.Slot())) == n
  {
    if n > 0 {
      AskedAreAdmitted(c, n - 1);
      assert c.Asked(n) == c.Asked(n - 1) + [c.Ask(Decided(Allow))];
      SumOfAppend(c.Asked(n - 1), c.Ask(Decided(Allow)), AdmittedOn(c.Slot()));
    }
  }

  /** A request of the same window whose replica read `now` when the store's clock was at `arrived`. */
  predicate Late(s: State, c: Scene, now: u64, arrived: nat, clock: nat, guard: Guard, phase: Phase)
  {
    && s.clock == clock && s.reqs == c.Asked(c.plan.budget) + [Request(0, c.key, c.plan, now, arrived, phase)]
    && s.cells == [c.CellWith(0, guard)]
    && c.Slot() in s.store && (phase.Queued? || guard.Sent? ==> s.store[c.Slot()].expireAt == c.start + c.plan.ttlMs)
  }

  lemma LateAsks(s: State, c: Scene, now: u64, wait: nat)
    requires Ready(s, c, c.plan.budget, 0) && c.plan == MakePlan(c.quota, now)
    ensures Late(Next(Next(s, Tick(wait)), Arrive(0, c.key, c.quota, now)), c, now, c.start + wait, c.start + wait, Free, Queued)
  {
    assert Count(s.store, c.Slot()) > 0;
  }

  lemma LateClaims(s: State, c: Scene, now: u64, arrived: nat, delay: nat)
    requires Late(s, c, now, arrived, arrived, Free, Queued)
    ensures var r := c.plan.budget;
            && Enabled(s, Acquire(r))
            && Late(Next(Next(s, Acquire(r)), Tick(delay)), c, now, arrived, arrived + delay, Sent(r), Working)
  {
    var r := c.plan.budget;
    var request := Request(0, c.key, c.plan, now, arrived, Queued);
    assert s.reqs[r := request.(phase := Working)] == c.Asked(r) + [request.(phase := Working)];
  }

  lemma LateIsGranted(s: State, c: Scene, now: u64, arrived: nat, clock: nat) returns (grant: nat)
    requires Late(s, c, now, arrived, clock, Sent(c.plan.budget), Working) && c.start + c.plan.ttlMs < clock
    ensures 0 < grant && Enabled(s, Execute(c.plan.budget))
    ensures Late(Next(s, Execute(c.plan.budget)), c, now, arrived, clock, Replied(c.plan.budget, grant), Working)
  {
    grant := Claim(s.store, c.Slot(), c.plan, s.clock).1;
    assert s.reqs[c.plan.budget].Slot() == c.Slot();
  }

  lemma LateIsAdmitted(s: State, c: Scene, now: u64, arrived: nat, clock: nat, grant: nat)
    requires Late(s, c, now, arrived, clock, Replied(c.plan.budget, grant), Working) && grant > 0
    ensures Enabled(s, Deliver(c.plan.budget))
    ensures Next(s, Deliver(c.plan.budget)).reqs
            == c.Asked(c.plan.budget) + [Request(0, c.key, c.plan, now, arrived, Decided(Allow))]
  {
  }

  lemma SendLateClaim(t: Trace, c: Scene, now: u64, wait: nat, delay: nat) returns (t': Trace)
    requires IsRun(t) && Along(t, Prompted(c.key, delay)) && Ready(Last(t), c, c.plan.budget, 0)
    requires c.plan == MakePlan(c.quota, now)
    ensures IsRun(t') && Along(t', Prompted(c.key, delay))
    ensures Late(Last(t'), c, now, c.start + wait, c.start + wait + delay, Sent(c.plan.budget), Working)
  {
    var p := Prompted(c.key, delay);
    LateAsks(Last(t), c, now, wait);
    var t1 := TakeStep(t, Tick(wait), p);
    var t2 := TakeStep(t1, Arrive(0, c.key, c.quota, now), p);
    LateClaims(Last(t2), c, now, c.start + wait, delay);
    var t3 := TakeStep(t2, Acquire(c.plan.budget), p);
    t' := TakeStep(t3, Tick(delay), p);
  }

  /** The late request's steps, once the scene has spent the budget. */
  lemma Overspend(t: Trace, c: Scene, now: u64, wait: nat, delay: nat) returns (t': Trace)
    requires IsRun(t) && Along(t, Prompted(c.key, delay)) && Ready(Last(t), c, c.plan.budget, 0)
    requires c.plan == MakePlan(c.quota, now) && c.plan.ttlMs < wait + delay
    ensures IsRun(t') && Along(t', Prompted(c.key, delay))
    ensures Last(t').reqs == c.Asked(c.plan.budget) + [Request(0, c.key, c.plan, now, c.start + wait, Decided(Allow))]
  {
    var r, arrived := c.plan.budget, c.start + wait;
    var t1 := SendLateClaim(t, c, now, wait, delay);
    var grant := LateIsGranted(Last(t1), c, now, arrived, arrived + delay);
    assert Last(t1).reqs[r].arrived == arrived;
    var t2 := TakeStep(t1, Execute(r), Prompted(c.key, delay));
    LateIsAdmitted(Last(t2), c, now, arrived, arrived + delay, grant);
    t' := TakeStep(t2, Deliver(r), Prompted(c.key, delay));
  }

  /**
   The tolerance is exact: under every quota, whenever skew and delay exceed it and the window is not
   at either end of the clock's range, some run within that skew and delay admits one request more
   than the budget.
   */
  lemma SkewBoundIsExact(key: string, window: u64, quota: Quota, skew: nat, delay: nat) returns (t: Trace)
    requires !Tolerated(quota, skew, delay)
    requires skew <= window * Max(quota.leaseMs, 1) && (window + 1) * Max(quota.leaseMs, 1) <= U64_RANGE
    ensures IsRun(t) && WithinSkew(Last(t), key, quota, skew) && Along(t, Prompted(key, delay))
    ensures Admitted(Last(t), Slot(key, window)) == WindowBudget(quota.rps, Max(quota.leaseMs, 1)) + 1
  {
    var leaseMs := Max(quota.leaseMs, 1);
    var first, last := window * leaseMs, (window + 1) * leaseMs - 1;
    MulSucc(window, leaseMs);
    WindowIsUnique(first, leaseMs, window);
    WindowIsUnique(last, leaseMs, window);
    var plan := MakePlan(quota, first);
    assert plan == MakePlan(quota, last);
    var c := Scene(key, quota, plan, first, first - skew);
    var t0, left := ServeMany(c, delay, plan.budget);
    var wait := last + skew - c.start;
    t := Overspend(t0, c, last, wait, delay);
    AskedAreAdmitted(c, plan.budget);
    SumOfAppend(c.Asked(plan.budget), Request(0, key, plan, last, c.start + wait, Decided(Allow)), AdmittedOn(c.Slot()));
  }
}
