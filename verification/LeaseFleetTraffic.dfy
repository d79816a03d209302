/**
 Under one fixed quota a spent mark or a throttle is honest: the budget is spent, and every token of
 it can be accounted for.
 */
module LeaseFleetTraffic {
  import opened ClaimStore
  import opened Sums
  import opened LeaseFleet
  import opened LeaseFleetSafety
  import opened LeaseFleetTtl

  /** Every request on `slot` claims against budget `b` in chunks of `w`. */
  predicate Uniform(s: State, slot: Slot, b: nat, w: nat)
  {
    forall r :: 0 <= r < |s.reqs| && s.reqs[r].Slot() == slot ==>
      s.reqs[r].plan.budget == b && s.reqs[r].plan.want == w
  }

  lemma UniformHeldThroughout(t: Trace, i: nat, j: nat, slot: Slot, b: nat, w: nat)
    requires IsRun(t) && i <= j < |t.states| && Uniform(t.states[j], slot, b, w)
    ensures Uniform(t.states[i], slot, b, w)
  {
    RequestsPersistAlong(t, i, j);
    forall r | 0 <= r < |t.states[i].reqs| && t.states[i].reqs[r].Slot() == slot
      ensures t.states[i].reqs[r].plan.budget == b && t.states[i].reqs[r].plan.want == w
    {
      assert t.states[j].reqs[r].Slot() == slot;
    }
  }

  function Resets(s: State, slot: Slot): nat { Claims(s.history, slot).resets }

  predicate On(cell: Cell, slot: Slot)
  {
    Slot(cell.key, cell.lease.window) == slot
  }

  // ---------- A throttled window is a spent window ----------

  /** A cell on `slot` holds less than a chunk, and knows the budget spent only if it is. */
  predicate CellHonest(s: State, c: nat, slot: Slot, b: nat, w: nat)
    requires c < |s.cells|
  {
    var cell := s.cells[c];
    On(cell, slot) ==>
      && cell.lease.remaining < w
      && (cell.guard.Replied? ==> cell.guard.grant <= w)
      && (cell.lease.exhausted || (cell.guard.Replied? && cell.guard.grant == 0) ==> b <= Count(s.store, slot))
  }

  /** Request `r` on `slot` has been throttled. */
  predicate ThrottledOn(s: State, r: nat, slot: Slot)
  {
    r < |s.reqs| && s.reqs[r].Slot() == slot && s.reqs[r].phase.Decided? && s.reqs[r].phase.decision.Throttle?
  }

  /** A request throttled on `slot` found the budget spent, and its cell holds none of it. */
  predicate ThrottleHonest(s: State, r: nat, slot: Slot, b: nat)
    requires r < |s.reqs|
  {
    ThrottledOn(s, r, slot) ==>
      && b <= Count(s.store, slot)
      && s.reqs[r].cell < |s.cells| && HeldBy(s.cells[s.reqs[r].cell], slot) == 0
  }

  ghost predicate Honest(s: State, slot: Slot, b: nat, w: nat)
  {
    && (forall c :: 0 <= c < |s.cells| ==> CellHonest(s, c, slot, b, w))
    && (forall r :: 0 <= r < |s.reqs| ==> ThrottleHonest(s, r, slot, b))
  }

  lemma CountGrows(s: State, step: Step, slot: Slot)
    requires Enabled(s, step) && Resets(Next(s, step), slot) == 0
    ensures Resets(s, slot) == 0 && Count(s.store, slot) <= Count(Next(s, step).store, slot)
  {
    StepOnSlot(s, step, slot);
  }

  lemma StepKeepsCellHonest(s: State, step: Step, c: nat, slot: Slot, b: nat, w: nat)
    requires Wf(s) && Enabled(s, step) && Honest(s, slot, b, w) && Uniform(s, slot, b, w) && 0 < w
    requires Resets(Next(s, step), slot) == 0 && c < |Next(s, step).cells|
    ensures CellHonest(Next(s, step), c, slot, b, w)
  {
    if c < |s.cells| {
      assert CellHonest(s, c, slot, b, w);
      match step
      case Acquire(r) => AcquireKeepsCellHonest(s, r, c, slot, b, w);
      case Execute(r) => ExecuteKeepsCellHonest(s, r, c, slot, b, w);
      case Deliver(r) => DeliverKeepsCellHonest(s, r, c, slot, b, w);
      case LoseReply(_) =>
      case Fail(_) =>
      case Abandon(_) =>
      case Cancel(_) =>
      case Arrive(_, _, _, _) =>
      case Prune(_, _, _, _) =>
      case Tick(_) =>
    }
  }

  lemma AcquireKeepsCellHonest(s: State, r: nat, c: nat, slot: Slot, b: nat, w: nat)
    requires Enabled(s, Acquire(r)) && 0 < w && c < |s.cells| && CellHonest(s, c, slot, b, w)
    ensures CellHonest(DoAcquire(s, r), c, slot, b, w)
  {
  }

  lemma ExecuteKeepsCellHonest(s: State, r: nat, c: nat, slot: Slot, b: nat, w: nat)
    requires Wf(s) && Enabled(s, Execute(r)) && c < |s.cells| && CellHonest(s, c, slot, b, w)
    requires Uniform(s, slot, b, w) && Resets(DoExecute(s, r), slot) == 0
    ensures CellHonest(DoExecute(s, r), c, slot, b, w)
  {
    CountGrows(s, Execute(r), slot);
    assert RequestWf(s, r) && CellWf(s, c);
  }

  lemma DeliverKeepsCellHonest(s: State, r: nat, c: nat, slot: Slot, b: nat, w: nat)
    requires Answered(s, r) && c < |s.cells| && CellHonest(s, c, slot, b, w)
    ensures CellHonest(DoDeliver(s, r), c, slot, b, w)
  {
  }

  lemma StepKeepsThrottleHonest(s: State, step: Step, r: nat, slot: Slot, b: nat, w: nat)
    requires Wf(s) && Enabled(s, step) && Honest(s, slot, b, w) && Uniform(s, slot, b, w)
    requires Resets(Next(s, step), slot) == 0 && r < |Next(s, step).reqs|
    ensures ThrottleHonest(Next(s, step), r, slot, b)
  {
    if r < |s.reqs| {
      assert ThrottleHonest(s, r, slot, b);
      match step
      case Acquire(r') => AcquireKeepsThrottleHonest(s, r', r, slot, b, w);
      case Execute(r') => ExecuteKeepsThrottleHonest(s, r', r, slot, b, w);
      case Deliver(r') => DeliverKeepsThrottleHonest(s, r', r, slot, b, w);
      case LoseReply(_) =>
      case Fail(_) =>
      case Abandon(_) =>
      case Cancel(_) =>
      case Arrive(_, _, _, _) =>
      case Prune(_, _, _, _) =>
      case Tick(_) =>
    }
  }

  lemma AcquireKeepsThrottleHonest(s: State, r': nat, r: nat, slot: Slot, b: nat, w: nat)
    requires Wf(s) && Enabled(s, Acquire(r')) && Honest(s, slot, b, w) && r < |s.reqs|
    ensures ThrottleHonest(DoAcquire(s, r'), r, slot, b)
  {
    assert ThrottleHonest(s, r, slot, b) && RequestWf(s, r');
    assert CellHonest(s, s.reqs[r'].cell, slot, b, w) && CellWf(s, s.reqs[r'].cell);
  }

  lemma ExecuteKeepsThrottleHonest(s: State, r': nat, r: nat, slot: Slot, b: nat, w: nat)
    requires Wf(s) && Enabled(s, Execute(r')) && Honest(s, slot, b, w) && r < |s.reqs|
    requires Uniform(s, slot, b, w) && Resets(DoExecute(s, r'), slot) == 0
    ensures ThrottleHonest(DoExecute(s, r'), r, slot, b)
  {
    CountGrows(s, Execute(r'), slot);
    assert ThrottleHonest(s, r, slot, b) && RequestWf(s, r') && RequestWf(s, r);
    assert CellWf(s, s.reqs[r'].cell);
  }

  lemma DeliverKeepsThrottleHonest(s: State, r': nat, r: nat, slot: Slot, b: nat, w: nat)
    requires Wf(s) && Answered(s, r') && Honest(s, slot, b, w) && r < |s.reqs|
    ensures ThrottleHonest(DoDeliver(s, r'), r, slot, b)
  {
    assert ThrottleHonest(s, r, slot, b) && RequestWf(s, r');
    assert CellHonest(s, s.reqs[r'].cell, slot, b, w) && CellWf(s, s.reqs[r'].cell);
  }

  lemma {:induction false} RunHonest(t: Trace, i: nat, slot: Slot, b: nat, w: nat)
    requires IsRun(t) && i < |t.states| && 0 < w
    requires Uniform(t.states[i], slot, b, w) && Resets(t.states[i], slot) == 0
    ensures Honest(t.states[i], slot, b, w)
  {
    if i > 0 {
      var s, step := t.states[i - 1], t.steps[i - 1];
      assert Moves(s, step, t.states[i]);
      UniformHeldThroughout(t, i - 1, i, slot, b, w);
      CountGrows(s, step, slot);
      RunHonest(t, i - 1, slot, b, w);
      RunConserves(t, i - 1, slot);
      forall c | 0 <= c < |t.states[i].cells| ensures CellHonest(t.states[i], c, slot, b, w) {
        StepKeepsCellHonest(s, step, c, slot, b, w);
      }
      forall r | 0 <= r < |t.states[i].reqs| ensures ThrottleHonest(t.states[i], r, slot, b) {
        StepKeepsThrottleHonest(s, step, r, slot, b, w);
      }
    }
  }

  // ---------- Where the budget went ----------

  /** Tokens of `slot` a cell holds for later requests: a granted claim admits its own request. */
  function StrandedBy(cell: Cell, slot: Slot): nat
  {
    if HeldBy(cell, slot) > 0 && cell.guard.Replied? then HeldBy(cell, slot) - 1 else HeldBy(cell, slot)
  }

  function StrandedOn(slot: Slot): Cell -> nat
  {
    (cell: Cell) => StrandedBy(cell, slot)
  }

  /** Granted claims on `slot` whose reply is on its way: each admits its own request. */
  function GrantedOn(slot: Slot): Cell -> nat
  {
    (cell: Cell) => if HeldBy(cell, slot) > 0 && cell.guard.Replied? then 1 else 0
  }

  function Served(s: State, slot: Slot): nat
  {
    Admitted(s, slot) + SumOf(s.cells, GrantedOn(slot))
  }

  function Stranded(s: State, slot: Slot): nat { SumOf(s.cells, StrandedOn(slot)) }

  /**
   When any request on a slot has been throttled, the whole budget is accounted for: what was
   served, what cells still lease, and what was lost or discarded on the way.
   */
  lemma ThrottleAccountsForBudget(t: Trace, i: nat, slot: Slot, b: nat, w: nat, r: nat)
    requires IsRun(t) && i < |t.states| && 0 < w
    requires Uniform(t.states[i], slot, b, w) && Resets(t.states[i], slot) == 0
    requires ThrottledOn(t.states[i], r, slot)
    ensures var s, l := t.states[i], Log(t.states[i].history, slot);
            Served(s, slot) + Stranded(s, slot) + l.lost + l.discarded == b
  {
    var s := t.states[i];
    RunHonest(t, i, slot, b, w);
    RunConserves(t, i, slot);
    RunCountsWithin(t, i, slot, b);
    NothingForgotten(t, i, slot);
    assert ThrottleHonest(s, r, slot, b);
    SumOfPlus(s.cells, StrandedOn(slot), GrantedOn(slot), HeldOn(slot));
  }

  lemma NothingForgotten(t: Trace, i: nat, slot: Slot)
    requires IsRun(t) && i < |t.states| && Resets(t.states[i], slot) == 0
    ensures Claims(t.states[i].history, slot).forgotten == 0
  {
    if i > 0 {
      assert Moves(t.states[i - 1], t.steps[i - 1], t.states[i]);
      StepOnSlot(t.states[i - 1], t.steps[i - 1], slot);
      NothingForgotten(t, i - 1, slot);
    }
  }
}
