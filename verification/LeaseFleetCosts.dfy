/**
 What leasing in chunks costs under one fixed quota, counted in the cells that requests on a slot
 have looked up: how much of the budget a throttle leaves unserved, and how many claims a window
 costs the store.
 */
module LeaseFleetCosts {
  import opened LeaseMath
  import opened ClaimStore
  import opened Sums
  import opened LeaseFleet
  import opened LeaseFleetSafety
  import opened LeaseFleetTraffic

  // ---------- The cells of a slot ----------

  /** The cells that requests on `slot` have looked up, orphaned ones included. */
  function CellsFor(s: State, slot: Slot): set<nat>
  {
    set r | 0 <= r < |s.reqs| && s.reqs[r].Slot() == slot :: s.reqs[r].cell
  }

  /** The cells in which a request on `slot` has been throttled. */
  function ThrottledCells(s: State, slot: Slot): set<nat>
  {
    set r | 0 <= r < |s.reqs| && ThrottledOn(s, r, slot) :: s.reqs[r].cell
  }

  /** The cells of the key serve windows in order. */
  predicate InOrder(s: State, step: Step, slot: Slot)
  {
    step.Acquire? && step.req < |s.reqs| && s.reqs[step.req].key == slot.key &&
    s.reqs[step.req].cell < |s.cells| ==>
      s.cells[s.reqs[step.req].cell].lease.window <= s.reqs[step.req].plan.window
  }

  lemma CellsForGrow(s: State, step: Step, slot: Slot)
    requires Enabled(s, step)
    ensures CellsFor(s, slot) <= CellsFor(Next(s, step), slot)
  {
    RequestsPersist(s, step);
    forall c | c in CellsFor(s, slot) ensures c in CellsFor(Next(s, step), slot) {
      var r :| 0 <= r < |s.reqs| && s.reqs[r].Slot() == slot && s.reqs[r].cell == c;
      assert Next(s, step).reqs[r].Slot() == slot;
    }
  }

  lemma CellOfSlot(s: State, c: nat, slot: Slot)
    requires Wf(s) && c in CellsFor(s, slot)
    ensures c < |s.cells| && s.cells[c].key == slot.key
  {
    var r :| 0 <= r < |s.reqs| && s.reqs[r].Slot() == slot && s.reqs[r].cell == c;
    assert RequestWf(s, r);
  }

  /** A cell is on `slot` only if a request on the slot looked it up. */
  ghost predicate Visited(s: State, slot: Slot)
  {
    forall c :: 0 <= c < |s.cells| && On(s.cells[c], slot) ==> c in CellsFor(s, slot)
  }

  /** A cell's window changes only when a request takes its lock. */
  lemma WindowMoves(s: State, step: Step, c: nat)
    requires Wf(s) && Enabled(s, step) && c < |s.cells|
    requires !(step.Acquire? && s.reqs[step.req].cell == c)
    ensures Next(s, step).cells[c].lease.window == s.cells[c].lease.window
  {
  }

  lemma StepKeepsVisited(s: State, step: Step, slot: Slot)
    requires Wf(s) && Enabled(s, step) && Visited(s, slot)
    ensures Visited(Next(s, step), slot)
  {
    var s' := Next(s, step);
    CellsPersist(s, step);
    CellsForGrow(s, step, slot);
    forall c | 0 <= c < |s'.cells| && On(s'.cells[c], slot) ensures c in CellsFor(s', slot) {
      if c < |s.cells| {
        if step.Acquire? && s.reqs[step.req].cell == c {
          assert RequestWf(s, step.req) && s'.reqs[step.req].Slot() == slot;
        } else {
          WindowMoves(s, step, c);
        }
      } else {
        assert s'.reqs[|s.reqs|].Slot() == slot && s'.reqs[|s.reqs|].cell == c;
      }
    }
  }

  lemma {:induction false} RunVisited(t: Trace, i: nat, slot: Slot)
    requires IsRun(t) && i < |t.states|
    ensures Visited(t.states[i], slot)
  {
    if i > 0 {
      RunVisited(t, i - 1, slot);
      RunConserves(t, i - 1, slot);
      assert Moves(t.states[i - 1], t.steps[i - 1], t.states[i]);
      StepKeepsVisited(t.states[i - 1], t.steps[i - 1], slot);
    }
  }

  lemma SubsetSize(a: set<nat>, b: set<nat>)
    requires a <= b
    ensures |a| <= |b|
  {
    assert b == a + (b - a);
  }

  // ---------- Bounded stranding ----------

  /** The cells of the slot that have moved past its window without a throttle there. */
  function PastCells(s: State, slot: Slot): set<nat>
  {
    set c | c in CellsFor(s, slot) && c < |s.cells| && slot.window < s.cells[c].lease.window &&
            c !in ThrottledCells(s, slot)
  }

  predicate DiscardsBounded(s: State, slot: Slot, w: nat)
    requires 0 < w
  {
    Log(s.history, slot).discarded <= |PastCells(s, slot)| * (w - 1)
  }

  /** A cell past the window stays there, and no request on the slot is throttled in it any more. */
  lemma PastStays(s: State, step: Step, c: nat, slot: Slot)
    requires Wf(s) && Enabled(s, step) && InOrder(s, step, slot) && c in PastCells(s, slot)
    ensures c in PastCells(Next(s, step), slot)
  {
    var s' := Next(s, step);
    CellsForGrow(s, step, slot);
    CellOfSlot(s, c, slot);
    CellsPersist(s, step);
    PastWindowStays(s, step, c, slot);
    if c in ThrottledCells(s', slot) {
      var r :| 0 <= r < |s'.reqs| && ThrottledOn(s', r, slot) && s'.reqs[r].cell == c;
      NewThrottle(s, step, r, slot);
    }
  }

  lemma PastWindowStays(s: State, step: Step, c: nat, slot: Slot)
    requires Wf(s) && Enabled(s, step) && InOrder(s, step, slot)
    requires c < |s.cells| && s.cells[c].key == slot.key && slot.window < s.cells[c].lease.window
    ensures slot.window < Next(s, step).cells[c].lease.window
  {
    if step.Acquire? && s.reqs[step.req].cell == c {
      assert RequestWf(s, step.req);
    } else {
      WindowMoves(s, step, c);
    }
  }

  /** A throttle happens in a cell that is on the slot, or before its window. */
  lemma NewThrottle(s: State, step: Step, r: nat, slot: Slot)
    requires Wf(s) && Enabled(s, step) && InOrder(s, step, slot) && ThrottledOn(Next(s, step), r, slot)
    ensures r < |s.reqs| && s.reqs[r].Slot() == slot && s.reqs[r].cell == Next(s, step).reqs[r].cell < |s.cells|
    ensures !ThrottledOn(s, r, slot) ==> s.cells[s.reqs[r].cell].lease.window <= slot.window
  {
    RequestsPersist(s, step);
    assert RequestWf(s, r) && CellWf(s, s.reqs[r].cell);
  }

  lemma StepDiscards(s: State, step: Step, slot: Slot)
    requires Enabled(s, step)
    ensures Log(Next(s, step).history, slot).discarded ==
            Log(s.history, slot).discarded + (if Leaves(s, step, slot) then s.cells[s.reqs[step.req].cell].lease.remaining else 0)
  {
  }

  /** A request takes the lock of a cell on `slot` for another window. */
  predicate Leaves(s: State, step: Step, slot: Slot)
    requires Enabled(s, step)
  {
    step.Acquire? && On(s.cells[s.reqs[step.req].cell], slot) && s.reqs[step.req].plan.window != slot.window
  }

  lemma StepKeepsDiscardsBounded(s: State, step: Step, slot: Slot, b: nat, w: nat)
    requires Wf(s) && Enabled(s, step) && InOrder(s, step, slot) && Visited(s, slot) && Honest(s, slot, b, w)
    requires 0 < w && DiscardsBounded(s, slot, w)
    ensures DiscardsBounded(Next(s, step), slot, w)
  {
    var before, after := PastCells(s, slot), PastCells(Next(s, step), slot);
    StepDiscards(s, step, slot);
    forall c | c in before ensures c in after {
      PastStays(s, step, c, slot);
    }
    SubsetSize(before, after);
    if Leaves(s, step, slot) {
      var c := s.reqs[step.req].cell;
      if c in ThrottledCells(s, slot) {
        ThrottledHoldsNothing(s, c, slot, b, w);
      } else {
        LeavingCell(s, step.req, slot, b, w);
        SubsetSize(before + {c}, after);
      }
      OneMore(Log(s.history, slot).discarded, s.cells[c].lease.remaining, |before|, |after|, w);
    } else {
      OneMore(Log(s.history, slot).discarded, 0, |before|, |after|, w);
    }
  }

  lemma OneMore(discarded: nat, more: nat, m: nat, n: nat, w: nat)
    requires 0 < w && discarded <= m * (w - 1) && more < w && m <= n && (more > 0 ==> m < n)
    ensures discarded + more <= n * (w - 1)
  {
    MulMonotone(m, n, w - 1);
    if m < n {
      MulMonotone(m + 1, n, w - 1);
      MulSucc(m, w - 1);
    }
  }

  lemma LeavingCell(s: State, r: nat, slot: Slot, b: nat, w: nat)
    requires Wf(s) && Enabled(s, Acquire(r)) && InOrder(s, Acquire(r), slot) && Visited(s, slot)
    requires Honest(s, slot, b, w) && 0 < w
    requires Leaves(s, Acquire(r), slot) && s.reqs[r].cell !in ThrottledCells(s, slot)
    ensures var c := s.reqs[r].cell;
            && s.cells[c].lease.remaining <= w - 1
            && c !in PastCells(s, slot) && c in PastCells(DoAcquire(s, r), slot)
  {
    var c, s' := s.reqs[r].cell, DoAcquire(s, r);
    assert RequestWf(s, r) && CellHonest(s, c, slot, b, w);
    CellsForGrow(s, Acquire(r), slot);
    assert c in CellsFor(s, slot);
  }

  lemma ThrottledHoldsNothing(s: State, c: nat, slot: Slot, b: nat, w: nat)
    requires Honest(s, slot, b, w) && c in ThrottledCells(s, slot)
    ensures c < |s.cells| && HeldBy(s.cells[c], slot) == 0
  {
    var r :| 0 <= r < |s.reqs| && ThrottledOn(s, r, slot) && s.reqs[r].cell == c;
    assert ThrottleHonest(s, r, slot, b);
  }

  lemma {:induction false} RunDiscardsBounded(t: Trace, i: nat, slot: Slot, b: nat, w: nat)
    requires IsRun(t) && i < |t.states| && 0 < w
    requires Uniform(t.states[i], slot, b, w) && Resets(t.states[i], slot) == 0
    requires forall k :: 0 <= k < i ==> InOrder(t.states[k], t.steps[k], slot)
    ensures DiscardsBounded(t.states[i], slot, w)
  {
    if i > 0 {
      var s, step := t.states[i - 1], t.steps[i - 1];
      assert Moves(s, step, t.states[i]);
      UniformHeldThroughout(t, i - 1, i, slot, b, w);
      CountGrows(s, step, slot);
      RunDiscardsBounded(t, i - 1, slot, b, w);
      RunHonest(t, i - 1, slot, b, w);
      RunVisited(t, i - 1, slot);
      RunConserves(t, i - 1, slot);
      StepKeepsDiscardsBounded(s, step, slot, b, w);
    }
  }

  /** A sum whose terms are at most `k`, and zero outside `support`. */
  lemma {:induction false} SumOfSupport<T>(s: seq<T>, f: T -> nat, support: set<nat>, k: nat)
    requires forall i :: 0 <= i < |s| ==> f(s[i]) <= k && (f(s[i]) > 0 ==> i in support)
    ensures SumOf(s, f) <= |support| * k
  {
    if s != [] {
      var n := |s| - 1;
      assert forall i :: 0 <= i < n ==> s[..n][i] == s[i];
      if n in support {
        SumOfSupport(s[..n], f, support - {n}, k);
        MulSucc(|support| - 1, k);
      } else {
        SumOfSupport(s[..n], f, support, k);
      }
    }
  }

  /** The cells other than `c` that are on the slot. */
  function OthersOn(s: State, slot: Slot, c: nat): set<nat>
  {
    set d | d in CellsFor(s, slot) && d < |s.cells| && On(s.cells[d], slot) && d != c
  }

  lemma StrandedWithin(s: State, slot: Slot, b: nat, w: nat, c: nat)
    requires Wf(s) && Honest(s, slot, b, w) && Visited(s, slot) && 0 < w
    requires c < |s.cells| && HeldBy(s.cells[c], slot) == 0
    ensures Stranded(s, slot) <= |OthersOn(s, slot, c)| * (w - 1)
  {
    var f := StrandedOn(slot);
    forall d | 0 <= d < |s.cells| ensures f(s.cells[d]) <= w - 1 && (f(s.cells[d]) > 0 ==> d in OthersOn(s, slot, c)) {
      assert CellHonest(s, d, slot, b, w) && CellWf(s, d);
    }
    SumOfSupport(s.cells, f, OthersOn(s, slot, c), w - 1);
  }

  /**
   Bounded stranding: if the cells of a key serve windows in order, then once a request on a slot has
   been throttled, at most a chunk less one per other cell of the slot went unserved, beyond what
   was lost in replies nobody received.
   */
  lemma BoundedStranding(t: Trace, i: nat, slot: Slot, b: nat, w: nat, r: nat)
    requires IsRun(t) && i < |t.states| && 0 < w
    requires Uniform(t.states[i], slot, b, w) && Resets(t.states[i], slot) == 0
    requires forall k :: 0 <= k < i ==> InOrder(t.states[k], t.steps[k], slot)
    requires ThrottledOn(t.states[i], r, slot)
    ensures |CellsFor(t.states[i], slot)| >= 1
    ensures b - (|CellsFor(t.states[i], slot)| - 1) * (w - 1)
            <= Served(t.states[i], slot) + Log(t.states[i].history, slot).lost <= b
  {
    var s := t.states[i];
    var c, all := s.reqs[r].cell, CellsFor(s, slot);
    RunConserves(t, i, slot);
    RunHonest(t, i, slot, b, w);
    RunVisited(t, i, slot);
    RunDiscardsBounded(t, i, slot, b, w);
    ThrottleAccountsForBudget(t, i, slot, b, w, r);
    assert ThrottleHonest(s, r, slot, b) && c in ThrottledCells(s, slot) && c in all;
    StrandedWithin(s, slot, b, w, c);
    OthersWithin(s, slot, c);
    MulAdd(|OthersOn(s, slot, c)|, |PastCells(s, slot)|, w - 1);
    MulMonotone(|OthersOn(s, slot, c)| + |PastCells(s, slot)|, |all| - 1, w - 1);
  }

  lemma OthersWithin(s: State, slot: Slot, c: nat)
    requires c in ThrottledCells(s, slot) && c in CellsFor(s, slot)
    ensures |OthersOn(s, slot, c)| + |PastCells(s, slot)| <= |CellsFor(s, slot)| - 1
  {
    var all, on, past := CellsFor(s, slot), OthersOn(s, slot, c), PastCells(s, slot);
    assert on !! past && on + past <= all - {c};
    SubsetSize(on + past, all - {c});
  }

  // ---------- Amortised claims ----------

  /** All grants so far were full chunks, or one was partial and the budget is spent. */
  predicate FullChunks(s: State, slot: Slot, b: nat, w: nat)
  {
    var count, hits := Count(s.store, slot), Claims(s.history, slot).hits;
    count <= b && (count == hits * w || (count == b && hits * w < b + w))
  }

  lemma StepKeepsFullChunks(s: State, step: Step, slot: Slot, b: nat, w: nat)
    requires Enabled(s, step) && FullChunks(s, slot, b, w) && Uniform(s, slot, b, w)
    requires Resets(Next(s, step), slot) == 0
    ensures FullChunks(Next(s, step), slot, b, w)
  {
    StepOnSlot(s, step, slot);
    CountGrows(s, step, slot);
    if ClaimsOn(s, step, slot) {
      MulSucc(Claims(s.history, slot).hits, w);
    }
  }

  /** Has this cell been told that `slot` is spent, or moved past its window? */
  predicate Knows(cell: Cell, slot: Slot)
  {
    slot.window < cell.lease.window ||
    (slot.window == cell.lease.window &&
     (cell.lease.exhausted || (cell.guard.Replied? && cell.guard.grant == 0)))
  }

  function KnowingCells(s: State, slot: Slot): set<nat>
  {
    set c | c in CellsFor(s, slot) && c < |s.cells| && Knows(s.cells[c], slot)
  }

  /** Each refusal was told to a cell that still knows it, or was heard by nobody. */
  predicate MissesKnown(s: State, slot: Slot)
  {
    Log(s.history, slot).misses <= |KnowingCells(s, slot)| + Log(s.history, slot).unheard
  }

  /** The refusal on `slot` that this step makes the store give, or that it keeps from its cell. */
  predicate Refuses(s: State, step: Step, slot: Slot)
    requires Enabled(s, step)
  {
    ClaimsOn(s, step, slot) && Claim(s.store, slot, s.reqs[step.req].plan, s.clock).1 == 0
  }

  predicate Unheard(s: State, step: Step, slot: Slot)
    requires Enabled(s, step)
  {
    || (Refuses(s, step, slot) && s.reqs[step.req].phase.Abandoned?)
    || (step.LoseReply? && s.reqs[step.req].Slot() == slot && s.cells[s.reqs[step.req].cell].guard.grant == 0)
  }

  lemma StepRefusals(s: State, step: Step, slot: Slot)
    requires Enabled(s, step)
    ensures var l, l' := Log(s.history, slot), Log(Next(s, step).history, slot);
            && l'.misses == l.misses + (if Refuses(s, step, slot) then 1 else 0)
            && l'.unheard == l.unheard + (if Unheard(s, step, slot) then 1 else 0)
  {
    match step
    case Execute(r) => ExecuteRefusals(s, r, slot);
    case Acquire(_) =>
    case Deliver(_) =>
    case LoseReply(_) =>
    case Fail(_) =>
    case Abandon(_) =>
    case Cancel(_) =>
    case Arrive(_, _, _, _) =>
    case Prune(_, _, _, _) =>
    case Tick(_) =>
  }

  lemma ExecuteRefusals(s: State, r: nat, slot: Slot)
    requires Enabled(s, Execute(r))
    ensures var l, l' := Log(s.history, slot), Log(DoExecute(s, r).history, slot);
            && l'.misses == l.misses + (if Refuses(s, Execute(r), slot) then 1 else 0)
            && l'.unheard == l.unheard + (if Unheard(s, Execute(r), slot) then 1 else 0)
  {
  }

  /** A cell forgets that the slot is spent only when a lost reply was the refusal. */
  lemma KnowledgeStays(s: State, step: Step, c: nat, slot: Slot)
    requires Wf(s) && Enabled(s, step) && InOrder(s, step, slot) && c in KnowingCells(s, slot)
    requires !(step.LoseReply? && Unheard(s, step, slot) && s.reqs[step.req].cell == c)
    ensures c in KnowingCells(Next(s, step), slot)
  {
    CellsForGrow(s, step, slot);
    CellOfSlot(s, c, slot);
    CellsPersist(s, step);
    assert CellWf(s, c);
    match step
    case Acquire(r) => assert RequestWf(s, r);
    case Execute(r) => assert RequestWf(s, r);
    case Deliver(r) => assert RequestWf(s, r);
    case LoseReply(r) => assert RequestWf(s, r);
    case Fail(_) =>
    case Abandon(_) =>
    case Cancel(_) =>
    case Arrive(_, _, _, _) =>
    case Prune(_, _, _, _) =>
    case Tick(_) =>
  }

  lemma RefusedCell(s: State, r: nat, slot: Slot)
    requires Wf(s) && Enabled(s, Execute(r)) && Refuses(s, Execute(r), slot) && s.reqs[r].phase.Working?
    ensures var c := s.reqs[r].cell;
            c !in KnowingCells(s, slot) && c in KnowingCells(DoExecute(s, r), slot)
  {
    CellsForGrow(s, Execute(r), slot);
    assert RequestWf(s, r) && CellWf(s, s.reqs[r].cell);
    assert s.reqs[r].cell in CellsFor(s, slot);
  }

  lemma StepKeepsMissesKnown(s: State, step: Step, slot: Slot)
    requires Wf(s) && Enabled(s, step) && InOrder(s, step, slot) && MissesKnown(s, slot)
    ensures MissesKnown(Next(s, step), slot)
  {
    var before, after := KnowingCells(s, slot), KnowingCells(Next(s, step), slot);
    StepRefusals(s, step, slot);
    var gone := if step.LoseReply? && Unheard(s, step, slot) then {s.reqs[step.req].cell} else {};
    forall c | c in before - gone ensures c in after {
      KnowledgeStays(s, step, c, slot);
    }
    if Refuses(s, step, slot) && s.reqs[step.req].phase.Working? {
      RefusedCell(s, step.req, slot);
      SubsetSize(before + {s.reqs[step.req].cell}, after);
    } else {
      SubsetSize(before - gone, after);
      SubsetSize(before, (before - gone) + gone);
    }
  }

  /**
   Backend traffic is amortised: while the cells of a key serve windows in order, one window costs
   at most `ceil(budget / chunk)` granting claims, one refused claim per cell that requests on the
   slot looked up, and those refusals nobody received.
   */
  lemma {:induction false} ClaimsAmortised(t: Trace, i: nat, slot: Slot, b: nat, w: nat)
    requires IsRun(t) && i < |t.states| && 0 < w
    requires Uniform(t.states[i], slot, b, w) && Resets(t.states[i], slot) == 0
    requires forall k :: 0 <= k < i ==> InOrder(t.states[k], t.steps[k], slot)
    ensures FullChunks(t.states[i], slot, b, w) && MissesKnown(t.states[i], slot)
    ensures var l := Log(t.states[i].history, slot);
            l.hits <= (b + w - 1) / w && l.misses <= |CellsFor(t.states[i], slot)| + l.unheard
  {
    var s' := t.states[i];
    if i > 0 {
      var s, step := t.states[i - 1], t.steps[i - 1];
      assert Moves(s, step, s');
      UniformHeldThroughout(t, i - 1, i, slot, b, w);
      CountGrows(s, step, slot);
      ClaimsAmortised(t, i - 1, slot, b, w);
      RunConserves(t, i - 1, slot);
      StepKeepsMissesKnown(s, step, slot);
      StepKeepsFullChunks(s, step, slot, b, w);
    }
    SubsetSize(KnowingCells(s', slot), CellsFor(s', slot));
    HitsWithinCeiling(Claims(s'.history, slot).hits, b, w);
  }

  lemma HitsWithinCeiling(hits: nat, b: nat, w: nat)
    requires 0 < w && hits * w < b + w
    ensures hits <= (b + w - 1) / w
  {
    WindowContains(b + w - 1, w);
    var q := (b + w - 1) / w;
    if q < hits {
      MulMonotone(q + 1, hits, w);
    }
  }
}
