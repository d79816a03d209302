/**
 Every run of the fleet conserves tokens, and no slot is ever overspent: the requests admitted
 against a (key, window) pair never exceed the largest budget used for it, once per life of
 its counter.
 */
module LeaseFleetSafety {
  import opened LeaseMath
  import opened LeaseCell
  import opened ClaimStore
  import opened Sums
  import opened LeaseFleet

  // ---------- Locks ----------

  predicate CellWf(s: State, c: nat)
    requires c < |s.cells|
  {
    var cell := s.cells[c];
    && (cell.lease.exhausted ==> cell.lease.remaining == 0)
    && (!cell.guard.Free? ==>
          && var r := cell.guard.req;
             && r < |s.reqs| && s.reqs[r].cell == c && s.reqs[r].phase.Working?
             && cell.lease == Blank(s.reqs[r].plan.window))
  }

  predicate RequestWf(s: State, r: nat)
    requires r < |s.reqs|
  {
    var req := s.reqs[r];
    && req.cell < |s.cells| && s.cells[req.cell].key == req.key
    && (req.phase.Working? ==> !s.cells[req.cell].guard.Free? && s.cells[req.cell].guard.req == r)
  }

  predicate BookWf(s: State)
  {
    forall p :: p in s.book ==>
      s.book[p] < |s.cells| && s.cells[s.book[p]].replica == p.0 && s.cells[s.book[p]].key == p.1
  }

  /** A held cell is held by exactly one working request, on that request's window and empty. */
  ghost predicate Wf(s: State)
  {
    && (forall c :: 0 <= c < |s.cells| ==> CellWf(s, c))
    && (forall r :: 0 <= r < |s.reqs| ==> RequestWf(s, r))
    && BookWf(s)
  }

  lemma StepKeepsWf(s: State, step: Step)
    requires Wf(s) && Enabled(s, step)
    ensures Wf(Next(s, step))
  {
    var s' := Next(s, step);
    StepKeepsBookWf(s, step);
    forall c | 0 <= c < |s'.cells| ensures CellWf(s', c) {
      StepKeepsCellWf(s, step, c);
    }
    forall r | 0 <= r < |s'.reqs| ensures RequestWf(s', r) {
      StepKeepsRequestWf(s, step, r);
    }
  }

  /** Cells are never removed and keep their replica and key. */
  lemma CellsPersist(s: State, step: Step)
    requires Enabled(s, step)
    ensures |s.cells| <= |Next(s, step).cells|
    ensures forall c :: 0 <= c < |s.cells| ==>
              && Next(s, step).cells[c].key == s.cells[c].key
              && Next(s, step).cells[c].replica == s.cells[c].replica
  {
  }

  lemma StepKeepsBookWf(s: State, step: Step)
    requires BookWf(s) && Enabled(s, step)
    ensures BookWf(Next(s, step))
  {
    CellsPersist(s, step);
  }

  lemma StepKeepsCellWf(s: State, step: Step, c: nat)
    requires Wf(s) && Enabled(s, step) && c < |Next(s, step).cells|
    ensures CellWf(Next(s, step), c)
  {
    if c < |s.cells| {
      assert CellWf(s, c);
      match step
      case Acquire(r) => AcquireKeepsCellWf(s, r, c);
      case Execute(r) => ExecuteKeepsCellWf(s, r, c);
      case Deliver(r) => DeliverKeepsCellWf(s, r, c);
      case LoseReply(r) => ReleaseKeepsCellWf(s, r, s.cells[s.reqs[r].cell].lease, Errored, c);
      case Fail(r) => ReleaseKeepsCellWf(s, r, s.cells[s.reqs[r].cell].lease, Errored, c);
      case Abandon(r) => ReleaseKeepsCellWf(s, r, s.cells[s.reqs[r].cell].lease, Abandoned, c);
      case Cancel(_) =>
      case Arrive(_, _, _, _) =>
      case Prune(_, _, _, _) =>
      case Tick(_) =>
    }
  }

  lemma ReleaseKeepsCellWf(s: State, r: nat, lease: Lease, phase: Phase, c: nat)
    requires Wf(s) && c < |s.cells| && (Awaits(s, r) || Answered(s, r))
    requires lease == s.cells[s.reqs[r].cell].lease || !lease.exhausted || lease.remaining == 0
    ensures CellWf(Release(s, r, lease, phase), c)
  {
    assert CellWf(s, c) && RequestWf(s, r) && CellWf(s, s.reqs[r].cell);
  }

  lemma DeliverKeepsCellWf(s: State, r: nat, c: nat)
    requires Wf(s) && c < |s.cells| && Answered(s, r)
    ensures CellWf(DoDeliver(s, r), c)
  {
    var req := s.reqs[r];
    var cell := s.cells[req.cell];
    assert CellWf(s, req.cell);
    var (lease, decision) := Settle(cell.lease, cell.guard.grant, req.now, req.plan.leaseMs);
    ReleaseKeepsCellWf(s, r, lease, Decided(decision), c);
  }

  lemma ExecuteKeepsCellWf(s: State, r: nat, c: nat)
    requires Wf(s) && c < |s.cells| && Enabled(s, Execute(r))
    ensures CellWf(DoExecute(s, r), c)
  {
    assert CellWf(s, c) && RequestWf(s, r);
  }

  lemma AcquireKeepsCellWf(s: State, r: nat, c: nat)
    requires Wf(s) && Enabled(s, Acquire(r)) && c < |s.cells|
    ensures CellWf(DoAcquire(s, r), c)
  {
    assert RequestWf(s, r) && CellWf(s, c);
  }

  lemma StepKeepsRequestWf(s: State, step: Step, r: nat)
    requires Wf(s) && Enabled(s, step) && r < |Next(s, step).reqs|
    ensures RequestWf(Next(s, step), r)
  {
    if r < |s.reqs| {
      assert RequestWf(s, r);
      match step
      case Acquire(r') => AcquireKeepsRequestWf(s, r', r);
      case Execute(r') => ExecuteKeepsRequestWf(s, r', r);
      case Deliver(r') => DeliverKeepsRequestWf(s, r', r);
      case LoseReply(r') => ReleaseKeepsRequestWf(s, r', s.cells[s.reqs[r'].cell].lease, Errored, r);
      case Fail(r') => ReleaseKeepsRequestWf(s, r', s.cells[s.reqs[r'].cell].lease, Errored, r);
      case Abandon(r') => ReleaseKeepsRequestWf(s, r', s.cells[s.reqs[r'].cell].lease, Abandoned, r);
      case Cancel(_) =>
      case Arrive(_, _, _, _) =>
      case Prune(_, _, _, _) =>
      case Tick(_) =>
    }
  }

  lemma ReleaseKeepsRequestWf(s: State, r': nat, lease: Lease, phase: Phase, r: nat)
    requires Wf(s) && r < |s.reqs| && (Awaits(s, r') || Answered(s, r')) && !phase.Working?
    ensures RequestWf(Release(s, r', lease, phase), r)
  {
    assert RequestWf(s, r) && RequestWf(s, r');
  }

  lemma DeliverKeepsRequestWf(s: State, r': nat, r: nat)
    requires Wf(s) && r < |s.reqs| && Answered(s, r')
    ensures RequestWf(DoDeliver(s, r'), r)
  {
    var req := s.reqs[r'];
    var cell := s.cells[req.cell];
    var (lease, decision) := Settle(cell.lease, cell.guard.grant, req.now, req.plan.leaseMs);
    ReleaseKeepsRequestWf(s, r', lease, Decided(decision), r);
  }

  lemma ExecuteKeepsRequestWf(s: State, r': nat, r: nat)
    requires Wf(s) && r < |s.reqs| && Enabled(s, Execute(r'))
    ensures RequestWf(DoExecute(s, r'), r)
  {
    assert RequestWf(s, r) && RequestWf(s, r');
  }

  lemma AcquireKeepsRequestWf(s: State, r': nat, r: nat)
    requires Wf(s) && Enabled(s, Acquire(r')) && r < |s.reqs|
    ensures RequestWf(DoAcquire(s, r'), r)
  {
    assert RequestWf(s, r') && RequestWf(s, r);
  }

  // ---------- Conservation ----------

  /** Was this request admitted against `slot`? */
  function AdmittedOn(slot: Slot): Request -> nat
  {
    (req: Request) => if req.Slot() == slot && req.phase == Decided(Allow) then 1 else 0
  }

  /** Tokens of `slot` a cell holds: still leased, or granted by a reply on its way. */
  function HeldBy(cell: Cell, slot: Slot): nat
  {
    if Slot(cell.key, cell.lease.window) != slot then 0
    else cell.lease.remaining + if cell.guard.Replied? then cell.guard.grant else 0
  }

  function HeldOn(slot: Slot): Cell -> nat
  {
    (cell: Cell) => HeldBy(cell, slot)
  }

  function Admitted(s: State, slot: Slot): nat { SumOf(s.reqs, AdmittedOn(slot)) }

  function Held(s: State, slot: Slot): nat { SumOf(s.cells, HeldOn(slot)) }

  /** Every token the store ever counted is spent, held, lost or discarded. */
  predicate Conserved(s: State, slot: Slot)
  {
    var l := Log(s.history, slot);
    Count(s.store, slot) + l.forgotten == Admitted(s, slot) + Held(s, slot) + l.lost + l.discarded
  }

  lemma StepConserves(s: State, step: Step, slot: Slot)
    requires Wf(s) && Enabled(s, step) && Conserved(s, slot)
    ensures Conserved(Next(s, step), slot)
  {
    match step
    case Arrive(replica, key, quota, now) => ArriveConserves(s, replica, key, MakePlan(quota, now), now, slot);
    case Cancel(r) => RequestMoves(s, r, Errored, slot);
    case Acquire(r) => AcquireConserves(s, r, slot);
    case Execute(r) => ExecuteConserves(s, r, slot);
    case Fail(r) => ReleaseMoves(s, r, s.cells[s.reqs[r].cell].lease, Errored, slot);
    case Abandon(r) => ReleaseMoves(s, r, s.cells[s.reqs[r].cell].lease, Abandoned, slot);
    case Deliver(r) => DeliverConserves(s, r, slot);
    case LoseReply(r) => LoseReplyConserves(s, r, slot);
    case Prune(_, _, _, _) =>
    case Tick(_) =>
  }

  /** How a request's change of phase moves the admitted count. */
  lemma RequestMoves(s: State, r: nat, phase: Phase, slot: Slot)
    requires r < |s.reqs|
    ensures var moved := s.reqs[r].(phase := phase);
            SumOf(s.reqs[r := moved], AdmittedOn(slot)) + AdmittedOn(slot)(s.reqs[r])
            == Admitted(s, slot) + AdmittedOn(slot)(moved)
  {
    SumOfUpdate(s.reqs, r, s.reqs[r].(phase := phase), AdmittedOn(slot));
  }

  /** How releasing a cell moves both sums. */
  lemma ReleaseMoves(s: State, r: nat, lease: Lease, phase: Phase, slot: Slot)
    requires r < |s.reqs| && s.reqs[r].cell < |s.cells|
    ensures var s' := Release(s, r, lease, phase);
            var c := s.reqs[r].cell;
            && Admitted(s', slot) + AdmittedOn(slot)(s.reqs[r]) == Admitted(s, slot) + AdmittedOn(slot)(s'.reqs[r])
            && Held(s', slot) + HeldOn(slot)(s.cells[c]) == Held(s, slot) + HeldOn(slot)(s'.cells[c])
  {
    RequestMoves(s, r, phase, slot);
    var c := s.reqs[r].cell;
    SumOfUpdate(s.cells, c, s.cells[c].(lease := lease, guard := Free), HeldOn(slot));
  }

  lemma ArriveConserves(s: State, replica: nat, key: string, plan: Plan, now: u64, slot: Slot)
    requires Conserved(s, slot)
    ensures Conserved(DoArrive(s, replica, key, plan, now), slot)
  {
    var s' := DoArrive(s, replica, key, plan, now);
    SumOfAppend(s.reqs, s'.reqs[|s.reqs|], AdmittedOn(slot));
    if (replica, key) !in s.book {
      SumOfAppend(s.cells, s'.cells[|s.cells|], HeldOn(slot));
    }
  }

  lemma LoseReplyConserves(s: State, r: nat, slot: Slot)
    requires Wf(s) && Answered(s, r) && Conserved(s, slot)
    ensures Conserved(Next(s, LoseReply(r)), slot)
  {
    assert RequestWf(s, r) && CellWf(s, s.reqs[r].cell);
    ReleaseMoves(s, r, s.cells[s.reqs[r].cell].lease, Errored, slot);
  }

  lemma AcquireConserves(s: State, r: nat, slot: Slot)
    requires Wf(s) && Enabled(s, Acquire(r)) && Conserved(s, slot)
    ensures Conserved(DoAcquire(s, r), slot)
  {
    assert RequestWf(s, r) && CellWf(s, s.reqs[r].cell);
    AcquireMoves(s, r, slot);
    AcquireDiscards(s, r, slot);
  }

  /** How taking the lock moves both sums. */
  lemma AcquireMoves(s: State, r: nat, slot: Slot)
    requires Enabled(s, Acquire(r))
    ensures var s', c := DoAcquire(s, r), s.reqs[r].cell;
            && Admitted(s', slot) + AdmittedOn(slot)(s.reqs[r]) == Admitted(s, slot) + AdmittedOn(slot)(s'.reqs[r])
            && Held(s', slot) + HeldBy(s.cells[c], slot) == Held(s, slot) + HeldBy(s'.cells[c], slot)
  {
    var s', c := DoAcquire(s, r), s.reqs[r].cell;
    SumOfUpdate(s.reqs, r, s'.reqs[r], AdmittedOn(slot));
    SumOfUpdate(s.cells, c, s'.cells[c], HeldOn(slot));
  }

  /** A cell leaving a window discards what it held there; otherwise it pays for an admission. */
  lemma AcquireDiscards(s: State, r: nat, slot: Slot)
    requires Enabled(s, Acquire(r)) && s.cells[s.reqs[r].cell].key == s.reqs[r].key
    ensures var s', c := DoAcquire(s, r), s.reqs[r].cell;
            var l, l' := Log(s.history, slot), Log(s'.history, slot);
            && s'.store == s.store && l'.forgotten == l.forgotten && l'.lost == l.lost
            && HeldBy(s.cells[c], slot) + l.discarded
               == HeldBy(s'.cells[c], slot) + l'.discarded + AdmittedOn(slot)(s'.reqs[r])
            && AdmittedOn(slot)(s.reqs[r]) == 0
  {
  }

  /** An executed claim moves the counted and forgotten tokens of its own slot by the grant. */
  lemma ClaimMoves(s: State, at: Slot, plan: Plan, slot: Slot)
    ensures var (store, grant) := Claim(s.store, at, plan, s.clock);
            var l, l' := Log(s.history, slot), Log(Book(s, at, grant), slot);
            && Count(store, slot) + l'.forgotten
               == Count(s.store, slot) + l.forgotten + (if slot == at then grant else 0)
            && l'.lost == l.lost && l'.discarded == l.discarded
  {
    if Expired(s.store, at, s.clock) {
      assert Grant(0, plan) > 0;
    }
  }

  lemma ExecuteConserves(s: State, r: nat, slot: Slot)
    requires Wf(s) && Enabled(s, Execute(r)) && Conserved(s, slot)
    ensures Conserved(DoExecute(s, r), slot)
  {
    ClaimMoves(s, s.reqs[r].Slot(), s.reqs[r].plan, slot);
    if s.reqs[r].phase.Abandoned? {
      RequestMoves(s, r, Errored, slot);
    } else {
      ReplyMoves(s, r, slot);
    }
  }

  /** A reply on its way holds the tokens it grants. */
  lemma ReplyMoves(s: State, r: nat, slot: Slot)
    requires Wf(s) && Enabled(s, Execute(r)) && !s.reqs[r].phase.Abandoned?
    ensures Held(DoExecute(s, r), slot) ==
            Held(s, slot) + (if s.reqs[r].Slot() == slot then Claim(s.store, slot, s.reqs[r].plan, s.clock).1 else 0)
  {
    var c := s.reqs[r].cell;
    assert RequestWf(s, r) && CellWf(s, c);
    SumOfUpdate(s.cells, c, DoExecute(s, r).cells[c], HeldOn(slot));
  }

  lemma DeliverConserves(s: State, r: nat, slot: Slot)
    requires Wf(s) && Answered(s, r) && Conserved(s, slot)
    ensures Conserved(DoDeliver(s, r), slot)
  {
    var req := s.reqs[r];
    assert RequestWf(s, r) && CellWf(s, req.cell);
    var cell := s.cells[req.cell];
    var (lease, decision) := Settle(cell.lease, cell.guard.grant, req.now, req.plan.leaseMs);
    ReleaseMoves(s, r, lease, Decided(decision), slot);
  }

  /** Token conservation in every state of every run, for every slot. */
  lemma {:induction false} RunConserves(t: Trace, i: nat, slot: Slot)
    requires IsRun(t) && i < |t.states|
    ensures Wf(t.states[i]) && Conserved(t.states[i], slot)
  {
    if i > 0 {
      RunConserves(t, i - 1, slot);
      assert Moves(t.states[i - 1], t.steps[i - 1], t.states[i]);
      StepKeepsWf(t.states[i - 1], t.steps[i - 1]);
      StepConserves(t.states[i - 1], t.steps[i - 1], slot);
    }
  }

  // ---------- The budget ----------

  /** The store is about to execute a claim on `slot`. */
  predicate ClaimsOn(s: State, step: Step, slot: Slot)
  {
    step.Execute? && step.req < |s.reqs| && s.reqs[step.req].Slot() == slot
  }

  /** A slot's ledger without the fate of its granted tokens. */
  function Claims(history: map<Slot, Ledger>, slot: Slot): Ledger
  {
    Log(history, slot).(lost := 0, unheard := 0, discarded := 0)
  }

  /** Only a claim on a slot touches its counter and its claim record. */
  lemma StepOnSlot(s: State, step: Step, slot: Slot)
    requires Enabled(s, step)
    ensures !ClaimsOn(s, step, slot) ==>
              && (slot in Next(s, step).store <==> slot in s.store)
              && (slot in s.store ==> Next(s, step).store[slot] == s.store[slot])
              && Claims(Next(s, step).history, slot) == Claims(s.history, slot)
    ensures ClaimsOn(s, step, slot) ==>
              var (store, grant) := Claim(s.store, slot, s.reqs[step.req].plan, s.clock);
              && Next(s, step).store == store
              && Claims(Next(s, step).history, slot) == Claims(Book(s, slot, grant), slot)
    ensures s.clock <= Next(s, step).clock
  {
    if step.Execute? {
      ExecuteOnSlot(s, step.req, slot);
    }
  }

  lemma ExecuteOnSlot(s: State, r: nat, slot: Slot)
    requires Enabled(s, Execute(r))
    ensures var s', at := DoExecute(s, r), s.reqs[r].Slot();
            var (store, grant) := Claim(s.store, at, s.reqs[r].plan, s.clock);
            && s'.store == store && s'.clock == s.clock
            && Claims(s'.history, slot) == Claims(Book(s, at, grant), slot)
            && (slot != at ==>
                  && (slot in store <==> slot in s.store) && (slot in s.store ==> store[slot] == s.store[slot])
                  && Claims(s'.history, slot) == Claims(s.history, slot))
  {
  }

  /** No request on `slot` uses a budget above `b`. */
  predicate BudgetsWithin(s: State, slot: Slot, b: nat)
  {
    forall r :: 0 <= r < |s.reqs| && s.reqs[r].Slot() == slot ==> s.reqs[r].plan.budget <= b
  }

  predicate CountsWithin(s: State, slot: Slot, b: nat)
  {
    Count(s.store, slot) <= b && Log(s.history, slot).forgotten <= Log(s.history, slot).resets * b
  }

  lemma StepCountsWithin(s: State, step: Step, slot: Slot, b: nat)
    requires Enabled(s, step)
    requires BudgetsWithin(s, slot, b) ==> CountsWithin(s, slot, b)
    ensures BudgetsWithin(Next(s, step), slot, b) ==> CountsWithin(Next(s, step), slot, b)
  {
    var s' := Next(s, step);
    RequestsPersist(s, step);
    StepOnSlot(s, step, slot);
    assert Claims(s.history, slot).resets == Log(s.history, slot).resets;
    assert Claims(s'.history, slot).resets == Log(s'.history, slot).resets;
    if BudgetsWithin(s', slot, b) {
      forall r | 0 <= r < |s.reqs| && s.reqs[r].Slot() == slot ensures s.reqs[r].plan.budget <= b {
        assert s'.reqs[r].Slot() == slot;
      }
      MulSucc(Log(s.history, slot).resets, b);
    }
  }

  /** Requests are never removed, and only their phase changes. */
  lemma RequestsPersist(s: State, step: Step)
    requires Enabled(s, step)
    ensures |s.reqs| <= |Next(s, step).reqs|
    ensures forall r :: 0 <= r < |s.reqs| ==>
              Next(s, step).reqs[r] == s.reqs[r].(phase := Next(s, step).reqs[r].phase)
  {
  }

  lemma {:induction false} RunCountsWithin(t: Trace, i: nat, slot: Slot, b: nat)
    requires IsRun(t) && i < |t.states|
    ensures BudgetsWithin(t.states[i], slot, b) ==> CountsWithin(t.states[i], slot, b)
  {
    if i > 0 {
      RunCountsWithin(t, i - 1, slot, b);
      assert Moves(t.states[i - 1], t.steps[i - 1], t.states[i]);
      StepCountsWithin(t.states[i - 1], t.steps[i - 1], slot, b);
    }
  }

  /**
   Fleet-wide safety. Whatever the interleaving, clocks, failures and prunes, the requests
   admitted against a slot stay within the largest budget used for it for each life of its
   counter; if no claim ever found the counter expired, they stay within that budget.
   */
  lemma NeverOverspent(t: Trace, i: nat, slot: Slot, b: nat)
    requires IsRun(t) && i < |t.states| && BudgetsWithin(t.states[i], slot, b)
    ensures Admitted(t.states[i], slot) <= (1 + Log(t.states[i].history, slot).resets) * b
    ensures Log(t.states[i].history, slot).resets == 0 ==> Admitted(t.states[i], slot) <= b
  {
    RunConserves(t, i, slot);
    RunCountsWithin(t, i, slot, b);
    MulSucc(Log(t.states[i].history, slot).resets, b);
  }
}
