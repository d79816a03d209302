/** The two models of `check` meet: run without interference, the protocol's steps are the book's `check`. */
module LeaseFleetCheck {
  import opened LeaseMath
  import opened LeaseCell
  import opened ClaimStore
  import opened LeaseFleet
  import opened LeaseFleetSafety
  import LeaseBook

  /** One replica's book, as far as one key is concerned. */
  function BookOf(s: State, replica: nat, key: string): map<string, Lease>
  {
    if (replica, key) in s.book && s.book[(replica, key)] < |s.cells|
    then map[key := s.cells[s.book[(replica, key)]].lease] else map[]
  }

  /** No request holds the lock of the replica's cell for `key`. */
  predicate Unlocked(s: State, replica: nat, key: string)
  {
    (replica, key) in s.book && s.book[(replica, key)] < |s.cells| ==> s.cells[s.book[(replica, key)]].guard.Free?
  }

  /** A request that has just looked its cell up, the cell being free. */
  predicate AtLock(s: State, r: nat, key: string, plan: Plan, now: u64)
  {
    && r < |s.reqs| && s.reqs[r].phase.Queued? && s.reqs[r].key == key && s.reqs[r].plan == plan && s.reqs[r].now == now
    && s.reqs[r].cell < |s.cells| && s.cells[s.reqs[r].cell].guard.Free? && s.cells[s.reqs[r].cell].key == key
  }

  /**
   Request `r` takes its lock and, if it must, has its claim executed and answered, undisturbed; or
   its claim fails, if the backend is down.
   */
  predicate RunsFromLock(s: State, r: nat, up: bool, s': State)
  {
    && Enabled(s, Acquire(r))
    && var taken := Next(s, Acquire(r));
       if taken.reqs[r].phase.Decided? then s' == taken
       else if !up then Enabled(taken, Fail(r)) && s' == Next(taken, Fail(r))
       else Enabled(taken, Execute(r)) && Enabled(Next(taken, Execute(r)), Deliver(r)) &&
            s' == Next(Next(taken, Execute(r)), Deliver(r))
  }

  /** The phase a request ends in when `check` gives this answer. */
  function PhaseOf(answer: LeaseBook.Answer): Phase
  {
    match answer
    case Answered(decision) => Decided(decision)
    case Unavailable => Errored
  }

  /** From the lock on: one step if the cell answers, two if the claim fails, three if it succeeds. */
  lemma FromLock(s: State, r: nat, key: string, plan: Plan, now: u64, up: bool) returns (s': State)
    requires AtLock(s, r, key, plan, now) && s.clock == now
    ensures var c := s.reqs[r].cell;
            var spec := LeaseBook.CheckPlanned(map[key := s.cells[c].lease], s.store, key, plan, now, up);
            && c < |s'.cells| && r < |s'.reqs|
            && s'.reqs[r].phase == PhaseOf(spec.answer)
            && s'.store == spec.store && s'.cells[c] == s.cells[c].(lease := spec.leases[key])
            && s'.book == s.book
    ensures RunsFromLock(s, r, up, s')
  {
    var c := s.reqs[r].cell;
    var taken := Next(s, Acquire(r));
    if AnswersLocally(Roll(s.cells[c].lease, plan.window)) {
      s' := taken;
    } else {
      assert taken.cells[c] == s.cells[c].(lease := Roll(s.cells[c].lease, plan.window), guard := Sent(r));
      if up {
        var run := Next(taken, Execute(r));
        s' := Next(run, Deliver(r));
      } else {
        s' := Next(taken, Fail(r));
      }
    }
  }

  /**
   A request that meets no interference gets the book's answer, or the book's error if the backend is
   down, and leaves the book's lease and the book's store behind: the protocol refines the sequential
   `check`.
   */
  lemma UninterruptedCheck(s: State, replica: nat, key: string, quota: Quota, now: u64, up: bool) returns (s': State)
    requires Wf(s) && Unlocked(s, replica, key) && s.clock == now
    ensures RunsFromLock(Next(s, Arrive(replica, key, quota, now)), |s.reqs|, up, s')
    ensures var spec := LeaseBook.CheckSpec(BookOf(s, replica, key), s.store, key, quota, now, up);
            var r := |s.reqs|;
            && r < |s'.reqs| && s'.reqs[r].phase == PhaseOf(spec.answer)
            && s'.store == spec.store
            && (replica, key) in s'.book && BookOf(s', replica, key) == map[key := spec.leases[key]]
  {
    var plan := MakePlan(quota, now);
    var arrived := DoArrive(s, replica, key, plan, now);
    var c := arrived.reqs[|s.reqs|].cell;
    s' := FromLock(arrived, |s.reqs|, key, plan, now, up);
    assert arrived.book[(replica, key)] == c;
    if (replica, key) !in s.book {
      BlankStartsEmpty(s.store, key, plan, now, up);
    }
  }

  /** A key without a cell is served as if it had a blank one. */
  lemma BlankStartsEmpty(store: Store, key: string, plan: Plan, now: u64, up: bool)
    ensures LeaseBook.CheckPlanned(map[], store, key, plan, now, up)
            == LeaseBook.CheckPlanned(map[key := Blank(plan.window)], store, key, plan, now, up)
  {
    var a := LeaseBook.CheckPlanned(map[], store, key, plan, now, up);
    var b := LeaseBook.CheckPlanned(map[key := Blank(plan.window)], store, key, plan, now, up);
    assert a.leases == b.leases;
  }

  /**
   A prune of an unlocked cell is the book's: the step is possible exactly when the book drops the key,
   and then leaves what the book leaves. A locked cell is never taken.
   */
  lemma PruneIsTheBooks(s: State, replica: nat, key: string, now: u64, leaseMs: u64)
    requires Wf(s)
    ensures var step, book := Prune(replica, key, now, leaseMs), BookOf(s, replica, key);
            && (Enabled(s, step) <==> Unlocked(s, replica, key) && key in book &&
                                      key !in LeaseBook.PruneSpec(book, now, leaseMs))
            && (Enabled(s, step) ==>
                  && BookOf(Next(s, step), replica, key) == LeaseBook.PruneSpec(book, now, leaseMs)
                  && Next(s, step) == s.(book := s.book - {(replica, key)}))
  {
    if (replica, key) in s.book {
      assert BookOf(s, replica, key) == map[key := s.cells[s.book[(replica, key)]].lease];
    }
  }

  // ---------- Giving up ----------

  /**
   A claim that its caller gives up on is charged all the same, whether the script runs after the
   caller has gone or the reply gets lost: the store counts the grant, the ledger has it as lost or as
   an unheard refusal, the cell keeps its lease and is free, and the request ends in an error.
   */
  lemma GivingUpIsCharged(s: State, r: nat)
    requires Wf(s) && Awaits(s, r)
    ensures Enabled(s, Abandon(r)) && Enabled(Next(s, Abandon(r)), Execute(r))
    ensures Enabled(s, Execute(r)) && Enabled(Next(s, Execute(r)), LoseReply(r))
    ensures var gone, lost := Next(Next(s, Abandon(r)), Execute(r)), Next(Next(s, Execute(r)), LoseReply(r));
            var c, slot := s.reqs[r].cell, s.reqs[r].Slot();
            var (store, grant) := Claim(s.store, slot, s.reqs[r].plan, s.clock);
            && gone == lost
            && gone.store == store && gone.reqs == s.reqs[r := s.reqs[r].(phase := Errored)]
            && gone.cells == s.cells[c := s.cells[c].(guard := Free)]
            && Log(gone.history, slot).lost == Log(s.history, slot).lost + grant
            && Log(gone.history, slot).unheard == Log(s.history, slot).unheard + (if grant == 0 then 1 else 0)
  {
    GoneAfterAbandon(s, r);
    GoneAfterLoss(s, r);
  }

  function Gone(s: State, r: nat): State
    requires r < |s.reqs| && s.reqs[r].cell < |s.cells|
  {
    var c, slot := s.reqs[r].cell, s.reqs[r].Slot();
    var (store, grant) := Claim(s.store, slot, s.reqs[r].plan, s.clock);
    s.(store := store, reqs := s.reqs[r := s.reqs[r].(phase := Errored)],
       cells := s.cells[c := s.cells[c].(guard := Free)], history := Lose(Book(s, slot, grant), slot, grant))
  }

  lemma GoneAfterAbandon(s: State, r: nat)
    requires Wf(s) && Awaits(s, r)
    ensures Enabled(s, Abandon(r)) && Enabled(Next(s, Abandon(r)), Execute(r))
    ensures Next(Next(s, Abandon(r)), Execute(r)) == Gone(s, r)
  {
    var c, m := s.reqs[r].cell, Next(s, Abandon(r));
    assert m.reqs[r] == s.reqs[r].(phase := Abandoned);
    assert Next(m, Execute(r)).reqs == Gone(s, r).reqs;
    assert m.cells == Gone(s, r).cells;
  }

  lemma GoneAfterLoss(s: State, r: nat)
    requires Wf(s) && Awaits(s, r)
    ensures Enabled(s, Execute(r)) && Enabled(Next(s, Execute(r)), LoseReply(r))
    ensures Next(Next(s, Execute(r)), LoseReply(r)) == Gone(s, r)
  {
    var m := Next(s, Execute(r));
    assert Next(m, LoseReply(r)).cells == Gone(s, r).cells;
    assert Next(m, LoseReply(r)).reqs == Gone(s, r).reqs;
  }
}
