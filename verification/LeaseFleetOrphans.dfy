/**
 A prune that orphans a cell in use: the run that shows why the costs counted in replicas need their
 condition on prunes.
 */
module LeaseFleetOrphans {
  import opened Wrappers
  import opened LeaseMath
  import opened LeaseCell
  import opened ClaimStore
  import opened Sums
  import opened LeaseFleet
  import opened LeaseFleetSafety
  import opened LeaseFleetTraffic
  import opened LeaseFleetCosts
  import opened LeaseFleetReplicas
  import opened LeaseFleetLimits

  const TwoPerSecond := Quota(2, 2, 1000)
  const Second: Slot := Slot("k", 1)
  const Early: Plan := RawPlan(1000, 0, 2, 2, 2000)
  const Now: Plan := RawPlan(1000, 1, 2, 2, 2000)
  const Idle := Request(0, "k", Early, 0, 0, Queued)

  function Wants(cell: nat, phase: Phase): Request { Request(cell, "k", Now, 1000, 0, phase) }

  function OnCell(lease: Lease, guard: Guard): Cell { Cell(0, "k", lease, guard) }

  const Yes: Phase := Decided(Allow)

  /** An old cell of replica 0 on which three requests of the next window wait, and a prune takes it. */
  const Pruned: State := State(
    [OnCell(Blank(0), Free)], map[], [Idle, Wants(0, Queued), Wants(0, Queued), Wants(0, Queued)], map[], 0, map[])

  function Waiting(n: nat): State
  {
    Pruned.(book := map[(0, "k") := 0], reqs := [Idle] + seq(n, _ => Wants(0, Queued)))
  }

  function Books(hits: nat, misses: nat): map<Slot, Ledger>
  {
    map[Slot("k", 0) := BlankLedger, Second := BlankLedger.(openedAt := Some(0), hits := hits, misses := misses)]
  }

  const Counted: Store := map[Second := Counter(2, 2000)]

  /** The first of them is served from the orphan, which keeps a token. */
  const Orphaned: State := Pruned.(
    cells := [OnCell(Lease(1, 1, false), Free)],
    reqs := [Idle, Wants(0, Yes), Wants(0, Queued), Wants(0, Queued)],
    store := Counted, history := Books(1, 0))

  /** A new request gets a new cell and is throttled, to retry after `wait`. */
  function Throttled(wait: nat): State
  {
    Orphaned.(
      cells := [OnCell(Lease(1, 1, false), Free), OnCell(Lease(1, 0, true), Free)],
      book := map[(0, "k") := 1],
      reqs := [Idle, Wants(0, Yes), Wants(0, Queued), Wants(0, Queued), Wants(1, Decided(Throttle(wait)))],
      history := Books(1, 1))
  }

  /** The orphan serves its last token, and its last request is refused again. */
  function RefusedAgain(wait: nat): State
  {
    Throttled(wait).(
      cells := [OnCell(Lease(1, 0, false), Replied(3, 0)), OnCell(Lease(1, 0, true), Free)],
      reqs := [Idle, Wants(0, Yes), Wants(0, Yes), Wants(0, Working), Wants(1, Decided(Throttle(wait)))],
      history := Books(1, 2))
  }

  function Ordered(slot: Slot): (State, Step) -> bool
  {
    (s: State, step: Step) => InOrder(s, step, slot)
  }

  lemma Plans()
    ensures MakePlan(TwoPerSecond, 0) == Early && MakePlan(TwoPerSecond, 1000) == Now
  {
  }

  lemma RunToPruned() returns (t: Trace)
    ensures IsRun(t) && Along(t, Ordered(Second)) && Last(t) == Pruned
  {
    Plans();
    var p, ask := Ordered(Second), Arrive(0, "k", TwoPerSecond, 1000);
    t := TakeStep(Trace([Initial], []), Arrive(0, "k", TwoPerSecond, 0), p);
    assert Last(t) == Waiting(0);
    t := TakeStep(t, ask, p);
    assert Last(t) == Waiting(1);
    t := TakeStep(t, ask, p);
    assert Last(t) == Waiting(2);
    t := TakeStep(t, ask, p);
    assert Last(t) == Waiting(3);
    t := TakeStep(t, Prune(0, "k", 1000, 1000), p);
    assert Last(t).book == map[];
  }

  lemma RunToOrphaned() returns (t: Trace)
    ensures IsRun(t) && Along(t, Ordered(Second)) && Last(t) == Orphaned
  {
    var p := Ordered(Second);
    t := RunToPruned();
    t := TakeStep(t, Acquire(1), p);
    assert Last(t) == Pruned.(cells := [OnCell(Blank(1), Sent(1))], history := map[Slot("k", 0) := BlankLedger],
                              reqs := [Idle, Wants(0, Working), Wants(0, Queued), Wants(0, Queued)]);
    assert Last(t).reqs[1].Slot() == Second && Claim(map[], Second, Now, 0) == (Counted, 2);
    t := TakeStep(t, Execute(1), p);
    assert Last(t) == Orphaned.(cells := [OnCell(Blank(1), Replied(1, 2))],
                                reqs := [Idle, Wants(0, Working), Wants(0, Queued), Wants(0, Queued)]);
    t := TakeStep(t, Deliver(1), p);
    assert Last(t).cells == Orphaned.cells && Last(t).reqs == Orphaned.reqs;
  }

  const AskedAnew: State := Orphaned.(
    cells := [Orphaned.cells[0], OnCell(Blank(1), Sent(4))],
    book := map[(0, "k") := 1],
    reqs := [Idle, Wants(0, Yes), Wants(0, Queued), Wants(0, Queued), Wants(1, Working)])

  lemma RunToAskedAnew() returns (t: Trace)
    ensures IsRun(t) && Along(t, Ordered(Second)) && Last(t) == AskedAnew
  {
    Plans();
    t := RunToOrphaned();
    t := TakeStep(t, Arrive(0, "k", TwoPerSecond, 1000), Ordered(Second));
    assert Last(t) == AskedAnew.(cells := [Orphaned.cells[0], OnCell(Blank(1), Free)],
                                 reqs := Orphaned.reqs + [Wants(1, Queued)]);
    t := TakeStep(t, Acquire(4), Ordered(Second));
    assert Last(t).cells == AskedAnew.cells && Last(t).reqs == AskedAnew.reqs;
  }

  const RefusedAnew: State := AskedAnew.(
    cells := [Orphaned.cells[0], OnCell(Blank(1), Replied(4, 0))], history := Books(1, 1))

  lemma RunToRefusedAnew() returns (t: Trace)
    ensures IsRun(t) && Along(t, Ordered(Second)) && Last(t) == RefusedAnew
  {
    t := RunToAskedAnew();
    assert AskedAnew.reqs[4].Slot() == Second && Claim(Counted, Second, Now, 0) == (Counted, 0);
    t := TakeStep(t, Execute(4), Ordered(Second));
    assert Last(t).cells == RefusedAnew.cells && Last(t).history == RefusedAnew.history;
  }

  lemma DeliverRefusal(t: Trace, r: nat) returns (t': Trace, wait: nat)
    requires IsRun(t) && Along(t, Ordered(Second)) && Answered(Last(t), r)
    requires Last(t).cells[Last(t).reqs[r].cell].guard.grant == 0
    ensures IsRun(t') && Along(t', Ordered(Second))
    ensures var s, c := Last(t), Last(t).reqs[r].cell;
            Last(t') == s.(cells := s.cells[c := s.cells[c].(lease := s.cells[c].lease.(exhausted := true), guard := Free)],
                           reqs := s.reqs[r := s.reqs[r].(phase := Decided(Throttle(wait)))])
  {
    wait := UntilNextWindow(Last(t).reqs[r].now, Last(t).reqs[r].plan.leaseMs);
    t' := TakeStep(t, Deliver(r), Ordered(Second));
  }

  lemma RunToThrottled() returns (t: Trace, wait: nat)
    ensures IsRun(t) && Along(t, Ordered(Second)) && Last(t) == Throttled(wait)
  {
    t := RunToRefusedAnew();
    t, wait := DeliverRefusal(t, 4);
    assert Last(t).cells == Throttled(wait).cells && Last(t).reqs == Throttled(wait).reqs;
  }

  function AskedAgain(wait: nat): State
  {
    Throttled(wait).(cells := [OnCell(Blank(1), Sent(3)), OnCell(Lease(1, 0, true), Free)], reqs := RefusedAgain(wait).reqs)
  }

  function Emptied(wait: nat): State
  {
    Throttled(wait).(
      cells := [OnCell(Blank(1), Free), OnCell(Lease(1, 0, true), Free)],
      reqs := [Idle, Wants(0, Yes), Wants(0, Yes), Wants(0, Queued), Wants(1, Decided(Throttle(wait)))])
  }

  lemma RunToEmptied() returns (t: Trace, wait: nat)
    ensures IsRun(t) && Along(t, Ordered(Second)) && Last(t) == Emptied(wait)
  {
    t, wait := RunToThrottled();
    t := TakeStep(t, Acquire(2), Ordered(Second));
    assert Last(t).cells == Emptied(wait).cells && Last(t).reqs == Emptied(wait).reqs;
  }

  lemma RunToAskedAgain() returns (t: Trace, wait: nat)
    ensures IsRun(t) && Along(t, Ordered(Second)) && Last(t) == AskedAgain(wait)
  {
    t, wait := RunToEmptied();
    t := TakeStep(t, Acquire(3), Ordered(Second));
    assert Last(t).cells == AskedAgain(wait).cells && Last(t).reqs == AskedAgain(wait).reqs;
  }

  lemma RunToRefusedAgain() returns (t: Trace, wait: nat)
    ensures IsRun(t) && Along(t, Ordered(Second)) && Last(t) == RefusedAgain(wait)
  {
    t, wait := RunToAskedAgain();
    assert AskedAgain(wait).reqs[3].Slot() == Second && Claim(Counted, Second, Now, 0) == (Counted, 0);
    t := TakeStep(t, Execute(3), Ordered(Second));
    assert Last(t).cells == RefusedAgain(wait).cells && Last(t).history == RefusedAgain(wait).history;
  }

  lemma OneReplica(s: State)
    requires s.cells != [] && (forall c :: 0 <= c < |s.cells| ==> s.cells[c].replica == 0)
    requires 0 in CellsFor(s, Second)
    ensures ReplicasFor(s, Second) == {0}
  {
    assert s.cells[0].replica in ReplicasFor(s, Second);
  }

  lemma ServedInThrottled(wait: nat)
    ensures Served(Throttled(wait), Second) == 1
  {
    var f, g := AdmittedOn(Second), GrantedOn(Second);
    var q, c := Throttled(wait).reqs, Throttled(wait).cells;
    assert q == [q[0]] + [q[1]] + [q[2]] + [q[3]] + [q[4]] && [q[0]] == [] + [q[0]];
    SumOfAppend([q[0]] + [q[1]] + [q[2]] + [q[3]], q[4], f);
    SumOfAppend([q[0]] + [q[1]] + [q[2]], q[3], f);
    SumOfAppend([q[0]] + [q[1]], q[2], f);
    SumOfAppend([q[0]], q[1], f);
    SumOfAppend([], q[0], f);
    assert c == [c[0]] + [c[1]] && [c[0]] == [] + [c[0]];
    SumOfAppend([c[0]], c[1], g);
    SumOfAppend([], c[0], g);
  }

  /**
   A prune that takes a cell on which requests still wait breaks both costs, with one replica, windows
   in order and nothing lost: a throttle leaves a token of a budget of two unserved, and the window
   goes on to cost three claims where two would do.
   */
  lemma OrphansBreakCosts() returns (t: Trace, t': Trace)
    ensures IsRun(t) && Along(t, Ordered(Second)) && IsRun(t') && Along(t', Ordered(Second))
    ensures Uniform(Last(t), Second, 2, 2) && Uniform(Last(t'), Second, 2, 2)
    ensures Resets(Last(t), Second) == 0 && Resets(Last(t'), Second) == 0
    ensures |ReplicasFor(Last(t), Second)| == 1 && |ReplicasFor(Last(t'), Second)| == 1
    ensures ThrottledOn(Last(t), 4, Second) && Log(Last(t).history, Second).lost == 0 && Served(Last(t), Second) < 2
    ensures var l := Log(Last(t').history, Second); l.unheard == 0 && l.hits + l.misses > (2 + 2 - 1) / 2 + 1
  {
    var wait, wait';
    t, wait := RunToThrottled();
    t', wait' := RunToRefusedAgain();
    ServedInThrottled(wait);
    assert Throttled(wait).reqs[1].Slot() == Second && RefusedAgain(wait').reqs[1].Slot() == Second;
    OneReplica(Throttled(wait));
    OneReplica(RefusedAgain(wait'));
  }
}
