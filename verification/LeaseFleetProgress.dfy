/** Progress of the protocol: every request takes at most three steps, and none is ever stuck. */
module LeaseFleetProgress {
  import opened LeaseFleet
  import opened LeaseFleetSafety

  // ---------- Every request ends ----------

  /** The request that this step is about. */
  predicate About(step: Step, r: nat)
  {
    match step
    case Cancel(q) => q == r
    case Acquire(q) => q == r
    case Execute(q) => q == r
    case Fail(q) => q == r
    case Abandon(q) => q == r
    case Deliver(q) => q == r
    case LoseReply(q) => q == r
    case Arrive(_, _, _, _) => false
    case Prune(_, _, _, _) => false
    case Tick(_) => false
  }

  /** The steps a request may still take. */
  function Ahead(s: State, r: nat): nat
    requires r < |s.reqs|
  {
    match s.reqs[r].phase
    case Queued => 3
    case Working => if s.reqs[r].cell < |s.cells| && s.cells[s.reqs[r].cell].guard.Replied? then 1 else 2
    case Abandoned => 1
    case Decided(_) => 0
    case Errored => 0
  }

  lemma OwnStepIsProgress(s: State, step: Step, r: nat)
    requires Wf(s) && Enabled(s, step) && About(step, r)
    ensures r < |s.reqs| == |Next(s, step).reqs| && Ahead(Next(s, step), r) < Ahead(s, r)
  {
  }

  lemma OtherStepIsNone(s: State, step: Step, r: nat)
    requires Wf(s) && Enabled(s, step) && !About(step, r) && r < |s.reqs|
    ensures r < |Next(s, step).reqs| && Next(s, step).reqs[r] == s.reqs[r] && Ahead(Next(s, step), r) == Ahead(s, r)
  {
    RequestsPersist(s, step);
    assert RequestWf(s, r);
    match step
    case Acquire(q) => if s.reqs[r].phase.Working? { OtherLockStays(s, q, r); }
    case Execute(q) => if s.reqs[r].phase.Working? { OtherLockStays(s, q, r); }
    case Deliver(q) => if s.reqs[r].phase.Working? { OtherLockStays(s, q, r); }
    case LoseReply(q) => if s.reqs[r].phase.Working? { OtherLockStays(s, q, r); }
    case Fail(q) => if s.reqs[r].phase.Working? { OtherLockStays(s, q, r); }
    case Abandon(q) => if s.reqs[r].phase.Working? { OtherLockStays(s, q, r); }
    case Cancel(_) =>
    case Arrive(_, _, _, _) =>
    case Prune(_, _, _, _) =>
    case Tick(_) =>
  }

  /** Two requests that hold a lock, or take one, hold different cells. */
  lemma OtherLockStays(s: State, q: nat, r: nat)
    requires Wf(s) && q < |s.reqs| && r < |s.reqs| && q != r && s.reqs[r].phase.Working?
    ensures s.reqs[q].phase.Working? || (s.reqs[q].cell < |s.cells| && s.cells[s.reqs[q].cell].guard.Free?) ==>
              s.reqs[q].cell != s.reqs[r].cell
  {
    assert RequestWf(s, q) && RequestWf(s, r);
  }

  /** How many of the steps from `i` to `j` were about request `r`. */
  function StepsAbout(t: Trace, i: nat, j: nat, r: nat): nat
    requires i <= j <= |t.steps|
    decreases j
  {
    if i == j then 0 else StepsAbout(t, i, j - 1, r) + if About(t.steps[j - 1], r) then 1 else 0
  }

  /** In every run a request takes at most three steps, and an answer or error is final. */
  lemma {:induction false} AtMostThreeSteps(t: Trace, i: nat, j: nat, r: nat)
    requires IsRun(t) && i <= j < |t.states| && r < |t.states[i].reqs|
    ensures r < |t.states[j].reqs| && StepsAbout(t, i, j, r) + Ahead(t.states[j], r) <= Ahead(t.states[i], r) <= 3
    ensures Ahead(t.states[i], r) == 0 ==> t.states[j].reqs[r] == t.states[i].reqs[r]
    decreases j
  {
    if i < j {
      AtMostThreeSteps(t, i, j - 1, r);
      assert Moves(t.states[j - 1], t.steps[j - 1], t.states[j]);
      RunConserves(t, j - 1, t.states[j - 1].reqs[r].Slot());
      if About(t.steps[j - 1], r) {
        OwnStepIsProgress(t.states[j - 1], t.steps[j - 1], r);
      } else {
        OtherStepIsNone(t.states[j - 1], t.steps[j - 1], r);
      }
    }
  }

  // ---------- No request is ever stuck ----------

  ghost predicate Leads(s: State, steps: seq<Step>, s': State)
    decreases |steps|
  {
    if steps == [] then s == s' else Enabled(s, steps[0]) && Leads(Next(s, steps[0]), steps[1..], s')
  }

  lemma {:induction false} LeadsOn(s: State, first: seq<Step>, m: State, second: seq<Step>, s': State)
    requires Leads(s, first, m) && Leads(m, second, s')
    ensures Leads(s, first + second, s')
    decreases |first|
  {
    if first == [] {
      assert first + second == second;
    } else {
      assert (first + second)[1..] == first[1..] + second;
      LeadsOn(Next(s, first[0]), first[1..], m, second, s');
    }
  }

  /** Whoever holds a lock can be answered and let it go, whatever the others do. */
  lemma LockComesFree(s: State, c: nat) returns (steps: seq<Step>, s': State)
    requires Wf(s) && c < |s.cells|
    ensures Leads(s, steps, s') && |steps| <= 2 && Wf(s')
    ensures c < |s'.cells| && s'.cells[c].guard.Free?
    ensures !s.cells[c].guard.Free? ==> var h := s.cells[c].guard.req; h < |s'.reqs| && s'.reqs[h].phase.Decided?
    ensures forall r :: 0 <= r < |s.reqs| && s.reqs[r].phase.Queued? ==> r < |s'.reqs| && s'.reqs[r] == s.reqs[r]
  {
    steps, s' := [], s;
    if s.cells[c].guard.Sent? {
      var h := s.cells[c].guard.req;
      assert CellWf(s, c);
      var m := Next(s, Execute(h));
      StepKeepsWf(s, Execute(h));
      s' := Delivered(m, h);
      steps := [Execute(h), Deliver(h)];
      assert steps[1..] == [Deliver(h)] && [Deliver(h)][1..] == [];
    } else if s.cells[c].guard.Replied? {
      var h := s.cells[c].guard.req;
      assert CellWf(s, c);
      s' := Delivered(s, h);
      steps := [Deliver(h)];
      assert steps[1..] == [];
    }
  }

  lemma Delivered(s: State, r: nat) returns (s': State)
    requires Wf(s) && Answered(s, r)
    ensures s' == Next(s, Deliver(r)) && Wf(s') && s'.reqs[r].phase.Decided? && s'.cells[s.reqs[r].cell].guard.Free?
    ensures |s'.reqs| == |s.reqs| && |s'.cells| == |s.cells|
    ensures forall q :: 0 <= q < |s.reqs| && q != r ==> s'.reqs[q] == s.reqs[q]
  {
    s' := Next(s, Deliver(r));
    StepKeepsWf(s, Deliver(r));
  }

  /**
   Freedom from deadlock: in every well-formed state every request that still waits, for the lock or
   for its claim, can be brought to a decision in at most five steps of its cell.
   */
  lemma EveryRequestCanBeDecided(s: State, r: nat) returns (steps: seq<Step>, s': State)
    requires Wf(s) && r < |s.reqs| && (s.reqs[r].phase.Queued? || s.reqs[r].phase.Working?)
    ensures Leads(s, steps, s') && |steps| <= 5 && r < |s'.reqs| && s'.reqs[r].phase.Decided?
  {
    var c := s.reqs[r].cell;
    assert RequestWf(s, r);
    steps, s' := LockComesFree(s, c);
    if s.reqs[r].phase.Queued? {
      var m := s';
      assert RequestWf(m, r);
      var taken := Next(m, Acquire(r));
      StepKeepsWf(m, Acquire(r));
      assert [Acquire(r)][1..] == [];
      LeadsOn(s, steps, m, [Acquire(r)], taken);
      steps, s' := steps + [Acquire(r)], taken;
      if !taken.reqs[r].phase.Decided? {
        assert RequestWf(taken, r);
        var more, last := LockComesFree(taken, c);
        LeadsOn(s, steps, taken, more, last);
        steps, s' := steps + more, last;
      }
    }
  }
}
