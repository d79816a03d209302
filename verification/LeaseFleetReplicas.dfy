/**
 The same costs counted in replicas. A replica may use several cells for one slot, because a prune
 can orphan the cell that requests still hold; it uses one exactly if no prune comes between.
 */
module LeaseFleetReplicas {
  import opened LeaseMath
  import opened ClaimStore
  import opened LeaseFleet
  import opened LeaseFleetSafety
  import opened LeaseFleetTraffic
  import opened LeaseFleetCosts

  /** The replicas on which requests on `slot` have arrived. */
  function ReplicasFor(s: State, slot: Slot): set<nat>
  {
    set c | c in CellsFor(s, slot) && c < |s.cells| :: s.cells[c].replica
  }

  /** Each replica uses one cell for the slot. */
  ghost predicate OneCellEach(s: State, slot: Slot)
  {
    forall c, d :: c in CellsFor(s, slot) && d in CellsFor(s, slot) && c < |s.cells| && d < |s.cells| ==>
      s.cells[c].replica == s.cells[d].replica ==> c == d
  }

  lemma {:induction false} CountReplicas(cells: seq<Cell>, used: set<nat>, replicas: set<nat>)
    requires forall c :: c in used ==> c < |cells| && cells[c].replica in replicas
    requires forall c, d :: c in used && d in used && cells[c].replica == cells[d].replica ==> c == d
    ensures |used| <= |replicas|
    decreases |used|
  {
    if used != {} {
      var c :| c in used;
      CountReplicas(cells, used - {c}, replicas - {cells[c].replica});
    }
  }

  // ---------- One cell per replica ----------

  predicate ArrivesOn(step: Step, replica: nat, slot: Slot)
  {
    step.Arrive? && step.replica == replica && Slot(step.key, MakePlan(step.quota, step.now).window) == slot
  }

  /** This step takes cell `c`, which requests on `slot` have looked up, out of its replica's book. */
  predicate Orphans(s: State, step: Step, c: nat, slot: Slot)
  {
    step.Prune? && step.key == slot.key && (step.replica, step.key) in s.book &&
    s.book[(step.replica, step.key)] == c && c in CellsFor(s, slot)
  }

  /** After a prune has taken a cell of the slot, no further request on the slot arrives at that replica. */
  ghost predicate SparesSlot(t: Trace, i: nat, slot: Slot)
    requires IsRun(t) && i < |t.states|
  {
    forall k, j, c :: 0 <= k < j < i && Orphans(t.states[k], t.steps[k], c, slot) ==>
      !ArrivesOn(t.steps[j], t.steps[k].replica, slot)
  }

  predicate Mapped(s: State, c: nat, slot: Slot)
  {
    c < |s.cells| && (s.cells[c].replica, slot.key) in s.book && s.book[(s.cells[c].replica, slot.key)] == c
  }

  /** Only an arrival on the slot adds a cell: the one its replica then maps. */
  lemma NewCellFor(s: State, step: Step, c: nat, slot: Slot)
    requires Wf(s) && Enabled(s, step) && c in CellsFor(Next(s, step), slot) && c !in CellsFor(s, slot)
    ensures c < |Next(s, step).cells| && Mapped(Next(s, step), c, slot)
    ensures ArrivesOn(step, Next(s, step).cells[c].replica, slot)
  {
    var s' := Next(s, step);
    var r :| 0 <= r < |s'.reqs| && s'.reqs[r].Slot() == slot && s'.reqs[r].cell == c;
    RequestsPersist(s, step);
  }

  /** A mapped cell stays mapped until a prune takes it. */
  lemma StaysMapped(s: State, step: Step, c: nat, slot: Slot)
    requires Wf(s) && Enabled(s, step) && c in CellsFor(Next(s, step), slot)
    ensures var s' := Next(s, step);
            && c < |s'.cells|
            && (!Mapped(s', c, slot) ==>
                  && c in CellsFor(s, slot) && c < |s.cells| && s'.cells[c].replica == s.cells[c].replica
                  && (Mapped(s, c, slot) ==> Orphans(s, step, c, slot) && step.replica == s.cells[c].replica))
  {
    CellsPersist(s, step);
    if c in CellsFor(s, slot) {
      CellOfSlot(s, c, slot);
    } else {
      NewCellFor(s, step, c, slot);
    }
  }

  lemma {:induction false} MappedOrOrphaned(t: Trace, i: nat, slot: Slot, c: nat) returns (k: nat)
    requires IsRun(t) && i < |t.states| && c in CellsFor(t.states[i], slot)
    ensures c < |t.states[i].cells|
    ensures Mapped(t.states[i], c, slot) ||
            (k < i && Orphans(t.states[k], t.steps[k], c, slot) && t.steps[k].replica == t.states[i].cells[c].replica)
  {
    k := 0;
    if i > 0 {
      var s, step := t.states[i - 1], t.steps[i - 1];
      assert Moves(s, step, t.states[i]);
      RunConserves(t, i - 1, slot);
      StaysMapped(s, step, c, slot);
      if !Mapped(t.states[i], c, slot) {
        if Mapped(s, c, slot) {
          k := i - 1;
        } else {
          k := MappedOrOrphaned(t, i - 1, slot, c);
        }
      }
    }
  }

  lemma {:induction false} SparedSlotHasOneCell(t: Trace, i: nat, slot: Slot)
    requires IsRun(t) && i < |t.states| && SparesSlot(t, i, slot)
    ensures OneCellEach(t.states[i], slot)
  {
    if i > 0 {
      var s, step, s' := t.states[i - 1], t.steps[i - 1], t.states[i];
      assert Moves(s, step, s');
      SparedSlotHasOneCell(t, i - 1, slot);
      RunConserves(t, i - 1, slot);
      CellsPersist(s, step);
      forall c, d | c in CellsFor(s', slot) && d in CellsFor(s', slot) && c < |s'.cells| && d < |s'.cells| &&
                    s'.cells[c].replica == s'.cells[d].replica
        ensures c == d
      {
        if c !in CellsFor(s, slot) {
          SameCell(t, i, slot, d, c);
        } else if d !in CellsFor(s, slot) {
          SameCell(t, i, slot, c, d);
        } else {
          CellOfSlot(s, c, slot);
          CellOfSlot(s, d, slot);
        }
      }
    }
  }

  /** A cell looked up now is the one the replica used for the slot before. */
  lemma SameCell(t: Trace, i: nat, slot: Slot, c: nat, latest: nat)
    requires IsRun(t) && 0 < i < |t.states| && SparesSlot(t, i, slot)
    requires c in CellsFor(t.states[i], slot) && latest in CellsFor(t.states[i], slot)
    requires latest !in CellsFor(t.states[i - 1], slot)
    requires c < |t.states[i].cells| && latest < |t.states[i].cells|
    requires t.states[i].cells[c].replica == t.states[i].cells[latest].replica
    ensures c == latest
  {
    LatestCell(t, i, slot, latest);
    var k := MappedOrOrphaned(t, i, slot, c);
  }

  lemma LatestCell(t: Trace, i: nat, slot: Slot, latest: nat)
    requires IsRun(t) && 0 < i < |t.states|
    requires latest in CellsFor(t.states[i], slot) && latest !in CellsFor(t.states[i - 1], slot)
    ensures Mapped(t.states[i], latest, slot) && ArrivesOn(t.steps[i - 1], t.states[i].cells[latest].replica, slot)
  {
    assert Moves(t.states[i - 1], t.steps[i - 1], t.states[i]);
    RunConserves(t, i - 1, slot);
    NewCellFor(t.states[i - 1], t.steps[i - 1], latest, slot);
  }

  lemma {:induction false} NotMappedAgain(t: Trace, k: nat, m: nat, replica: nat, key: string)
    requires IsRun(t) && k < m < |t.states| && t.steps[k].Prune? && t.steps[k].replica == replica && t.steps[k].key == key
    ensures |t.states[k].cells| <= |t.states[m].cells|
    ensures (replica, key) in t.states[m].book ==> |t.states[k].cells| <= t.states[m].book[(replica, key)]
    decreases m
  {
    assert Moves(t.states[m - 1], t.steps[m - 1], t.states[m]);
    CellsPersist(t.states[m - 1], t.steps[m - 1]);
    if m > k + 1 {
      NotMappedAgain(t, k, m - 1, replica, key);
    }
  }

  lemma {:induction false} CellsForLast(t: Trace, j: nat, i: nat, slot: Slot)
    requires IsRun(t) && j <= i < |t.states|
    ensures CellsFor(t.states[j], slot) <= CellsFor(t.states[i], slot)
    ensures |t.states[j].cells| <= |t.states[i].cells|
    ensures forall c :: 0 <= c < |t.states[j].cells| ==> t.states[i].cells[c].replica == t.states[j].cells[c].replica
  {
    if j < i {
      CellsForLast(t, j, i - 1, slot);
      assert Moves(t.states[i - 1], t.steps[i - 1], t.states[i]);
      CellsForGrow(t.states[i - 1], t.steps[i - 1], slot);
      CellsPersist(t.states[i - 1], t.steps[i - 1]);
    }
  }

  /** An arrival after a prune took the replica's cell of the slot gives the replica a second one. */
  lemma SecondCell(t: Trace, i: nat, slot: Slot, k: nat, j: nat, c: nat)
    requires IsRun(t) && i < |t.states| && k < j < i
    requires Orphans(t.states[k], t.steps[k], c, slot) && ArrivesOn(t.steps[j], t.steps[k].replica, slot)
    ensures !OneCellEach(t.states[i], slot)
  {
    var replica, s, s' := t.steps[k].replica, t.states[j], t.states[j + 1];
    RunConserves(t, k, slot);
    RunConserves(t, j, slot);
    NotMappedAgain(t, k, j, replica, slot.key);
    assert Moves(s, t.steps[j], s');
    var d := s'.reqs[|s.reqs|].cell;
    assert s'.reqs[|s.reqs|].Slot() == slot && d in CellsFor(s', slot);
    assert d < |s'.cells| && s'.cells[d].replica == replica && d != c;
    CellsForLast(t, k, i, slot);
    CellsForLast(t, j + 1, i, slot);
  }

  /** A replica uses one cell for a slot exactly if no prune comes between its requests on the slot. */
  lemma OneCellExactlyWhen(t: Trace, i: nat, slot: Slot)
    requires IsRun(t) && i < |t.states|
    ensures OneCellEach(t.states[i], slot) <==> SparesSlot(t, i, slot)
  {
    if SparesSlot(t, i, slot) {
      SparedSlotHasOneCell(t, i, slot);
    } else {
      var k, j, c :| 0 <= k < j < i && Orphans(t.states[k], t.steps[k], c, slot) &&
                     ArrivesOn(t.steps[j], t.steps[k].replica, slot);
      SecondCell(t, i, slot, k, j, c);
    }
  }

  lemma CellsPerReplica(t: Trace, i: nat, slot: Slot)
    requires IsRun(t) && i < |t.states| && SparesSlot(t, i, slot)
    ensures |CellsFor(t.states[i], slot)| <= |ReplicasFor(t.states[i], slot)|
  {
    var s := t.states[i];
    SparedSlotHasOneCell(t, i, slot);
    RunConserves(t, i, slot);
    forall c | c in CellsFor(s, slot) ensures c < |s.cells| && s.cells[c].replica in ReplicasFor(s, slot) {
      CellOfSlot(s, c, slot);
    }
    CountReplicas(s.cells, CellsFor(s, slot), ReplicasFor(s, slot));
  }

  // ---------- Costs ----------

  /**
   A window costs the store at most `ceil(budget / chunk)` claims, one for each replica that serves
   it, and those refused claims whose answer nobody received.
   */
  lemma ClaimsPerWindow(t: Trace, i: nat, slot: Slot, b: nat, w: nat)
    requires IsRun(t) && i < |t.states| && 0 < w
    requires Uniform(t.states[i], slot, b, w) && Resets(t.states[i], slot) == 0
    requires forall k :: 0 <= k < i ==> InOrder(t.states[k], t.steps[k], slot)
    requires SparesSlot(t, i, slot)
    ensures var l := Log(t.states[i].history, slot);
            l.hits + l.misses <= (b + w - 1) / w + |ReplicasFor(t.states[i], slot)| + l.unheard
  {
    ClaimsAmortised(t, i, slot, b, w);
    CellsPerReplica(t, i, slot);
  }

  /**
   A throttle leaves at most a chunk less one for each other replica that serves the slot unserved,
   beyond what was lost.
   */
  lemma StrandingPerReplica(t: Trace, i: nat, slot: Slot, b: nat, w: nat, r: nat)
    requires IsRun(t) && i < |t.states| && 0 < w
    requires Uniform(t.states[i], slot, b, w) && Resets(t.states[i], slot) == 0
    requires forall k :: 0 <= k < i ==> InOrder(t.states[k], t.steps[k], slot)
    requires SparesSlot(t, i, slot) && ThrottledOn(t.states[i], r, slot)
    ensures b - (|ReplicasFor(t.states[i], slot)| - 1) * (w - 1)
            <= Served(t.states[i], slot) + Log(t.states[i].history, slot).lost <= b
  {
    BoundedStranding(t, i, slot, b, w, r);
    CellsPerReplica(t, i, slot);
    MulMonotone(|CellsFor(t.states[i], slot)| - 1, |ReplicasFor(t.states[i], slot)| - 1, w - 1);
  }
}
