/**
 The lease protocol as a state machine: any number of replicas, each with a map from key to a
 lock-guarded lease cell, and one shared counter store.

 `check` is cut into its atomic pieces: look the cell up (inserting it if missing), take the
 lock and answer locally or send a claim, the store runs the script, the reply is delivered.
 Around them the environment may do anything the deployment can: requests queue on a lock and
 are cancelled there, claims fail before or after the script ran, a caller gives up on a claim
 that still executes later, replies are lost, any replica's clock reads any value, prune runs
 with any window length and orphans cells that queued requests still hold, and counters expire.
 */
module LeaseFleet {
  import opened Wrappers
  import opened LeaseMath
  import opened LeaseCell
  import opened ClaimStore

  /** A cell's lock, with the progress of the claim its holder is waiting for. */
  datatype Guard = Free | Sent(req: nat) | Replied(req: nat, grant: nat)

  datatype Cell = Cell(replica: nat, key: string, lease: Lease, guard: Guard)

  datatype Phase =
    | Queued                      // waiting for the cell's lock
    | Working                     // holds the lock; the claim's progress is in the cell's guard
    | Abandoned                   // gave up on a claim that the store may still execute
    | Decided(decision: Decision)
    | Errored

  /** A request: the cell it looked up, its replica's clock reading, and the store clock on arrival. */
  datatype Request = Request(cell: nat, key: string, plan: Plan, now: u64, arrived: nat, phase: Phase) {
    function Slot(): Slot { ClaimStore.Slot(key, plan.window) }
  }

  /** What happened to one slot so far, beyond what cells and counter show. */
  datatype Ledger = Ledger(
    lost: nat,           // tokens granted to a reply nobody received
    unheard: nat,        // refusals nobody received
    discarded: nat,      // tokens dropped when a cell moved to another window
    forgotten: nat,      // tokens counted by counters that have since expired
    resets: nat,         // claims that found an expired counter
    openedAt: Option<nat>, // store time of the first grant
    hits: nat,           // claims granted at least one token
    misses: nat)         // claims granted none

  const BlankLedger := Ledger(0, 0, 0, 0, 0, None, 0, 0)

  datatype State = State(
    cells: seq<Cell>,                 // every cell ever created; orphaned cells stay
    book: map<(nat, string), nat>,    // per replica and key, the mapped cell
    reqs: seq<Request>,
    store: Store,
    clock: nat,                       // the store's clock
    history: map<Slot, Ledger>)

  const Initial := State([], map[], [], map[], 0, map[])

  datatype Step =
    | Arrive(replica: nat, key: string, quota: Quota, now: u64)
    | Cancel(req: nat)
    | Acquire(req: nat)
    | Execute(req: nat)
    | Fail(req: nat)
    | Abandon(req: nat)
    | Deliver(req: nat)
    | LoseReply(req: nat)
    | Prune(replica: nat, key: string, now: u64, leaseMs: u64)
    | Tick(ms: nat)

  function Log(history: map<Slot, Ledger>, slot: Slot): Ledger
  {
    if slot in history then history[slot] else BlankLedger
  }

  function Discard(history: map<Slot, Ledger>, slot: Slot, tokens: nat): map<Slot, Ledger>
  {
    var l := Log(history, slot);
    history[slot := l.(discarded := l.discarded + tokens)]
  }

  /** A reply that nobody receives. */
  function Lose(history: map<Slot, Ledger>, slot: Slot, grant: nat): map<Slot, Ledger>
  {
    var l := Log(history, slot);
    history[slot := if grant == 0 then l.(unheard := l.unheard + 1) else l.(lost := l.lost + grant)]
  }

  /** Bookkeeping of one executed claim. */
  function Book(s: State, slot: Slot, grant: nat): map<Slot, Ledger>
  {
    var l := Log(s.history, slot);
    var aged := if Expired(s.store, slot, s.clock)
                then l.(forgotten := l.forgotten + Count(s.store, slot), resets := l.resets + 1)
                else l;
    var next := if grant == 0 then aged.(misses := aged.misses + 1)
                else aged.(hits := aged.hits + 1,
                           openedAt := if aged.openedAt.None? then Some(s.clock) else aged.openedAt);
    s.history[slot := next]
  }

  predicate Enabled(s: State, step: Step)
  {
    match step
    case Arrive(_, _, _, _) => true
    case Cancel(r) => r < |s.reqs| && s.reqs[r].phase.Queued?
    case Acquire(r) =>
      r < |s.reqs| && s.reqs[r].phase.Queued? && s.reqs[r].cell < |s.cells| && s.cells[s.reqs[r].cell].guard.Free?
    case Execute(r) => r < |s.reqs| && (s.reqs[r].phase.Abandoned? || Awaits(s, r))
    case Fail(r) => Awaits(s, r)
    case Abandon(r) => Awaits(s, r)
    case Deliver(r) => Answered(s, r)
    case LoseReply(r) => Answered(s, r)
    case Prune(replica, key, now, leaseMs) =>
      && (replica, key) in s.book
      && var c := s.book[(replica, key)];
         c < |s.cells| && s.cells[c].guard.Free? && !SurvivesPrune(s.cells[c].lease, now, leaseMs)
    case Tick(_) => true
  }

  /** Request `r` holds its cell and its claim has not been executed. */
  predicate Awaits(s: State, r: nat)
  {
    r < |s.reqs| && s.reqs[r].phase.Working? && s.reqs[r].cell < |s.cells| &&
    s.cells[s.reqs[r].cell].guard == Sent(r)
  }

  /** Request `r` holds its cell and the store's reply is on its way. */
  predicate Answered(s: State, r: nat)
  {
    r < |s.reqs| && s.reqs[r].phase.Working? && s.reqs[r].cell < |s.cells| &&
    s.cells[s.reqs[r].cell].guard.Replied? && s.cells[s.reqs[r].cell].guard.req == r
  }

  function Next(s: State, step: Step): State
    requires Enabled(s, step)
  {
    match step
    case Arrive(replica, key, quota, now) => DoArrive(s, replica, key, MakePlan(quota, now), now)
    case Cancel(r) => s.(reqs := s.reqs[r := s.reqs[r].(phase := Errored)])
    case Acquire(r) => DoAcquire(s, r)
    case Execute(r) => DoExecute(s, r)
    case Fail(r) => Release(s, r, s.cells[s.reqs[r].cell].lease, Errored)
    case Abandon(r) => Release(s, r, s.cells[s.reqs[r].cell].lease, Abandoned)
    case Deliver(r) => DoDeliver(s, r)
    case LoseReply(r) =>
      var cell := s.cells[s.reqs[r].cell];
      Release(s, r, cell.lease, Errored).(history := Lose(s.history, s.reqs[r].Slot(), cell.guard.grant))
    case Prune(replica, key, _, _) => s.(book := s.book - {(replica, key)})
    case Tick(ms) => s.(clock := s.clock + ms)
  }

  function DoArrive(s: State, replica: nat, key: string, plan: Plan, now: u64): State
  {
    if (replica, key) in s.book then
      s.(reqs := s.reqs + [Request(s.book[(replica, key)], key, plan, now, s.clock, Queued)])
    else
      s.(cells := s.cells + [Cell(replica, key, Blank(plan.window), Free)],
         book := s.book[(replica, key) := |s.cells|],
         reqs := s.reqs + [Request(|s.cells|, key, plan, now, s.clock, Queued)])
  }

  function DoAcquire(s: State, r: nat): State
    requires Enabled(s, Acquire(r))
  {
    var req := s.reqs[r];
    var cell := s.cells[req.cell];
    var lease := Roll(cell.lease, req.plan.window);
    var history := if cell.lease.window == req.plan.window then s.history
                   else Discard(s.history, Slot(cell.key, cell.lease.window), cell.lease.remaining);
    if AnswersLocally(lease) then
      var (after, decision) := Spend(lease, req.now, req.plan.leaseMs);
      Release(s, r, after, Decided(decision)).(history := history)
    else
      s.(cells := s.cells[req.cell := cell.(lease := lease, guard := Sent(r))],
         reqs := s.reqs[r := req.(phase := Working)],
         history := history)
  }

  function DoExecute(s: State, r: nat): State
    requires Enabled(s, Execute(r))
  {
    var req := s.reqs[r];
    var slot := req.Slot();
    var (store, grant) := Claim(s.store, slot, req.plan, s.clock);
    var history := Book(s, slot, grant);
    if req.phase.Abandoned? then
      s.(store := store, reqs := s.reqs[r := req.(phase := Errored)], history := Lose(history, slot, grant))
    else
      s.(store := store,
         cells := s.cells[req.cell := s.cells[req.cell].(guard := Replied(r, grant))],
         history := history)
  }

  function DoDeliver(s: State, r: nat): State
    requires Answered(s, r)
  {
    var req := s.reqs[r];
    var cell := s.cells[req.cell];
    var (lease, decision) := Settle(cell.lease, cell.guard.grant, req.now, req.plan.leaseMs);
    Release(s, r, lease, Decided(decision))
  }

  /** Store the lease, drop the lock and move the request on. */
  function Release(s: State, r: nat, lease: Lease, phase: Phase): State
    requires r < |s.reqs| && s.reqs[r].cell < |s.cells|
  {
    var c := s.reqs[r].cell;
    s.(cells := s.cells[c := s.cells[c].(lease := lease, guard := Free)],
       reqs := s.reqs[r := s.reqs[r].(phase := phase)])
  }

  predicate Moves(s: State, step: Step, s': State)
  {
    Enabled(s, step) && s' == Next(s, step)
  }

  /** A run of the fleet: the states it passes through and the step taken out of each but the last. */
  datatype Trace = Trace(states: seq<State>, steps: seq<Step>)

  ghost predicate IsRun(t: Trace)
  {
    && |t.states| == |t.steps| + 1
    && t.states[0] == Initial
    && forall i :: 0 <= i < |t.steps| ==> Moves(t.states[i], t.steps[i], t.states[i + 1])
  }
}
