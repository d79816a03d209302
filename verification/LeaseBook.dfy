/**
 One replica's lease book as an object: a map from key to lease, updated in place by `check` and
 `prune`, drawing on a shared claim source. Served one request at a time, it is indistinguishable
 from the plain fixed-window counter it speeds up.
 */
module LeaseBook {
  import opened Wrappers
  import opened LeaseMath
  import opened LeaseCell
  import opened ClaimStore

  type Leases = map<string, Lease>

  datatype Answer = Answered(decision: Decision) | Unavailable

  /** What one `check` leaves behind, and whether it went to the backend. */
  datatype Checked = Checked(leases: Leases, store: Store, answer: Answer, claimed: bool)

  /** The specification of `check`; `up` says whether the backend answers. */
  function CheckSpec(leases: Leases, store: Store, key: string, quota: Quota, now: u64, up: bool): Checked
  {
    CheckPlanned(leases, store, key, MakePlan(quota, now), now, up)
  }

  function CheckPlanned(leases: Leases, store: Store, key: string, plan: Plan, now: u64, up: bool): Checked
  {
    var lease := Roll(if key in leases then leases[key] else Blank(plan.window), plan.window);
    if AnswersLocally(lease) then
      var (after, decision) := Spend(lease, now, plan.leaseMs);
      Checked(leases[key := after], store, Answered(decision), false)
    else if !up then
      Checked(leases[key := lease], store, Unavailable, true)
    else
      var (store', granted) := Claim(store, Slot(key, plan.window), plan, now);
      var (after, decision) := Settle(lease, granted, now, plan.leaseMs);
      Checked(leases[key := after], store', Answered(decision), true)
  }

  function PruneSpec(leases: Leases, now: u64, leaseMs: u64): Leases
  {
    map key | key in leases && SurvivesPrune(leases[key], now, leaseMs) :: leases[key]
  }

  /** The shared claim source: the counters and how often it was asked. */
  class ClaimSource {
    var store: Store
    var calls: nat

    constructor ()
      ensures store == map[] && calls == 0
    {
      store := map[];
      calls := 0;
    }

    /** Atomically leases up to `plan.want` tokens of the slot's budget; fails when the backend is down. */
    method Claim(slot: Slot, plan: Plan, clock: nat, up: bool) returns (ok: bool, granted: nat)
      modifies this
      ensures calls == old(calls) + 1 && ok == up
      ensures if up then (store, granted) == ClaimStore.Claim(old(store), slot, plan, clock) else store == old(store)
    {
      calls := calls + 1;
      ok, granted := up, 0;
      if up {
        var current := Current(store, slot, clock);
        if current < plan.budget {
          granted := plan.budget - current;
          if granted > plan.want {
            granted := plan.want;
          }
          store := store[slot := Counter(current + granted, clock + plan.ttlMs)];
        }
      }
    }
  }

  class Book {
    var leases: Leases

    constructor ()
      ensures leases == map[]
    {
      leases := map[];
    }

    method Check(key: string, quota: Quota, claims: ClaimSource, now: u64, up: bool) returns (answer: Answer)
      modifies this, claims
      ensures CheckSpec(old(leases), old(claims.store), key, quota, now, up)
              == Checked(leases, claims.store, answer, claims.calls == old(claims.calls) + 1)
      ensures claims.calls <= old(claims.calls) + 1
      ensures key in leases && forall other :: other != key ==>
                (other in leases <==> other in old(leases)) && (other in leases ==> leases[other] == old(leases)[other])
    {
      var plan := MakePlan(quota, now);
      if key !in leases {
        leases := leases[key := Blank(plan.window)];
      }
      var lease := leases[key];
      if lease.window != plan.window {
        lease := Lease(plan.window, 0, false);
      }
      if lease.remaining > 0 {
        leases := leases[key := lease.(remaining := lease.remaining - 1)];
        return Answered(Allow);
      }
      if lease.exhausted {
        leases := leases[key := lease];
        return Answered(Throttle(UntilNextWindow(now, plan.leaseMs)));
      }
      var ok, granted := claims.Claim(Slot(key, plan.window), plan, now, up);
      if !ok {
        leases := leases[key := lease];
        answer := Unavailable;
      } else if granted == 0 {
        leases := leases[key := lease.(exhausted := true)];
        answer := Answered(Throttle(UntilNextWindow(now, plan.leaseMs)));
      } else {
        leases := leases[key := lease.(remaining := granted - 1)];
        answer := Answered(Allow);
      }
    }

    /** Keeps exactly the entries whose window has not passed. */
    method Prune(now: u64, leaseMs: u64)
      modifies this
      ensures leases == PruneSpec(old(leases), now, leaseMs)
      ensures forall key :: key in leases <==> key in old(leases) && now / Max(leaseMs, 1) <= old(leases)[key].window
      ensures forall key :: key in leases ==> leases[key] == old(leases)[key]
    {
      var current := now / Max(leaseMs, 1);
      var keys := leases.Keys;
      var kept: Leases := map[];
      while keys != {}
        invariant keys <= leases.Keys && leases == old(leases)
        invariant kept == map key | key in leases && key !in keys && SurvivesPrune(leases[key], now, leaseMs) :: leases[key]
        decreases keys
      {
        var key :| key in keys;
        if leases[key].window >= current {
          kept := kept[key := leases[key]];
        }
        keys := keys - {key};
      }
      leases := kept;
    }
  }

  // ---------- Histories of one replica ----------

  /** A request, which finds the backend up or down, or a prune with the quota's window length. */
  datatype Event = Request(key: string, now: u64, up: bool) | Prune(now: u64)

  /** The book and the store after some traffic on this replica. */
  function After(leases: Leases, store: Store, quota: Quota, events: seq<Event>): (Leases, Store)
    decreases |events|
  {
    if events == [] then (leases, store) else
    match events[0]
    case Request(key, now, up) =>
      var c := CheckSpec(leases, store, key, quota, now, up);
      After(c.leases, c.store, quota, events[1..])
    case Prune(now) => After(PruneSpec(leases, now, quota.leaseMs), store, quota, events[1..])
  }

  /** The answers the requests get. */
  function Replies(leases: Leases, store: Store, quota: Quota, events: seq<Event>): seq<Answer>
    decreases |events|
  {
    if events == [] then [] else
    match events[0]
    case Request(key, now, up) =>
      var c := CheckSpec(leases, store, key, quota, now, up);
      [c.answer] + Replies(c.leases, c.store, quota, events[1..])
    case Prune(now) =>
      Replies(PruneSpec(leases, now, quota.leaseMs), store, quota, events[1..])
  }

  predicate TimesFrom(events: seq<Event>, last: nat)
  {
    events == [] || (last <= events[0].now && TimesFrom(events[1..], events[0].now))
  }

  // ---------- What a request needs ----------

  /** Tokens the book still leases of a slot. */
  function Leased(leases: Leases, slot: Slot): nat
  {
    if slot.key in leases && leases[slot.key].window == slot.window then leases[slot.key].remaining else 0
  }

  /** Is the slot marked spent in the book? */
  predicate Marked(leases: Leases, slot: Slot)
  {
    slot.key in leases && leases[slot.key].window == slot.window && leases[slot.key].exhausted
  }

  /** A leased token admits, a mark throttles, and only what neither can answer needs the backend. */
  lemma BackendNeededExactlyWhen(leases: Leases, store: Store, key: string, quota: Quota, now: u64, up: bool)
    ensures var c := CheckSpec(leases, store, key, quota, now, up);
            var slot := Slot(key, now / Max(quota.leaseMs, 1));
            && (c.claimed <==> Leased(leases, slot) == 0 && !Marked(leases, slot))
            && (c.answer == Unavailable <==> !up && Leased(leases, slot) == 0 && !Marked(leases, slot))
            && (Leased(leases, slot) > 0 ==>
                  c.answer == Answered(Allow) && Leased(c.leases, slot) == Leased(leases, slot) - 1)
            && (c.answer == Unavailable || !c.claimed ==> c.store == store)
            && (c.answer == Unavailable ==> Leased(c.leases, slot) == 0 && !Marked(c.leases, slot))
  {
  }

  // ---------- Refinement of the plain counter ----------

  function Of(admitted: map<Slot, nat>, slot: Slot): nat
  {
    if slot in admitted then admitted[slot] else 0
  }

  /** The plain fixed-window counter: admit while fewer than the budget were admitted in this window. */
  function CounterAnswer(admitted: nat, quota: Quota, now: u64): Answer
  {
    var leaseMs: u64 := Max(quota.leaseMs, 1);
    if admitted < WindowBudget(quota.rps, leaseMs) then Answered(Allow)
    else Answered(Throttle(UntilNextWindow(now, leaseMs)))
  }

  function Note(admitted: map<Slot, nat>, slot: Slot, answer: Answer): map<Slot, nat>
  {
    if answer == Answered(Allow) then admitted[slot := Of(admitted, slot) + 1] else admitted
  }

  /** Each reply is the plain counter's, given what was admitted before, except where an outage withheld it. */
  predicate Explained(admitted: map<Slot, nat>, quota: Quota, events: seq<Event>, replies: seq<Answer>)
    decreases |events|
  {
    if events == [] then replies == []
    else match events[0]
      case Request(key, now, up) =>
        var slot := Slot(key, now / Max(quota.leaseMs, 1));
        && replies != []
        && (if replies[0] == Unavailable then !up else replies[0] == CounterAnswer(Of(admitted, slot), quota, now))
        && Explained(Note(admitted, slot, replies[0]), quota, events[1..], replies[1..])
      case Prune(_) => Explained(admitted, quota, events[1..], replies)
  }

  /** How many requests on `slot` were admitted. */
  function AllowsOn(quota: Quota, events: seq<Event>, replies: seq<Answer>, slot: Slot): nat
    decreases |events|
  {
    if events == [] || replies == [] then 0
    else match events[0]
      case Request(key, now, _) =>
        (if Slot(key, now / Max(quota.leaseMs, 1)) == slot && replies[0] == Answered(Allow) then 1 else 0) +
        AllowsOn(quota, events[1..], replies[1..], slot)
      case Prune(_) => AllowsOn(quota, events[1..], replies, slot)
  }

  /** Every admitted request and every leased token of a slot is counted by the store, within the budget `b`. */
  predicate Covered(leases: Leases, store: Store, admitted: nat, slot: Slot, b: nat)
  {
    admitted + Leased(leases, slot) <= Count(store, slot) <= b
  }

  /** Book, store and plain counter agree on one slot of budget `b`. */
  predicate SlotAgrees(leases: Leases, store: Store, admitted: map<Slot, nat>, slot: Slot, b: nat, leaseMs: nat, ttl: nat)
  {
    && Count(store, slot) == Of(admitted, slot) + Leased(leases, slot) <= b
    && (Marked(leases, slot) ==> Of(admitted, slot) == b)
    && (slot in store ==> slot.window * leaseMs + ttl <= store[slot].expireAt)
  }

  /** They agree on every slot from the current window on, earlier ones are covered, and no lease is ahead. */
  ghost predicate Agrees(leases: Leases, store: Store, admitted: map<Slot, nat>, quota: Quota, current: nat)
  {
    var leaseMs: u64 := Max(quota.leaseMs, 1);
    && (forall slot: Slot :: current <= slot.window ==>
          SlotAgrees(leases, store, admitted, slot, WindowBudget(quota.rps, leaseMs), leaseMs, TtlMs(leaseMs)))
    && (forall slot: Slot :: Covered(leases, store, Of(admitted, slot), slot, WindowBudget(quota.rps, leaseMs)))
    && (forall key :: key in leases ==> leases[key].window <= current)
  }

  /** One request: the book answers as the counter does or not at all, and they agree on the slot afterwards. */
  lemma AskAgreesOn(leases: Leases, store: Store, admitted: map<Slot, nat>, key: string, plan: Plan, now: u64, up: bool)
    requires var slot := Slot(key, plan.window);
             SlotAgrees(leases, store, admitted, slot, plan.budget, plan.leaseMs, plan.ttlMs)
    requires plan.window * plan.leaseMs <= now <= plan.window * plan.leaseMs + plan.ttlMs
    ensures var slot := Slot(key, plan.window);
            var c := CheckPlanned(leases, store, key, plan, now, up);
            && (if c.answer == Unavailable then !up
                else c.answer == if Of(admitted, slot) < plan.budget then Answered(Allow)
                                 else Answered(Throttle(UntilNextWindow(now, plan.leaseMs))))
            && SlotAgrees(c.leases, c.store, Note(admitted, slot, c.answer), slot, plan.budget, plan.leaseMs, plan.ttlMs)
  {
  }

  /** The request leaves every other slot of the present and future alone, and every other slot covered. */
  lemma AskLeavesOthers(leases: Leases, store: Store, admitted: map<Slot, nat>, key: string, plan: Plan, now: u64, up: bool,
                        slot: Slot)
    requires slot != Slot(key, plan.window)
    requires key in leases ==> leases[key].window <= plan.window
    ensures var c := CheckPlanned(leases, store, key, plan, now, up);
            var admitted' := Note(admitted, Slot(key, plan.window), c.answer);
            && (plan.window <= slot.window && SlotAgrees(leases, store, admitted, slot, plan.budget, plan.leaseMs, plan.ttlMs) ==>
                  SlotAgrees(c.leases, c.store, admitted', slot, plan.budget, plan.leaseMs, plan.ttlMs))
            && (Covered(leases, store, Of(admitted, slot), slot, plan.budget) ==>
                  Covered(c.leases, c.store, Of(admitted', slot), slot, plan.budget))
  {
  }

  lemma AskAgrees(leases: Leases, store: Store, admitted: map<Slot, nat>, quota: Quota, key: string, now: u64, up: bool, current: nat)
    requires Agrees(leases, store, admitted, quota, current) && current <= MakePlan(quota, now).window
    ensures var plan := MakePlan(quota, now);
            var slot := Slot(key, plan.window);
            var c := CheckSpec(leases, store, key, quota, now, up);
            && (if c.answer == Unavailable then !up else c.answer == CounterAnswer(Of(admitted, slot), quota, now))
            && Agrees(c.leases, c.store, Note(admitted, slot, c.answer), quota, plan.window)
  {
    var plan := MakePlan(quota, now);
    PlanCoversNow(quota, now);
    TtlIsExactIffNoOverflow(plan.leaseMs);
    MulSucc(plan.window, plan.leaseMs);
    AskAgreesOn(leases, store, admitted, key, plan, now, up);
    forall slot: Slot | slot != Slot(key, plan.window)
      ensures var c := CheckPlanned(leases, store, key, plan, now, up);
              var admitted' := Note(admitted, Slot(key, plan.window), c.answer);
              && (plan.window <= slot.window ==>
                    SlotAgrees(c.leases, c.store, admitted', slot, plan.budget, plan.leaseMs, plan.ttlMs))
              && Covered(c.leases, c.store, Of(admitted', slot), slot, plan.budget)
    {
      AskLeavesOthers(leases, store, admitted, key, plan, now, up, slot);
    }
  }

  lemma SweepAgrees(leases: Leases, store: Store, admitted: map<Slot, nat>, quota: Quota, now: u64, current: nat)
    requires Agrees(leases, store, admitted, quota, current) && current <= now / Max(quota.leaseMs, 1)
    ensures Agrees(PruneSpec(leases, now, quota.leaseMs), store, admitted, quota, now / Max(quota.leaseMs, 1))
  {
    var leaseMs: u64 := Max(quota.leaseMs, 1);
    var b, ttl := WindowBudget(quota.rps, leaseMs), TtlMs(leaseMs);
    forall slot: Slot
      ensures now / leaseMs <= slot.window ==>
                SlotAgrees(PruneSpec(leases, now, quota.leaseMs), store, admitted, slot, b, leaseMs, ttl)
      ensures Covered(PruneSpec(leases, now, quota.leaseMs), store, Of(admitted, slot), slot, b)
    {
      assert Covered(leases, store, Of(admitted, slot), slot, b);
    }
  }

  /** The events' windows never go back. */
  predicate WindowsFrom(events: seq<Event>, quota: Quota, current: nat)
  {
    events == [] || (current <= MakePlan(quota, events[0].now).window &&
                     WindowsFrom(events[1..], quota, MakePlan(quota, events[0].now).window))
  }

  lemma {:induction false} TimesGiveWindows(events: seq<Event>, quota: Quota, last: u64)
    requires TimesFrom(events, last)
    ensures WindowsFrom(events, quota, MakePlan(quota, last).window)
  {
    if events != [] {
      DivMonotone(last, events[0].now, Max(quota.leaseMs, 1));
      TimesGiveWindows(events[1..], quota, events[0].now);
    }
  }

  lemma {:induction false} ExplainedFrom(leases: Leases, store: Store, admitted: map<Slot, nat>, quota: Quota,
                                         events: seq<Event>, current: nat, slot: Slot)
    requires WindowsFrom(events, quota, current)
    requires Agrees(leases, store, admitted, quota, current)
    ensures var replies := Replies(leases, store, quota, events);
            var (leases', store') := After(leases, store, quota, events);
            && Explained(admitted, quota, events, replies)
            && Covered(leases', store', Of(admitted, slot) + AllowsOn(quota, events, replies, slot), slot,
                       WindowBudget(quota.rps, Max(quota.leaseMs, 1)))
    decreases |events|
  {
    if events != [] {
      var now := events[0].now;
      var plan := MakePlan(quota, now);
      if events[0].Request? {
        var key, up := events[0].key, events[0].up;
        var c := CheckSpec(leases, store, key, quota, now, up);
        AskAgrees(leases, store, admitted, quota, key, now, up, current);
        ExplainedFrom(c.leases, c.store, Note(admitted, Slot(key, plan.window), c.answer), quota, events[1..], plan.window, slot);
      } else {
        SweepAgrees(leases, store, admitted, quota, now, current);
        ExplainedFrom(PruneSpec(leases, now, quota.leaseMs), store, admitted, quota, events[1..], plan.window, slot);
      }
    }
  }

  /**
   On one replica, under one quota and non-decreasing time, every sequence of requests, with prunes
   and backend outages anywhere between them, is answered exactly as the plain fixed-window counter
   would answer, except that an outage may withhold an answer; and what was admitted on a slot plus
   what is still leased of it never exceeds what the store counted, nor that the budget.
   */
  lemma BookRefinesCounter(quota: Quota, events: seq<Event>, slot: Slot)
    requires TimesFrom(events, 0)
    ensures var replies := Replies(map[], map[], quota, events);
            var (leases, store) := After(map[], map[], quota, events);
            && Explained(map[], quota, events, replies)
            && AllowsOn(quota, events, replies, slot) + Leased(leases, slot) <= Count(store, slot)
            && Count(store, slot) <= WindowBudget(quota.rps, Max(quota.leaseMs, 1))
  {
    TimesGiveWindows(events, quota, 0);
    ExplainedFrom(map[], map[], map[], quota, events, MakePlan(quota, 0).window, slot);
  }

  // ---------- Which keys are tracked ----------

  /** The window an event falls in. */
  function WindowAt(quota: Quota, now: u64): nat { now / Max(quota.leaseMs, 1) }

  function AskedAfter(before: Option<nat>, quota: Quota, e: Event, key: string): Option<nat>
  {
    match e
    case Request(asked, now, _) => if asked == key then Some(WindowAt(quota, now)) else before
    case Prune(now) => if before.Some? && before.value < WindowAt(quota, now) then None else before
  }

  /** The window of a key's last request, unless a later prune has passed it. */
  function LastAsked(before: Option<nat>, quota: Quota, events: seq<Event>, key: string): Option<nat>
    decreases |events|
  {
    if events == [] then before else LastAsked(AskedAfter(before, quota, events[0], key), quota, events[1..], key)
  }

  function WindowOf(leases: Leases, key: string): Option<nat>
  {
    if key in leases then Some(leases[key].window) else None
  }

  /** Whatever the clock does, the book tracks exactly the keys whose last request no later prune has passed. */
  lemma {:induction false} TracksExactly(leases: Leases, store: Store, quota: Quota, events: seq<Event>, key: string)
    ensures WindowOf(After(leases, store, quota, events).0, key) == LastAsked(WindowOf(leases, key), quota, events, key)
    decreases |events|
  {
    if events != [] {
      match events[0]
      case Request(asked, now, up) =>
        var c := CheckSpec(leases, store, asked, quota, now, up);
        TracksExactly(c.leases, c.store, quota, events[1..], key);
      case Prune(now) =>
        TracksExactly(PruneSpec(leases, now, quota.leaseMs), store, quota, events[1..], key);
    }
  }

  /** A request for `key` in `window`. */
  predicate AsksIn(e: Event, quota: Quota, key: string, window: nat)
  {
    e.Request? && e.key == key && WindowAt(quota, e.now) == window
  }

  lemma {:induction false} LastAskedWasAsked(before: Option<nat>, quota: Quota, events: seq<Event>, key: string)
    requires LastAsked(before, quota, events, key).Some?
    ensures var last := LastAsked(before, quota, events, key);
            last == before || exists i :: 0 <= i < |events| && AsksIn(events[i], quota, key, last.value)
    decreases |events|
  {
    if events != [] {
      var after, last := AskedAfter(before, quota, events[0], key), LastAsked(before, quota, events, key);
      LastAskedWasAsked(after, quota, events[1..], key);
      if last == after {
        assert last == before || AsksIn(events[0], quota, key, last.value);
      } else {
        var i :| 0 <= i < |events[1..]| && AsksIn(events[1..][i], quota, key, last.value);
        assert events[i + 1] == events[1..][i];
      }
    }
  }

  lemma {:induction false} LastAskedExtends(before: Option<nat>, quota: Quota, events: seq<Event>, key: string, e: Event)
    ensures LastAsked(before, quota, events + [e], key) == AskedAfter(LastAsked(before, quota, events, key), quota, e, key)
    decreases |events|
  {
    if events == [] {
      assert (events + [e])[1..] == [];
    } else {
      assert (events + [e])[1..] == events[1..] + [e];
      LastAskedExtends(AskedAfter(before, quota, events[0], key), quota, events[1..], key, e);
    }
  }

  /** Right after a prune, every tracked key was asked for in the current window or a later one. */
  lemma PruneBoundsTheBook(quota: Quota, events: seq<Event>, now: u64, key: string)
    requires key in After(map[], map[], quota, events + [Prune(now)]).0
    ensures exists i :: 0 <= i < |events| && events[i].Request? && events[i].key == key &&
              WindowAt(quota, now) <= WindowAt(quota, events[i].now)
  {
    TracksExactly(map[], map[], quota, events + [Prune(now)], key);
    LastAskedExtends(None, quota, events, key, Prune(now));
    LastAskedWasAsked(None, quota, events, key);
    var window := LastAsked(None, quota, events, key).value;
    var i :| 0 <= i < |events| && AsksIn(events[i], quota, key, window);
  }

  // ---------- Retry-after ----------

  /** All events fall in one window. */
  predicate Within(events: seq<Event>, window: nat, leaseMs: nat)
    requires leaseMs > 0
  {
    forall i :: 0 <= i < |events| ==> events[i].now / leaseMs == window
  }

  lemma {:induction false} MarkStays(leases: Leases, store: Store, quota: Quota, slot: Slot, events: seq<Event>)
    requires Within(events, slot.window, Max(quota.leaseMs, 1))
    requires slot.key in leases && leases[slot.key] == Lease(slot.window, 0, true)
    ensures var (leases', _) := After(leases, store, quota, events);
            slot.key in leases' && leases'[slot.key] == Lease(slot.window, 0, true)
    decreases |events|
  {
    if events != [] {
      match events[0]
      case Request(key, now, up) =>
        var c := CheckSpec(leases, store, key, quota, now, up);
        MarkStays(c.leases, c.store, quota, slot, events[1..]);
      case Prune(now) =>
        MarkStays(PruneSpec(leases, now, quota.leaseMs), store, quota, slot, events[1..]);
    }
  }

  /** A lease marked spent holds no tokens: kept by every check and prune from an empty book on. */
  predicate Sound(leases: Leases)
  {
    forall key :: key in leases && leases[key].exhausted ==> leases[key].remaining == 0
  }

  lemma CheckKeepsSound(leases: Leases, store: Store, key: string, quota: Quota, now: u64, up: bool, leaseMs: u64)
    requires Sound(leases)
    ensures Sound(CheckSpec(leases, store, key, quota, now, up).leases) && Sound(PruneSpec(leases, now, leaseMs))
  {
  }

  /**
   `retry_after` is exact. It ends at the start of the next window; whatever else this replica
   serves or prunes before then, a retry before it is throttled without a backend call and told
   the same instant; a retry at that instant is decided by the backend, not by the old mark.
   */
  lemma RetryAfterIsExact(leases: Leases, store: Store, key: string, quota: Quota, now: u64, up: bool,
                          events: seq<Event>, t: u64, up': bool)
    requires Sound(leases)
    requires CheckSpec(leases, store, key, quota, now, up).answer.Answered?
    requires CheckSpec(leases, store, key, quota, now, up).answer.decision.Throttle?
    requires Within(events, now / Max(quota.leaseMs, 1), Max(quota.leaseMs, 1))
    ensures var c := CheckSpec(leases, store, key, quota, now, up);
            var retry := now + c.answer.decision.retryAfterMs;
            var (leases', store') := After(c.leases, c.store, quota, events);
            var again := CheckSpec(leases', store', key, quota, t, up');
            && retry == (now / Max(quota.leaseMs, 1) + 1) * Max(quota.leaseMs, 1)
            && (now <= t < retry ==>
                  again.answer == Answered(Throttle(retry - t)) && !again.claimed && again.store == store')
            && (t == retry ==> again.claimed)
  {
    var leaseMs: u64 := Max(quota.leaseMs, 1);
    var c := CheckSpec(leases, store, key, quota, now, up);
    RetryLandsOnNextWindow(now, leaseMs);
    MarkStays(c.leases, c.store, quota, Slot(key, now / leaseMs), events);
    if now <= t < now + c.answer.decision.retryAfterMs {
      assert t / leaseMs == now / leaseMs;
      NextWindowStart(t, leaseMs);
    }
  }
}
