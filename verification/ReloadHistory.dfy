/**
 What the live configuration is, as values, after boot and any sequence of reloads: the
 specification the registries are proved against, and its laws.
 */
module ReloadHistory {
  import opened Wrappers
  import opened LeaseMath
  import opened InfraSchema

  // ---------- Live contents ----------

  datatype LiveResilience = LiveResilience(timeout: Timeout, breaker: Breaker, retry: Retry)

  /** A traffic profile's settings, and the limiter in force: its quota and how many preceded it. */
  datatype LiveTraffic = LiveTraffic(config: TrafficConfig, limiterRps: nat, limiterBurst: nat, replaced: nat)

  /** The stored settings, and what the sink last accepted if one is attached. */
  datatype LiveTelemetry = LiveTelemetry(settings: Telemetry, sink: Option<Telemetry>)

  datatype View = View(
    resilience: map<string, LiveResilience>,
    cache: Option<map<string, CacheConfig>>,
    traffic: Option<map<string, LiveTraffic>>,
    telemetry: Option<LiveTelemetry>)

  /** A limiter cannot be built with a zero rate or burst. */
  function NonZero(n: u32): (m: nat)
    ensures m > 0 && (n > 0 ==> m == n) && (n == 0 ==> m == 1)
  {
    Max(n, 1)
  }

  function BootResilience(spec: ResilienceSpec): LiveResilience
  {
    LiveResilience(spec.timeout, spec.breaker, spec.retry)
  }

  function BootTraffic(spec: TrafficConfig): LiveTraffic
  {
    LiveTraffic(spec, NonZero(spec.rps), NonZero(spec.burst), 0)
  }

  /** Timeout and breaker are swapped; the retry policy stays as resolved at boot. */
  function ApplyResilience(live: LiveResilience, spec: ResilienceSpec): LiveResilience
  {
    live.(timeout := spec.timeout, breaker := spec.breaker)
  }

  function ApplyCache(live: CacheConfig, spec: CacheSpec): CacheConfig
  {
    ToCacheConfig(spec)
  }

  /** The limiter is rebuilt only when the quota changes. */
  function ApplyTraffic(live: LiveTraffic, spec: TrafficConfig): LiveTraffic
  {
    if spec.rps != live.config.rps || spec.burst != live.config.burst
    then LiveTraffic(spec, NonZero(spec.rps), NonZero(spec.burst), live.replaced + 1)
    else live.(config := spec)
  }

  function Boot(doc: Document): View
  {
    View(
      map n | n in doc.resilience.profiles :: BootResilience(doc.resilience.profiles[n]),
      if doc.cache.None? then None else Some(map n | n in doc.cache.value.profiles :: ToCacheConfig(doc.cache.value.profiles[n])),
      if doc.traffic.None? then None else Some(map n | n in doc.traffic.value.profiles :: BootTraffic(doc.traffic.value.profiles[n])),
      if doc.telemetry.None? then None else Some(LiveTelemetry(doc.telemetry.value, None)))
  }

  /** Update the known profiles a section defines, and no others. */
  function ApplyCatalog<S, V>(live: map<string, V>, specs: map<string, S>, update: (V, S) -> V): map<string, V>
  {
    map n | n in live :: if n in specs then update(live[n], specs[n]) else live[n]
  }

  /** A section that is absent changes nothing. */
  lemma ApplyNothing<S, V>(live: map<string, V>, update: (V, S) -> V)
    ensures ApplyCatalog(live, map[], update) == live
  {
  }

  // ---------- One reload ----------

  datatype Outcome = Applied | Rejected | SinkRejected

  function ProfilesOf<S>(section: Option<Section<S>>): map<string, S>
  {
    if section.Some? then section.value.profiles else map[]
  }

  /** The attached sink refuses the document's telemetry. */
  predicate SinkRefuses(view: View, doc: Document, sinkAccepts: bool)
  {
    view.telemetry.Some? && doc.telemetry.Some? && view.telemetry.value.sink.Some? && !sinkAccepts
  }

  /** The three catalog sections after a valid document. */
  function ApplySections(view: View, doc: Document): View
  {
    view.(resilience := ApplyCatalog(view.resilience, doc.resilience.profiles, ApplyResilience),
          cache := if view.cache.None? then None
                   else Some(ApplyCatalog(view.cache.value, ProfilesOf(doc.cache), ApplyCache)),
          traffic := if view.traffic.None? then None
                     else Some(ApplyCatalog(view.traffic.value, ProfilesOf(doc.traffic), ApplyTraffic)))
  }

  function ApplyTelemetry(live: LiveTelemetry, settings: Telemetry): LiveTelemetry
  {
    LiveTelemetry(settings, if live.sink.Some? then Some(settings) else None)
  }

  /** Validate the whole document, swap the catalog sections, and only then push telemetry. */
  function Apply(view: View, doc: Document, sinkAccepts: bool): (View, Outcome)
  {
    if !Valid(doc) then (view, Rejected)
    else if SinkRefuses(view, doc, sinkAccepts) then (ApplySections(view, doc), SinkRejected)
    else if view.telemetry.Some? && doc.telemetry.Some? then
      (ApplySections(view, doc).(telemetry := Some(ApplyTelemetry(view.telemetry.value, doc.telemetry.value))), Applied)
    else (ApplySections(view, doc), Applied)
  }

  /** Does the document give some known profile contents it does not have? */
  ghost predicate Changes(view: View, doc: Document)
  {
    || (exists n :: n in view.resilience && n in doc.resilience.profiles &&
          (doc.resilience.profiles[n].timeout != view.resilience[n].timeout ||
           doc.resilience.profiles[n].breaker != view.resilience[n].breaker))
    || (view.cache.Some? && doc.cache.Some? &&
        exists n :: n in view.cache.value && n in doc.cache.value.profiles &&
          ToCacheConfig(doc.cache.value.profiles[n]) != view.cache.value[n])
    || (view.traffic.Some? && doc.traffic.Some? &&
        exists n :: n in view.traffic.value && n in doc.traffic.value.profiles &&
          doc.traffic.value.profiles[n] != view.traffic.value[n].config)
  }

  lemma SectionsChangeIffDocumentDoes(view: View, doc: Document)
    ensures ApplySections(view, doc) != view <==> Changes(view, doc)
  {
    var after := ApplySections(view, doc);
    assert forall n :: n in view.resilience && n in doc.resilience.profiles ==>
      after.resilience[n] == ApplyResilience(view.resilience[n], doc.resilience.profiles[n]);
    if view.cache.Some? && doc.cache.Some? {
      assert forall n :: n in view.cache.value && n in doc.cache.value.profiles ==>
        after.cache.value[n] == ToCacheConfig(doc.cache.value.profiles[n]);
    }
    if view.traffic.Some? && doc.traffic.Some? {
      assert forall n :: n in view.traffic.value && n in doc.traffic.value.profiles ==>
        after.traffic.value[n] == ApplyTraffic(view.traffic.value[n], doc.traffic.value.profiles[n]);
    }
    if !Changes(view, doc) {
      assert after.resilience == view.resilience;
      if view.cache.Some? {
        assert after.cache.value == view.cache.value;
      }
      if view.traffic.Some? {
        assert after.traffic.value == view.traffic.value;
      }
    }
  }

  /**
   A reload is all-or-nothing exactly when it does not meet a sink that refuses the telemetry of a
   valid document which changes something else. In that one case the catalog sections hold the new
   contents, the telemetry the old, and the caller is told of an error.
   */
  lemma AllOrNothingExactlyWhen(view: View, doc: Document, sinkAccepts: bool)
    ensures var (after, outcome) := Apply(view, doc, sinkAccepts);
            (outcome != Applied ==> after == view)
            <==> !(Valid(doc) && SinkRefuses(view, doc, sinkAccepts) && Changes(view, doc))
    ensures var (after, outcome) := Apply(view, doc, sinkAccepts);
            outcome == SinkRejected ==>
              && Valid(doc) && SinkRefuses(view, doc, sinkAccepts)
              && after == ApplySections(view, doc) && after.telemetry == view.telemetry
  {
    SectionsChangeIffDocumentDoes(view, doc);
  }

  // ---------- Any history ----------

  /** A reload of a file that parsed or did not, or the binary attaching its telemetry sink. */
  datatype Event = Reload(doc: Option<Document>, sinkAccepts: bool) | AttachSink(accepts: bool)

  function React(view: View, e: Event): View
  {
    match e
    case Reload(doc, sinkAccepts) => if doc.None? then view else Apply(view, doc.value, sinkAccepts).0
    case AttachSink(accepts) =>
      if view.telemetry.Some? && accepts
      then view.(telemetry := Some(view.telemetry.value.(sink := Some(view.telemetry.value.settings))))
      else view
  }

  function After(view: View, events: seq<Event>): View
  {
    if events == [] then view else React(After(view, events[..|events| - 1]), events[|events| - 1])
  }

  /** The documents that took effect, in order: those that parsed and passed validation. */
  function Effective(events: seq<Event>): seq<Document>
  {
    if events == [] then []
    else
      var e := events[|events| - 1];
      Effective(events[..|events| - 1]) + if e.Reload? && e.doc.Some? && Valid(e.doc.value) then [e.doc.value] else []
  }

  /** The specs of profile `n` in a run of sections, in order, skipping sections that omit it. */
  function Defining<S>(sections: seq<map<string, S>>, n: string): seq<S>
  {
    if sections == [] then []
    else
      var last := sections[|sections| - 1];
      Defining(sections[..|sections| - 1], n) + if n in last then [last[n]] else []
  }

  function Fold<S, V>(v: V, specs: seq<S>, update: (V, S) -> V): V
  {
    if specs == [] then v else update(Fold(v, specs[..|specs| - 1], update), specs[|specs| - 1])
  }

  function FoldCatalog<S, V>(live: map<string, V>, sections: seq<map<string, S>>, update: (V, S) -> V): map<string, V>
  {
    if sections == [] then live
    else ApplyCatalog(FoldCatalog(live, sections[..|sections| - 1], update), sections[|sections| - 1], update)
  }

  /** Every profile evolves on its own, by the specs that define it. */
  lemma {:induction false} FoldCatalogAt<S, V>(live: map<string, V>, sections: seq<map<string, S>>, update: (V, S) -> V, n: string)
    requires n in live
    ensures FoldCatalog(live, sections, update).Keys == live.Keys
    ensures FoldCatalog(live, sections, update)[n] == Fold(live[n], Defining(sections, n), update)
  {
    if sections != [] {
      var init := sections[..|sections| - 1];
      FoldCatalogAt(live, init, update, n);
      var specs := Defining(sections, n);
      if n in sections[|sections| - 1] {
        assert specs[..|specs| - 1] == Defining(init, n);
      } else {
        assert specs == Defining(init, n);
      }
    }
  }

  function ResilienceOf(docs: seq<Document>): seq<map<string, ResilienceSpec>>
  {
    seq(|docs|, i requires 0 <= i < |docs| => docs[i].resilience.profiles)
  }

  function CacheOf(docs: seq<Document>): seq<map<string, CacheSpec>>
  {
    seq(|docs|, i requires 0 <= i < |docs| => ProfilesOf(docs[i].cache))
  }

  function TrafficOf(docs: seq<Document>): seq<map<string, TrafficConfig>>
  {
    seq(|docs|, i requires 0 <= i < |docs| => ProfilesOf(docs[i].traffic))
  }

  /** `after` has the sections of `view`, folded over `docs`. */
  predicate Folds(view: View, docs: seq<Document>, after: View)
  {
    && after.resilience == FoldCatalog(view.resilience, ResilienceOf(docs), ApplyResilience)
    && (after.cache.Some? <==> view.cache.Some?)
    && (view.cache.Some? ==> after.cache.value == FoldCatalog(view.cache.value, CacheOf(docs), ApplyCache))
    && (after.traffic.Some? <==> view.traffic.Some?)
    && (view.traffic.Some? ==> after.traffic.value == FoldCatalog(view.traffic.value, TrafficOf(docs), ApplyTraffic))
    && (after.telemetry.Some? <==> view.telemetry.Some?)
  }

  lemma FoldsExtend(view: View, docs: seq<Document>, after: View, doc: Document)
    requires Folds(view, docs, after)
    ensures Folds(view, docs + [doc], ApplySections(after, doc))
  {
    var more := docs + [doc];
    assert ResilienceOf(more)[..|docs|] == ResilienceOf(docs);
    assert CacheOf(more)[..|docs|] == CacheOf(docs);
    assert TrafficOf(more)[..|docs|] == TrafficOf(docs);
  }

  /** An event either leaves the catalog sections alone or is an effective document. */
  lemma ReactSections(view: View, e: Event)
    ensures var after := React(view, e);
            var sections := if e.Reload? && e.doc.Some? && Valid(e.doc.value) then ApplySections(view, e.doc.value) else view;
            && after == sections.(telemetry := after.telemetry)
            && (after.telemetry.Some? <==> view.telemetry.Some?)
  {
  }

  /** The catalog sections of the view after any history are the boot ones folded over the effective documents. */
  lemma {:induction false} AfterFolds(view: View, events: seq<Event>)
    ensures Folds(view, Effective(events), After(view, events))
  {
    if events != [] {
      var init, e := events[..|events| - 1], events[|events| - 1];
      AfterFolds(view, init);
      ReactSections(After(view, init), e);
      if e.Reload? && e.doc.Some? && Valid(e.doc.value) {
        FoldsExtend(view, Effective(init), After(view, init), e.doc.value);
      } else {
        assert Effective(events) == Effective(init);
      }
    }
  }

  // ---------- What the folds come to ----------

  function Last<S>(boot: S, specs: seq<S>): S
  {
    if specs == [] then boot else specs[|specs| - 1]
  }

  lemma {:induction false} FoldResilience(boot: ResilienceSpec, specs: seq<ResilienceSpec>)
    ensures Fold(BootResilience(boot), specs, ApplyResilience)
            == LiveResilience(Last(boot, specs).timeout, Last(boot, specs).breaker, boot.retry)
  {
    if specs != [] {
      FoldResilience(boot, specs[..|specs| - 1]);
    }
  }

  lemma FoldCache(boot: CacheSpec, specs: seq<CacheSpec>)
    ensures Fold(ToCacheConfig(boot), specs, ApplyCache) == ToCacheConfig(Last(boot, specs))
  {
  }

  predicate SameQuota(a: TrafficConfig, b: TrafficConfig) { a.rps == b.rps && a.burst == b.burst }

  /** How often the quota changed from one applied spec to the next, the boot one first. */
  function QuotaChanges(boot: TrafficConfig, specs: seq<TrafficConfig>): nat
  {
    if specs == [] then 0
    else
      var n := |specs| - 1;
      QuotaChanges(boot, specs[..n]) + if SameQuota(Last(boot, specs[..n]), specs[n]) then 0 else 1
  }

  lemma {:induction false} FoldTraffic(boot: TrafficConfig, specs: seq<TrafficConfig>)
    ensures var last := Last(boot, specs);
            Fold(BootTraffic(boot), specs, ApplyTraffic)
            == LiveTraffic(last, NonZero(last.rps), NonZero(last.burst), QuotaChanges(boot, specs))
  {
    if specs != [] {
      FoldTraffic(boot, specs[..|specs| - 1]);
    }
  }

  /** The sections and profiles are the boot document's, no more and no fewer. */
  predicate SameTopology(boot: Document, view: View)
  {
    && view.resilience.Keys == boot.resilience.profiles.Keys
    && (view.cache.Some? <==> boot.cache.Some?)
    && (boot.cache.Some? ==> view.cache.value.Keys == boot.cache.value.profiles.Keys)
    && (view.traffic.Some? <==> boot.traffic.Some?)
    && (boot.traffic.Some? ==> view.traffic.value.Keys == boot.traffic.value.profiles.Keys)
    && (view.telemetry.Some? <==> boot.telemetry.Some?)
  }

  lemma TopologyStays(boot: Document, events: seq<Event>)
    ensures SameTopology(boot, After(Boot(boot), events))
  {
    var docs, view := Effective(events), Boot(boot);
    AfterFolds(view, events);
    FoldKeys(view.resilience, ResilienceOf(docs), ApplyResilience);
    if boot.cache.Some? {
      FoldKeys(view.cache.value, CacheOf(docs), ApplyCache);
    }
    if boot.traffic.Some? {
      FoldKeys(view.traffic.value, TrafficOf(docs), ApplyTraffic);
    }
  }

  /**
   After boot and any sequence of accepted and rejected reloads: the known profiles are the boot
   ones; each holds the contents of the last effective document that defines it, else its boot
   contents; the retry policy is the boot one; and a traffic profile's limiter has the quota of its
   current settings and was replaced once for each effective change of quota. The telemetry settings
   are the last that no attached sink refused.
   */
  lemma ReloadsTakeTheLastWord(boot: Document, events: seq<Event>, n: string)
    ensures SameTopology(boot, After(Boot(boot), events))
    ensures n in boot.resilience.profiles ==>
              var last := Last(boot.resilience.profiles[n], Defining(ResilienceOf(Effective(events)), n));
              After(Boot(boot), events).resilience[n]
              == LiveResilience(last.timeout, last.breaker, boot.resilience.profiles[n].retry)
    ensures boot.cache.Some? && n in boot.cache.value.profiles ==>
              var after := After(Boot(boot), events).cache;
              var last := Last(boot.cache.value.profiles[n], Defining(CacheOf(Effective(events)), n));
              && after.Some? && n in after.value && after.value[n].ttl == last.ttlSecs
              && after.value[n].negativeTtl == if last.negativeTtlSecs == 0 then None else Some(last.negativeTtlSecs)
    ensures boot.traffic.Some? && n in boot.traffic.value.profiles ==>
              var after := After(Boot(boot), events).traffic;
              var specs := Defining(TrafficOf(Effective(events)), n);
              var last := Last(boot.traffic.value.profiles[n], specs);
              && after.Some? && n in after.value
              && after.value[n] == LiveTraffic(last, NonZero(last.rps), NonZero(last.burst),
                                               QuotaChanges(boot.traffic.value.profiles[n], specs))
    ensures boot.telemetry.Some? ==>
              var last := LastTelemetry(boot.telemetry.value, events);
              After(Boot(boot), events).telemetry
              == Some(LiveTelemetry(last, if AttachSink(true) in events then Some(last) else None))
  {
    if boot.telemetry.Some? {
      TelemetryTakesTheLastWord(boot, events);
    }
    var docs, view := Effective(events), Boot(boot);
    AfterFolds(view, events);
    TopologyStays(boot, events);
    if n in boot.resilience.profiles {
      FoldCatalogAt(view.resilience, ResilienceOf(docs), ApplyResilience, n);
      FoldResilience(boot.resilience.profiles[n], Defining(ResilienceOf(docs), n));
    }
    if boot.cache.Some? && n in boot.cache.value.profiles {
      FoldCatalogAt(view.cache.value, CacheOf(docs), ApplyCache, n);
      FoldCache(boot.cache.value.profiles[n], Defining(CacheOf(docs), n));
    }
    if boot.traffic.Some? && n in boot.traffic.value.profiles {
      FoldCatalogAt(view.traffic.value, TrafficOf(docs), ApplyTraffic, n);
      FoldTraffic(boot.traffic.value.profiles[n], Defining(TrafficOf(docs), n));
    }
  }

  lemma {:induction false} FoldKeys<S, V>(live: map<string, V>, sections: seq<map<string, S>>, update: (V, S) -> V)
    ensures FoldCatalog(live, sections, update).Keys == live.Keys
  {
    if sections != [] {
      FoldKeys(live, sections[..|sections| - 1], update);
    }
  }

  // ---------- Only valid contents are ever live ----------

  lemma {:induction false} EffectiveAreValid(events: seq<Event>)
    ensures forall i :: 0 <= i < |Effective(events)| ==> Valid(Effective(events)[i])
  {
    if events != [] {
      EffectiveAreValid(events[..|events| - 1]);
    }
  }

  lemma {:induction false} DefiningIn<S>(sections: seq<map<string, S>>, n: string, i: nat)
    requires i < |Defining(sections, n)|
    ensures exists j :: 0 <= j < |sections| && n in sections[j] && sections[j][n] == Defining(sections, n)[i]
  {
    var init := sections[..|sections| - 1];
    if i < |Defining(init, n)| {
      DefiningIn(init, n, i);
      var j :| 0 <= j < |init| && n in init[j] && init[j][n] == Defining(init, n)[i];
      assert sections[j] == init[j];
    } else {
      assert sections[|sections| - 1][n] == Defining(sections, n)[i];
    }
  }

  /** What a valid spec gives the limiters: no clamping locally, a usable plan when distributed. */
  predicate Usable(live: LiveTraffic, now: u64)
  {
    && TrafficOk(live.config)
    && live.limiterRps == live.config.rps && live.limiterBurst == live.config.burst
    && (live.config.mode.Distributed? ==>
          var plan := MakePlan(QuotaOf(live.config), now);
          && plan.leaseMs == live.config.leaseMs.value
          && (IsWindowBudget(plan.budget, live.config.rps * live.config.leaseMs.value) <==>
                live.config.rps * live.config.leaseMs.value < U64_RANGE)
          && 1 <= plan.want == Min(live.config.burst, plan.budget)
          && plan.window * plan.leaseMs <= now < (plan.window + 1) * plan.leaseMs)
  }

  lemma ValidIsUsable(spec: TrafficConfig, replaced: nat, now: u64)
    requires TrafficOk(spec)
    ensures Usable(LiveTraffic(spec, NonZero(spec.rps), NonZero(spec.burst), replaced), now)
  {
    PlanCoversNow(QuotaOf(spec), now);
    if spec.mode.Distributed? {
      BudgetIsCeilingIffNoOverflow(spec.rps, spec.leaseMs.value);
    }
  }

  /**
   Every traffic profile that is ever live has a valid spec, so its limiter has exactly its rate and
   burst; if it is distributed, requests are planned with its own window length, a budget of at least
   one token and a chunk between one token and the budget.
   */
  lemma LiveTrafficIsUsable(boot: Document, events: seq<Event>, n: string, now: u64)
    requires Valid(boot) && boot.traffic.Some? && n in boot.traffic.value.profiles
    ensures var after := After(Boot(boot), events).traffic;
            after.Some? && n in after.value && Usable(after.value[n], now)
  {
    ReloadsTakeTheLastWord(boot, events, n);
    var spec, specs := boot.traffic.value.profiles[n], Defining(TrafficOf(Effective(events)), n);
    EffectiveAreValid(events);
    var docs := Effective(events);
    forall j | 0 <= j < |docs| && n in TrafficOf(docs)[j] ensures TrafficOk(TrafficOf(docs)[j][n]) {
      assert Valid(docs[j]);
    }
    LastIsValid(spec, TrafficOf(docs), n, TrafficOk);
    ValidIsUsable(Last(spec, specs), QuotaChanges(spec, specs), now);
  }

  lemma LastIsValid<S>(boot: S, sections: seq<map<string, S>>, n: string, ok: S -> bool)
    requires ok(boot)
    requires forall j :: 0 <= j < |sections| && n in sections[j] ==> ok(sections[j][n])
    ensures ok(Last(boot, Defining(sections, n)))
  {
    var specs := Defining(sections, n);
    if specs != [] {
      DefiningIn(sections, n, |specs| - 1);
    }
  }

  /** No zero timeout, threshold or TTL, and no ratio out of range, ever reaches a data path, whatever is pushed. */
  lemma {:induction false} LiveProfilesAreValid(boot: Document, events: seq<Event>, n: string)
    requires Valid(boot)
    ensures n in boot.resilience.profiles ==>
              && n in After(Boot(boot), events).resilience
              && var live := After(Boot(boot), events).resilience[n];
                 && live.timeout.durationMs > 0
                 && live.breaker.failureThreshold > 0 && live.breaker.successThreshold > 0
                 && live.breaker.halfOpenMaxCalls > 0
                 && live.retry.backoff.baseMs <= live.retry.backoff.maxMs
    ensures boot.cache.Some? && n in boot.cache.value.profiles ==>
              && After(Boot(boot), events).cache.Some? && n in After(Boot(boot), events).cache.value
              && var live := After(Boot(boot), events).cache.value[n];
                 live.ttl > 0 && (live.negativeTtl.Some? ==> live.negativeTtl.value > 0)
    ensures var telemetry := After(Boot(boot), events).telemetry;
            telemetry.Some? && telemetry.value.settings.sampling.Some? &&
            telemetry.value.settings.sampling.value.TraceIdRatio? ==>
              && telemetry.value.settings.sampling.value.ratio.Finite?
              && 0.0 <= telemetry.value.settings.sampling.value.ratio.value <= 1.0
  {
    LiveTelemetryIsValid(boot, events);
    ReloadsTakeTheLastWord(boot, events, n);
    EffectiveAreValid(events);
    var docs := Effective(events);
    if n in boot.resilience.profiles {
      LastIsValid(boot.resilience.profiles[n], ResilienceOf(docs), n, ResilienceOk);
    }
    if boot.cache.Some? && n in boot.cache.value.profiles {
      forall j | 0 <= j < |docs| && n in CacheOf(docs)[j] ensures CacheOk(CacheOf(docs)[j][n]) {
        assert Valid(docs[j]);
      }
      LastIsValid(boot.cache.value.profiles[n], CacheOf(docs), n, CacheOk);
    }
  }

  /**
   Validation puts no upper bound on the rate or the window, so the budget of a valid distributed
   profile need not be the promised ceiling.
   */
  lemma ValidationAllowsOverflow() returns (spec: TrafficConfig)
    ensures TrafficOk(spec) && spec.mode.Distributed?
    ensures var quota := QuotaOf(spec);
            !IsWindowBudget(WindowBudget(quota.rps, quota.leaseMs), quota.rps * quota.leaseMs)
  {
    spec := TrafficConfig(0xFFFF_FFFF, 1, PerMethod, Distributed, true, Some(0x2_0000_0000), None);
    BudgetIsCeilingIffNoOverflow(spec.rps, spec.leaseMs.value);
  }

  // ---------- Telemetry ----------

  /** The event is a reload whose telemetry takes effect, given whether a sink is attached. */
  predicate TakesTelemetry(e: Event, attached: bool)
  {
    && e.Reload? && e.doc.Some? && Valid(e.doc.value) && e.doc.value.telemetry.Some?
    && (attached ==> e.sinkAccepts)
  }

  /** The telemetry settings that took effect last, else the boot ones. */
  function LastTelemetry(boot: Telemetry, events: seq<Event>): Telemetry
  {
    if events == [] then boot
    else
      var n := |events| - 1;
      if TakesTelemetry(events[n], AttachSink(true) in events[..n]) then events[n].doc.value.telemetry.value
      else LastTelemetry(boot, events[..n])
  }

  /**
   Telemetry takes the last word too. After any history the stored settings are those of the last
   effective document that has a telemetry section and was not refused by an attached sink, else the
   boot ones; and a sink, attached exactly if one was ever accepted, holds the same settings.
   */
  lemma {:induction false} TelemetryTakesTheLastWord(boot: Document, events: seq<Event>)
    requires boot.telemetry.Some?
    ensures var last := LastTelemetry(boot.telemetry.value, events);
            After(Boot(boot), events).telemetry
            == Some(LiveTelemetry(last, if AttachSink(true) in events then Some(last) else None))
  {
    if events != [] {
      var n := |events| - 1;
      TelemetryTakesTheLastWord(boot, events[..n]);
      assert events == events[..n] + [events[n]];
    }
  }

  lemma {:induction false} LiveTelemetryIsValid(boot: Document, events: seq<Event>)
    requires Valid(boot)
    ensures After(Boot(boot), events).telemetry.Some? ==> TelemetryValid(After(Boot(boot), events).telemetry.value.settings)
  {
    if events != [] {
      LiveTelemetryIsValid(boot, events[..|events| - 1]);
    }
  }

  /** The promise of an all-or-nothing reload is broken by a sink that refuses the log filter. */
  lemma PartialApplication() returns (boot: Document, doc: Document)
    ensures Valid(boot) && Valid(doc)
    ensures var before := After(Boot(boot), [AttachSink(true)]);
            var (after, outcome) := Apply(before, doc, false);
            && outcome == SinkRejected
            && "p" in before.resilience && "p" in after.resilience
            && after.resilience["p"].timeout != before.resilience["p"].timeout
            && after.telemetry == before.telemetry
  {
    var slow := ResilienceSpec(Timeout(10000), Breaker(5, 2, 30000, 1), Retry(3, Exponential(50, 10000, Full)));
    var quick := slow.(timeout := Timeout(500));
    boot := Document(Section(map["p" := slow], map[], "p"), None, None, Some(Telemetry(Some("info"), None)));
    doc := Document(Section(map["p" := quick], map[], "p"), None, None, Some(Telemetry(Some("=bad="), None)));
    assert [AttachSink(true)][..0] == [];
  }
}
