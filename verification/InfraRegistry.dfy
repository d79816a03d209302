/**
 The live configuration as objects: profiles that callers hold and reloads update in place, one
 registry per section, and the aggregate that a reload drives. Each operation is proved against the
 reload specification on values.

 A profile object stands for the shared handles of the original: holding the object is holding a
 clone, and every holder reads the current contents.
 */
module InfraRegistry {
  import opened Wrappers
  import opened InfraSchema
  import opened ReloadHistory

  // ---------- Profiles ----------

  class ResilienceProfile {
    var timeout: Timeout
    var breaker: Breaker
    const retry: Retry

    ghost function View(): LiveResilience
      reads this
    {
      LiveResilience(timeout, breaker, retry)
    }

    constructor (spec: ResilienceSpec)
      ensures View() == BootResilience(spec)
    {
      timeout, breaker, retry := spec.timeout, spec.breaker, spec.retry;
    }

    /** Swaps timeout and breaker; returns the retry policy for callers that rebuild their retry layer. */
    method Apply(spec: ResilienceSpec) returns (newRetry: Retry)
      modifies this
      ensures View() == ApplyResilience(old(View()), spec) && newRetry == spec.retry
    {
      timeout := spec.timeout;
      breaker := spec.breaker;
      newRetry := spec.retry;
    }
  }

  class CacheProfile {
    var config: CacheConfig

    constructor (spec: CacheSpec)
      ensures config == ToCacheConfig(spec)
    {
      config := ToCacheConfig(spec);
    }

    method Apply(spec: CacheSpec)
      modifies this
      ensures config == ApplyCache(old(config), spec)
    {
      config := ToCacheConfig(spec);
    }
  }

  /** A keyed limiter: its quota is fixed when it is built. */
  class Limiter {
    const rps: nat
    const burst: nat
    ghost const predecessors: nat

    constructor (config: TrafficConfig, ghost predecessors: nat)
      ensures rps == NonZero(config.rps) && burst == NonZero(config.burst) && this.predecessors == predecessors
    {
      rps, burst := NonZero(config.rps), NonZero(config.burst);
      this.predecessors := predecessors;
    }
  }

  class TrafficProfile {
    var config: TrafficConfig
    var limiter: Limiter

    ghost function View(): LiveTraffic
      reads this
    {
      LiveTraffic(config, limiter.rps, limiter.burst, limiter.predecessors)
    }

    constructor (spec: TrafficConfig)
      ensures View() == BootTraffic(spec)
    {
      config := spec;
      limiter := new Limiter(spec, 0);
    }

    /** The profile took the spec, and its limiter was replaced exactly if the quota changed. */
    twostate predicate Took(spec: TrafficConfig)
      reads this
    {
      && View() == ApplyTraffic(old(View()), spec)
      && (limiter == old(limiter) <==> SameQuota(old(config), spec))
    }

    /** The limiter object is the same exactly if no replacement was counted. */
    twostate predicate LimiterKept()
      reads this
    {
      && old(limiter.predecessors) <= limiter.predecessors
      && (limiter == old(limiter) <==> limiter.predecessors == old(limiter.predecessors))
    }

    /** Replaces the limiter object exactly when the quota changes. */
    method Apply(spec: TrafficConfig)
      modifies this
      ensures Took(spec)
      ensures limiter != old(limiter) ==> fresh(limiter)
    {
      if spec.rps != config.rps || spec.burst != config.burst {
        limiter := new Limiter(spec, limiter.predecessors + 1);
      }
      config := spec;
    }
  }

  // ---------- Section registries ----------

  class ResilienceRegistry {
    const catalog: Catalog<ResilienceProfile>

    /** Every lookup succeeds, and no two names share a profile. */
    ghost predicate Valid()
    {
      catalog.Complete() &&
      forall a, b :: a in catalog.profiles && b in catalog.profiles && a != b ==> catalog.profiles[a] != catalog.profiles[b]
    }

    ghost function View(): map<string, LiveResilience>
      reads catalog.profiles.Values
    {
      map n | n in catalog.profiles :: catalog.profiles[n].View()
    }

    constructor (section: Section<ResilienceSpec>)
      requires ResilienceValid(section)
      ensures Valid() && fresh(catalog.profiles.Values)
      ensures View() == map n | n in section.profiles :: BootResilience(section.profiles[n])
      ensures catalog.bindings == section.bindings && catalog.default == section.default
    {
      var live: map<string, ResilienceProfile> := map[];
      var names := section.profiles.Keys;
      while names != {}
        invariant names <= section.profiles.Keys && live.Keys == section.profiles.Keys - names
        invariant forall n :: n in live ==> fresh(live[n]) && live[n].View() == BootResilience(section.profiles[n])
        invariant forall a, b :: a in live && b in live && a != b ==> live[a] != live[b]
        decreases names
      {
        var n :| n in names;
        var profile := new ResilienceProfile(section.profiles[n]);
        live := live[n := profile];
        names := names - {n};
      }
      catalog := Catalog(live, section.bindings, section.default);
    }

    /** Validates, then swaps the contents of every known profile the section defines. */
    method ApplySection(section: Section<ResilienceSpec>) returns (ok: bool)
      requires Valid()
      modifies catalog.profiles.Values
      ensures ok == ResilienceValid(section)
      ensures View() == if ok then ApplyCatalog(old(View()), section.profiles, ApplyResilience) else old(View())
    {
      if !ResilienceValid(section) {
        return false;
      }
      var names := catalog.profiles.Keys;
      while names != {}
        invariant names <= catalog.profiles.Keys
        invariant forall n :: n in catalog.profiles ==>
                    catalog.profiles[n].View() ==
                      if n !in names && n in section.profiles
                      then ApplyResilience(old(catalog.profiles[n].View()), section.profiles[n])
                      else old(catalog.profiles[n].View())
        decreases names
      {
        var n :| n in names;
        if n in section.profiles {
          var _ := catalog.profiles[n].Apply(section.profiles[n]);
        }
        names := names - {n};
      }
      ok := true;
    }
  }

  class CacheRegistry {
    const catalog: Catalog<CacheProfile>

    ghost predicate Valid()
    {
      catalog.Complete() &&
      forall a, b :: a in catalog.profiles && b in catalog.profiles && a != b ==> catalog.profiles[a] != catalog.profiles[b]
    }

    ghost function View(): map<string, CacheConfig>
      reads catalog.profiles.Values
    {
      map n | n in catalog.profiles :: catalog.profiles[n].config
    }

    constructor (section: Section<CacheSpec>)
      requires CacheValid(section)
      ensures Valid() && fresh(catalog.profiles.Values)
      ensures View() == map n | n in section.profiles :: ToCacheConfig(section.profiles[n])
      ensures catalog.bindings == section.bindings && catalog.default == section.default
    {
      var live: map<string, CacheProfile> := map[];
      var names := section.profiles.Keys;
      while names != {}
        invariant names <= section.profiles.Keys && live.Keys == section.profiles.Keys - names
        invariant forall n :: n in live ==> fresh(live[n]) && live[n].config == ToCacheConfig(section.profiles[n])
        invariant forall a, b :: a in live && b in live && a != b ==> live[a] != live[b]
        decreases names
      {
        var n :| n in names;
        var profile := new CacheProfile(section.profiles[n]);
        live := live[n := profile];
        names := names - {n};
      }
      catalog := Catalog(live, section.bindings, section.default);
    }

    method Apply(section: Section<CacheSpec>) returns (ok: bool)
      requires Valid()
      modifies catalog.profiles.Values
      ensures ok == CacheValid(section)
      ensures View() == if ok then ApplyCatalog(old(View()), section.profiles, ApplyCache) else old(View())
    {
      if !CacheValid(section) {
        return false;
      }
      var names := catalog.profiles.Keys;
      while names != {}
        invariant names <= catalog.profiles.Keys
        invariant forall n :: n in catalog.profiles ==>
                    catalog.profiles[n].config ==
                      if n !in names && n in section.profiles
                      then ApplyCache(old(catalog.profiles[n].config), section.profiles[n])
                      else old(catalog.profiles[n].config)
        decreases names
      {
        var n :| n in names;
        if n in section.profiles {
          catalog.profiles[n].Apply(section.profiles[n]);
        }
        names := names - {n};
      }
      ok := true;
    }
  }

  class TrafficRegistry {
    const catalog: Catalog<TrafficProfile>

    ghost predicate Valid()
    {
      catalog.Complete() &&
      forall a, b :: a in catalog.profiles && b in catalog.profiles && a != b ==> catalog.profiles[a] != catalog.profiles[b]
    }

    ghost function View(): map<string, LiveTraffic>
      reads catalog.profiles.Values
    {
      map n | n in catalog.profiles :: catalog.profiles[n].View()
    }

    constructor (section: Section<TrafficConfig>)
      requires TrafficValid(section)
      ensures Valid() && fresh(catalog.profiles.Values)
      ensures View() == map n | n in section.profiles :: BootTraffic(section.profiles[n])
      ensures catalog.bindings == section.bindings && catalog.default == section.default
    {
      var live: map<string, TrafficProfile> := map[];
      var names := section.profiles.Keys;
      while names != {}
        invariant names <= section.profiles.Keys && live.Keys == section.profiles.Keys - names
        invariant forall n :: n in live ==> fresh(live[n]) && live[n].View() == BootTraffic(section.profiles[n])
        invariant forall a, b :: a in live && b in live && a != b ==> live[a] != live[b]
        decreases names
      {
        var n :| n in names;
        var profile := new TrafficProfile(section.profiles[n]);
        live := live[n := profile];
        names := names - {n};
      }
      catalog := Catalog(live, section.bindings, section.default);
    }

    /** As the other sections; a profile whose quota the section does not change keeps its limiter. */
    method Apply(section: Section<TrafficConfig>) returns (ok: bool)
      requires Valid()
      modifies catalog.profiles.Values
      ensures ok == TrafficValid(section)
      ensures View() == if ok then ApplyCatalog(old(View()), section.profiles, ApplyTraffic) else old(View())
      ensures forall n :: n in catalog.profiles ==>
                (catalog.profiles[n].limiter == old(catalog.profiles[n].limiter) <==>
                 !ok || n !in section.profiles || SameQuota(old(catalog.profiles[n].config), section.profiles[n]))
      ensures forall n :: n in catalog.profiles ==> catalog.profiles[n].LimiterKept()
    {
      if !TrafficValid(section) {
        return false;
      }
      var names := catalog.profiles.Keys;
      while names != {}
        invariant names <= catalog.profiles.Keys
        invariant forall n :: n in catalog.profiles && (n in names || n !in section.profiles) ==> unchanged(catalog.profiles[n])
        invariant forall n :: n in catalog.profiles && n !in names && n in section.profiles ==>
                    catalog.profiles[n].Took(section.profiles[n])
        decreases names
      {
        var n :| n in names;
        if n in section.profiles {
          catalog.profiles[n].Apply(section.profiles[n]);
        }
        names := names - {n};
      }
      ok := true;
    }
  }

  /** Stored settings, and what the attached sink last accepted. */
  class TelemetryRegistry {
    var settings: Telemetry
    var sink: Option<Telemetry>

    ghost function View(): LiveTelemetry
      reads this
    {
      LiveTelemetry(settings, sink)
    }

    constructor (section: Telemetry)
      ensures View() == LiveTelemetry(section, None)
    {
      settings, sink := section, None;
    }

    /** Attaches a sink if it accepts the current settings. */
    method SetSink(accepts: bool) returns (ok: bool)
      modifies this
      ensures ok == accepts
      ensures View() == if accepts then LiveTelemetry(old(settings), Some(old(settings))) else old(View())
    {
      if accepts {
        sink := Some(settings);
      }
      ok := accepts;
    }

    /** Pushes to the sink first; only an accepted push is stored. */
    method Apply(section: Telemetry, sinkAccepts: bool) returns (outcome: Outcome)
      modifies this
      ensures outcome == if !TelemetryValid(section) then Rejected
                         else if old(sink).Some? && !sinkAccepts then SinkRejected else Applied
      ensures View() == if outcome == Applied then ApplyTelemetry(old(View()), section) else old(View())
      ensures outcome == Applied ==> settings == section && sink == if old(sink).Some? then Some(section) else None
    {
      if !TelemetryValid(section) {
        return Rejected;
      }
      if sink.Some? {
        if !sinkAccepts {
          return SinkRejected;
        }
        sink := Some(section);
      }
      settings := section;
      outcome := Applied;
    }
  }

  // ---------- Sections that may be absent ----------

  /** The catalog looks names up by the section's tables. */
  ghost predicate Tabled<L, S>(catalog: Catalog<L>, section: Section<S>)
  {
    catalog.bindings == section.bindings && catalog.default == section.default
  }

  ghost predicate CacheReady(r: Option<CacheRegistry>) { r.Some? ==> r.value.Valid() }

  ghost function CacheCells(r: Option<CacheRegistry>): set<object>
  {
    if r.Some? then r.value.catalog.profiles.Values else {}
  }

  ghost function CacheView(r: Option<CacheRegistry>): Option<map<string, CacheConfig>>
    reads CacheCells(r)
  {
    if r.Some? then Some(r.value.View()) else None
  }

  method BootCacheSection(section: Option<Section<CacheSpec>>) returns (r: Option<CacheRegistry>)
    requires section.Some? ==> CacheValid(section.value)
    ensures CacheReady(r) && fresh(CacheCells(r))
    ensures section.Some? ==> r.Some? && Tabled(r.value.catalog, section.value)
    ensures CacheView(r) == if section.None? then None
                            else Some(map n | n in section.value.profiles :: ToCacheConfig(section.value.profiles[n]))
  {
    if section.None? {
      return None;
    }
    var registry := new CacheRegistry(section.value);
    r := Some(registry);
  }

  /** A section present at boot takes the new contents; one added or removed at runtime is ignored. */
  method ApplyCacheSection(r: Option<CacheRegistry>, section: Option<Section<CacheSpec>>) returns (ok: bool)
    requires CacheReady(r) && (section.Some? ==> CacheValid(section.value))
    modifies CacheCells(r)
    ensures ok
    ensures CacheView(r) == if r.None? then None
                            else Some(ApplyCatalog(old(CacheView(r)).value, ProfilesOf(section), ApplyCache))
  {
    ok := true;
    if r.Some? {
      ApplyNothing(r.value.View(), ApplyCache);
      if section.Some? {
        ok := r.value.Apply(section.value);
      }
    }
  }

  ghost predicate TrafficReady(r: Option<TrafficRegistry>) { r.Some? ==> r.value.Valid() }

  ghost function TrafficCells(r: Option<TrafficRegistry>): set<object>
  {
    if r.Some? then r.value.catalog.profiles.Values else {}
  }

  ghost function TrafficView(r: Option<TrafficRegistry>): Option<map<string, LiveTraffic>>
    reads TrafficCells(r)
  {
    if r.Some? then Some(r.value.View()) else None
  }

  /** Every limiter object is the same exactly if no replacement was counted. */
  twostate predicate LimitersKept(r: Option<TrafficRegistry>)
    reads TrafficCells(r)
  {
    r.Some? ==> forall n :: n in r.value.catalog.profiles ==> r.value.catalog.profiles[n].LimiterKept()
  }

  method BootTrafficSection(section: Option<Section<TrafficConfig>>) returns (r: Option<TrafficRegistry>)
    requires section.Some? ==> TrafficValid(section.value)
    ensures TrafficReady(r) && fresh(TrafficCells(r))
    ensures section.Some? ==> r.Some? && Tabled(r.value.catalog, section.value)
    ensures TrafficView(r) == if section.None? then None
                              else Some(map n | n in section.value.profiles :: BootTraffic(section.value.profiles[n]))
  {
    if section.None? {
      return None;
    }
    var registry := new TrafficRegistry(section.value);
    r := Some(registry);
  }

  method ApplyTrafficSection(r: Option<TrafficRegistry>, section: Option<Section<TrafficConfig>>) returns (ok: bool)
    requires TrafficReady(r) && (section.Some? ==> TrafficValid(section.value))
    modifies TrafficCells(r)
    ensures ok
    ensures TrafficView(r) == if r.None? then None
                              else Some(ApplyCatalog(old(TrafficView(r)).value, ProfilesOf(section), ApplyTraffic))
    ensures LimitersKept(r)
  {
    ok := true;
    if r.Some? {
      ApplyNothing(r.value.View(), ApplyTraffic);
      if section.Some? {
        ok := r.value.Apply(section.value);
      }
    }
  }

  ghost function TelemetryCells(r: Option<TelemetryRegistry>): set<object>
  {
    if r.Some? then {r.value} else {}
  }

  ghost function TelemetryView(r: Option<TelemetryRegistry>): Option<LiveTelemetry>
    reads TelemetryCells(r)
  {
    if r.Some? then Some(r.value.View()) else None
  }

  method BootTelemetrySection(section: Option<Telemetry>) returns (r: Option<TelemetryRegistry>)
    ensures fresh(TelemetryCells(r))
    ensures TelemetryView(r) == if section.None? then None else Some(LiveTelemetry(section.value, None))
  {
    if section.None? {
      return None;
    }
    var registry := new TelemetryRegistry(section.value);
    r := Some(registry);
  }

  // ---------- The aggregate ----------

  class Registry {
    const resilience: ResilienceRegistry
    const cache: Option<CacheRegistry>
    const traffic: Option<TrafficRegistry>
    const telemetry: Option<TelemetryRegistry>

    ghost predicate Valid()
    {
      resilience.Valid() && CacheReady(cache) && TrafficReady(traffic)
    }

    /** The objects a reload may update. */
    ghost function Footprint(): set<object>
    {
      resilience.catalog.profiles.Values + CacheCells(cache) + TrafficCells(traffic) + TelemetryCells(telemetry)
    }

    ghost function View(): View
      reads Footprint()
    {
      ReloadHistory.View(resilience.View(), CacheView(cache), TrafficView(traffic), TelemetryView(telemetry))
    }

    /** Profiles of different sections are different objects. */
    lemma Separate()
      ensures resilience.catalog.profiles.Values !! CacheCells(cache) !! TrafficCells(traffic) !! TelemetryCells(telemetry)
    {
    }

    constructor (resilience: ResilienceRegistry, cache: Option<CacheRegistry>,
                 traffic: Option<TrafficRegistry>, telemetry: Option<TelemetryRegistry>)
      ensures this.resilience == resilience && this.cache == cache
      ensures this.traffic == traffic && this.telemetry == telemetry
    {
      this.resilience, this.cache, this.traffic, this.telemetry := resilience, cache, traffic, telemetry;
    }

    /**
     Hot-applies a document. The whole document is validated before anything is touched, so the
     sections' own validations cannot fail afterwards; telemetry goes last and its sink may refuse.
     */
    method Apply(doc: Document, sinkAccepts: bool) returns (outcome: Outcome)
      requires Valid()
      modifies Footprint()
      ensures (View(), outcome) == ReloadHistory.Apply(old(View()), doc, sinkAccepts)
      ensures LimitersKept(traffic)
    {
      if !InfraSchema.Valid(doc) {
        return Rejected;
      }
      var ok := ApplySections(doc);
      outcome := Applied;
      if telemetry.Some? && doc.telemetry.Some? {
        outcome := telemetry.value.Apply(doc.telemetry.value, sinkAccepts);
      }
    }

    /** The catalog sections in order; after whole-document validation none of them fails. */
    method ApplySections(doc: Document) returns (ok: bool)
      requires Valid() && InfraSchema.Valid(doc)
      modifies Footprint() - TelemetryCells(telemetry)
      ensures ok && View() == ReloadHistory.ApplySections(old(View()), doc)
      ensures LimitersKept(traffic)
    {
      Separate();
      ghost var before := View();
      ok := ApplyUntilTraffic(doc);
      assert TrafficView(traffic) == before.traffic && TelemetryView(telemetry) == before.telemetry;
      label applied:
      if ok {
        ok := ApplyTrafficSection(traffic, doc.traffic);
        assert resilience.View() == old@applied(resilience.View()) && CacheView(cache) == old@applied(CacheView(cache));
      }
    }

    method ApplyUntilTraffic(doc: Document) returns (ok: bool)
      requires Valid() && InfraSchema.Valid(doc)
      modifies resilience.catalog.profiles.Values + CacheCells(cache)
      ensures ok && resilience.View() == ReloadHistory.ApplySections(old(View()), doc).resilience
      ensures CacheView(cache) == ReloadHistory.ApplySections(old(View()), doc).cache
    {
      Separate();
      ok := resilience.ApplySection(doc.resilience);
      label applied:
      if ok {
        ok := ApplyCacheSection(cache, doc.cache);
        assert resilience.View() == old@applied(resilience.View());
      }
    }

    /** The binary registers its telemetry sink, if the deployment has a telemetry section. */
    method AttachSink(accepts: bool)
      requires Valid()
      modifies Footprint()
      ensures View() == ReloadHistory.React(old(View()), ReloadHistory.AttachSink(accepts))
      ensures LimitersKept(traffic)
    {
      Separate();
      if telemetry.Some? {
        var _ := telemetry.value.SetSink(accepts);
      }
    }

    /** A reload of raw text: what does not parse changes nothing. */
    method Reload(doc: Option<Document>, sinkAccepts: bool) returns (outcome: Outcome)
      requires Valid()
      modifies Footprint()
      ensures View() == ReloadHistory.React(old(View()), ReloadHistory.Reload(doc, sinkAccepts))
      ensures outcome == if doc.None? then Rejected else ReloadHistory.Apply(old(View()), doc.value, sinkAccepts).1
      ensures LimitersKept(traffic)
    {
      if doc.None? {
        return Rejected;
      }
      outcome := Apply(doc.value, sinkAccepts);
    }

    method React(e: Event)
      requires Valid()
      modifies Footprint()
      ensures View() == ReloadHistory.React(old(View()), e) && LimitersKept(traffic)
    {
      match e
      case Reload(doc, sinkAccepts) =>
        var _ := Reload(doc, sinkAccepts);
      case AttachSink(accepts) =>
        AttachSink(accepts);
    }
  }

  /** Boot: a registry for every valid document, none for any other. */
  method FromConfig(doc: Document) returns (r: Registry?)
    ensures r != null <==> Valid(doc)
    ensures r != null ==> r.Valid() && fresh(r) && fresh(r.Footprint()) && r.View() == Boot(doc)
    ensures r != null ==> Tabled(r.resilience.catalog, doc.resilience)
    ensures r != null && doc.cache.Some? ==> r.cache.Some? && Tabled(r.cache.value.catalog, doc.cache.value)
    ensures r != null && doc.traffic.Some? ==> r.traffic.Some? && Tabled(r.traffic.value.catalog, doc.traffic.value)
  {
    if !Valid(doc) {
      return null;
    }
    ghost var boot := Boot(doc);
    var resilience := new ResilienceRegistry(doc.resilience);
    var cache := BootCacheSection(doc.cache);
    assert resilience.View() == boot.resilience;
    var traffic := BootTrafficSection(doc.traffic);
    assert resilience.View() == boot.resilience && CacheView(cache) == boot.cache;
    var telemetry := BootTelemetrySection(doc.telemetry);
    assert resilience.View() == boot.resilience && CacheView(cache) == boot.cache && TrafficView(traffic) == boot.traffic;
    r := new Registry(resilience, cache, traffic, telemetry);
  }

  lemma AfterExtends(view: View, events: seq<Event>, i: nat)
    requires i < |events|
    ensures After(view, events[..i + 1]) == React(After(view, events[..i]), events[i])
  {
    assert events[..i + 1][..i] == events[..i];
  }

  /** What a dependency holds: its profile of each section the deployment has. */
  datatype Handles = Handles(resilience: ResilienceProfile, cache: Option<CacheProfile>, traffic: Option<TrafficProfile>)

  method TakeHandles(registry: Registry, dependency: string) returns (h: Handles)
    requires registry.Valid()
    ensures Holds(h, registry, dependency)
  {
    h := Handles(registry.resilience.catalog.ProfileFor(dependency), None, None);
    if registry.cache.Some? {
      h := h.(cache := Some(registry.cache.value.catalog.ProfileFor(dependency)));
    }
    if registry.traffic.Some? {
      h := h.(traffic := Some(registry.traffic.value.catalog.ProfileFor(dependency)));
    }
  }

  /** The handles are those a lookup of the dependency gives. */
  ghost predicate Holds(h: Handles, registry: Registry, dependency: string)
    requires registry.Valid()
  {
    && h.resilience == registry.resilience.catalog.ProfileFor(dependency)
    && (h.cache.Some? <==> registry.cache.Some?) && (h.traffic.Some? <==> registry.traffic.Some?)
    && (h.cache.Some? ==> h.cache.value == registry.cache.value.catalog.ProfileFor(dependency))
    && (h.traffic.Some? ==> h.traffic.value == registry.traffic.value.catalog.ProfileFor(dependency))
  }

  /** The handles read what the live view has under the dependency's names. */
  ghost predicate ReadsTheView(h: Handles, registry: Registry, dependency: string)
    requires registry.Valid() && Holds(h, registry, dependency)
    reads registry.Footprint()
  {
    var view := registry.View();
    && (var n := registry.resilience.catalog.NameFor(dependency);
        n in view.resilience && h.resilience.View() == view.resilience[n])
    && (h.cache.Some? ==>
          var n := registry.cache.value.catalog.NameFor(dependency);
          n in view.cache.value && h.cache.value.config == view.cache.value[n])
    && (h.traffic.Some? ==>
          var n := registry.traffic.value.catalog.NameFor(dependency);
          n in view.traffic.value && h.traffic.value.View() == view.traffic.value[n])
  }

  /** Handles read the current contents at any time, whenever they were taken. */
  lemma HandlesStayCurrent(h: Handles, registry: Registry, dependency: string)
    requires registry.Valid() && Holds(h, registry, dependency)
    ensures ReadsTheView(h, registry, dependency)
  {
  }

  /**
   The single writer: applies any sequence of reloads, and sinks being attached, to one registry.
   The objects end as the history on values says, handles taken at the start read the contents at the
   end, and a traffic profile's limiter is still the same object exactly if the history counts no
   replacement.
   */
  method DriveReloads(registry: Registry, events: seq<Event>, dependency: string) returns (h: Handles)
    requires registry.Valid()
    modifies registry.Footprint()
    ensures registry.View() == After(old(registry.View()), events)
    ensures Holds(h, registry, dependency) && ReadsTheView(h, registry, dependency)
    ensures LimitersKept(registry.traffic)
  {
    h := TakeHandles(registry, dependency);
    ghost var boot := registry.View();
    for i := 0 to |events|
      invariant registry.View() == After(boot, events[..i])
      invariant LimitersKept(registry.traffic)
    {
      AfterExtends(boot, events, i);
      registry.React(events[i]);
    }
    assert events[..|events|] == events;
    HandlesStayCurrent(h, registry, dependency);
  }
}
