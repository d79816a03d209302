/**
 The infrastructure document, its validation, and the resolved name tables. Every catalog section
 has the same shape: named profile specs, bindings from a dependency to a profile name, and the
 name used by everything unbound.
 */
module InfraSchema {
  import opened Wrappers
  import opened LeaseMath

  datatype Section<S> = Section(profiles: map<string, S>, bindings: map<string, string>, default: string)

  // ---------- Resilience ----------

  datatype Timeout = Timeout(durationMs: nat)
  datatype Breaker = Breaker(failureThreshold: u32, successThreshold: u32, openMs: nat, halfOpenMaxCalls: u32)
  datatype Jitter = NoJitter | Full | Equal
  datatype Backoff = Exponential(baseMs: u64, maxMs: u64, jitter: Jitter)
  datatype Retry = Retry(maxAttempts: u32, backoff: Backoff)
  datatype ResilienceSpec = ResilienceSpec(timeout: Timeout, breaker: Breaker, retry: Retry)

  // ---------- Cache ----------

  datatype CacheSpec = CacheSpec(ttlSecs: u64, negativeTtlSecs: u64)
  datatype CacheConfig = CacheConfig(ttl: u64, negativeTtl: Option<u64>)

  /** A zero negative TTL disables negative caching. */
  function ToCacheConfig(spec: CacheSpec): (config: CacheConfig)
    ensures config.ttl == spec.ttlSecs
    ensures config.negativeTtl.Some? <==> spec.negativeTtlSecs != 0
    ensures config.negativeTtl.Some? ==> config.negativeTtl.value == spec.negativeTtlSecs
  {
    CacheConfig(spec.ttlSecs, if spec.negativeTtlSecs > 0 then Some(spec.negativeTtlSecs) else None)
  }

  // ---------- Traffic ----------

  datatype Scope = PerMethod | PerCaller
  datatype Mode = Local | Distributed
  datatype BackendError = FailOpen | FailClosed

  /** The wire form and the runtime form of a traffic profile have the same fields. */
  datatype TrafficConfig = TrafficConfig(
    rps: u32, burst: u32, scope: Scope, mode: Mode, enforce: bool,
    leaseMs: Option<u64>, onBackendError: Option<BackendError>)

  const DEFAULT_LEASE_MS: u64 := 1000

  /** The fleet-global quota a distributed profile is held to. */
  function QuotaOf(config: TrafficConfig): (quota: Quota)
    ensures quota.rps == config.rps && quota.burst == config.burst
    ensures config.leaseMs.Some? ==> quota.leaseMs == config.leaseMs.value
    ensures config.leaseMs.None? ==> quota.leaseMs == 1000
  {
    Quota(config.rps, config.burst, if config.leaseMs.Some? then config.leaseMs.value else DEFAULT_LEASE_MS)
  }

  // ---------- Telemetry ----------

  /** A sampling ratio; what is not a number, or not finite, is never in range. */
  datatype Ratio = Finite(value: real) | NotFinite
  datatype Sampling = AlwaysOn | AlwaysOff | TraceIdRatio(ratio: Ratio)
  datatype Telemetry = Telemetry(logFilter: Option<string>, sampling: Option<Sampling>)

  // ---------- The document ----------

  datatype Document = Document(
    resilience: Section<ResilienceSpec>,
    cache: Option<Section<CacheSpec>>,
    traffic: Option<Section<TrafficConfig>>,
    telemetry: Option<Telemetry>)

  predicate ReferencesResolve<S>(s: Section<S>)
  {
    s.default in s.profiles && forall d :: d in s.bindings ==> s.bindings[d] in s.profiles
  }

  predicate ResilienceOk(spec: ResilienceSpec)
  {
    && spec.timeout.durationMs > 0
    && spec.breaker.failureThreshold > 0 && spec.breaker.successThreshold > 0
    && spec.breaker.halfOpenMaxCalls > 0
    && spec.retry.backoff.baseMs <= spec.retry.backoff.maxMs
  }

  predicate CacheOk(spec: CacheSpec) { spec.ttlSecs > 0 }

  predicate TrafficOk(spec: TrafficConfig)
  {
    && spec.rps > 0 && spec.burst > 0
    && (spec.mode.Distributed? ==> spec.leaseMs.Some? && spec.leaseMs.value > 0)
  }

  predicate ResilienceValid(s: Section<ResilienceSpec>)
  {
    ReferencesResolve(s) && forall n :: n in s.profiles ==> ResilienceOk(s.profiles[n])
  }

  predicate CacheValid(s: Section<CacheSpec>)
  {
    ReferencesResolve(s) && forall n :: n in s.profiles ==> CacheOk(s.profiles[n])
  }

  predicate TrafficValid(s: Section<TrafficConfig>)
  {
    ReferencesResolve(s) && forall n :: n in s.profiles ==> TrafficOk(s.profiles[n])
  }

  predicate TelemetryValid(t: Telemetry)
  {
    t.sampling.Some? && t.sampling.value.TraceIdRatio? ==>
      t.sampling.value.ratio.Finite? && 0.0 <= t.sampling.value.ratio.value <= 1.0
  }

  predicate Valid(doc: Document)
  {
    && ResilienceValid(doc.resilience)
    && (doc.cache.Some? ==> CacheValid(doc.cache.value))
    && (doc.traffic.Some? ==> TrafficValid(doc.traffic.value))
    && (doc.telemetry.Some? ==> TelemetryValid(doc.telemetry.value))
  }

  // ---------- What validation refuses ----------

  datatype Kind = ResilienceSection | CacheSection | TrafficSection

  /** The faults validation reports. */
  datatype Fault =
    | UndefinedDefault(kind: Kind)
    | UndefinedBinding(kind: Kind, dependency: string)
    | ZeroTimeout(profile: string)
    | ZeroThreshold(profile: string)
    | ZeroHalfOpenCalls(profile: string)
    | BackoffOutOfOrder(profile: string)
    | ZeroTtl(profile: string)
    | ZeroRate(profile: string)
    | ZeroBurst(profile: string)
    | NoLeaseWindow(profile: string)
    | RatioOutOfRange

  predicate DefaultMissing<S>(s: Section<S>) { s.default !in s.profiles }

  predicate BindingMissing<S>(s: Section<S>, dependency: string)
  {
    dependency in s.bindings && s.bindings[dependency] !in s.profiles
  }

  predicate Present(doc: Document, fault: Fault)
  {
    var r := doc.resilience.profiles;
    match fault
    case UndefinedDefault(ResilienceSection) => DefaultMissing(doc.resilience)
    case UndefinedDefault(CacheSection) => doc.cache.Some? && DefaultMissing(doc.cache.value)
    case UndefinedDefault(TrafficSection) => doc.traffic.Some? && DefaultMissing(doc.traffic.value)
    case UndefinedBinding(ResilienceSection, d) => BindingMissing(doc.resilience, d)
    case UndefinedBinding(CacheSection, d) => doc.cache.Some? && BindingMissing(doc.cache.value, d)
    case UndefinedBinding(TrafficSection, d) => doc.traffic.Some? && BindingMissing(doc.traffic.value, d)
    case ZeroTimeout(n) => n in r && r[n].timeout.durationMs == 0
    case ZeroThreshold(n) => n in r && (r[n].breaker.failureThreshold == 0 || r[n].breaker.successThreshold == 0)
    case ZeroHalfOpenCalls(n) => n in r && r[n].breaker.halfOpenMaxCalls == 0
    case BackoffOutOfOrder(n) => n in r && r[n].retry.backoff.maxMs < r[n].retry.backoff.baseMs
    case ZeroTtl(n) =>
      doc.cache.Some? && n in doc.cache.value.profiles && doc.cache.value.profiles[n].ttlSecs == 0
    case ZeroRate(n) =>
      doc.traffic.Some? && n in doc.traffic.value.profiles && doc.traffic.value.profiles[n].rps == 0
    case ZeroBurst(n) =>
      doc.traffic.Some? && n in doc.traffic.value.profiles && doc.traffic.value.profiles[n].burst == 0
    case NoLeaseWindow(n) =>
      doc.traffic.Some? && n in doc.traffic.value.profiles && doc.traffic.value.profiles[n].mode == Distributed &&
      (doc.traffic.value.profiles[n].leaseMs == None || doc.traffic.value.profiles[n].leaseMs == Some(0))
    case RatioOutOfRange =>
      doc.telemetry.Some? && doc.telemetry.value.sampling.Some? && doc.telemetry.value.sampling.value.TraceIdRatio? &&
      match doc.telemetry.value.sampling.value.ratio
      case Finite(x) => x < 0.0 || 1.0 < x
      case NotFinite => true
  }

  lemma ResilienceFault(doc: Document)
    requires !ResilienceValid(doc.resilience)
    ensures exists fault :: Present(doc, fault)
  {
    var s := doc.resilience;
    if s.default !in s.profiles {
      assert Present(doc, UndefinedDefault(ResilienceSection));
    } else if d :| d in s.bindings && s.bindings[d] !in s.profiles {
      assert Present(doc, UndefinedBinding(ResilienceSection, d));
    } else {
      var n :| n in s.profiles && !ResilienceOk(s.profiles[n]);
      assert Present(doc, ZeroTimeout(n)) || Present(doc, ZeroThreshold(n)) || Present(doc, ZeroHalfOpenCalls(n)) ||
             Present(doc, BackoffOutOfOrder(n));
    }
  }

  lemma CacheFault(doc: Document)
    requires doc.cache.Some? && !CacheValid(doc.cache.value)
    ensures exists fault :: Present(doc, fault)
  {
    var s := doc.cache.value;
    if s.default !in s.profiles {
      assert Present(doc, UndefinedDefault(CacheSection));
    } else if d :| d in s.bindings && s.bindings[d] !in s.profiles {
      assert Present(doc, UndefinedBinding(CacheSection, d));
    } else {
      var n :| n in s.profiles && !CacheOk(s.profiles[n]);
      assert Present(doc, ZeroTtl(n));
    }
  }

  lemma TrafficFault(doc: Document)
    requires doc.traffic.Some? && !TrafficValid(doc.traffic.value)
    ensures exists fault :: Present(doc, fault)
  {
    var s := doc.traffic.value;
    if s.default !in s.profiles {
      assert Present(doc, UndefinedDefault(TrafficSection));
    } else if d :| d in s.bindings && s.bindings[d] !in s.profiles {
      assert Present(doc, UndefinedBinding(TrafficSection, d));
    } else {
      var n :| n in s.profiles && !TrafficOk(s.profiles[n]);
      assert Present(doc, ZeroRate(n)) || Present(doc, ZeroBurst(n)) || Present(doc, NoLeaseWindow(n));
    }
  }

  /** A document is refused exactly if it has one of the listed faults. */
  lemma RefusedExactlyForFaults(doc: Document)
    ensures !Valid(doc) <==> exists fault :: Present(doc, fault)
  {
    if !ResilienceValid(doc.resilience) {
      ResilienceFault(doc);
    } else if doc.cache.Some? && !CacheValid(doc.cache.value) {
      CacheFault(doc);
    } else if doc.traffic.Some? && !TrafficValid(doc.traffic.value) {
      TrafficFault(doc);
    } else if doc.telemetry.Some? && !TelemetryValid(doc.telemetry.value) {
      assert Present(doc, RatioOutOfRange);
    } else {
      forall fault ensures !Present(doc, fault) {
        NoFault(doc, fault);
      }
    }
  }

  lemma NoFault(doc: Document, fault: Fault)
    requires Valid(doc)
    ensures !Present(doc, fault)
  {
  }

  // ---------- Resolved catalogs ----------

  /** Live profiles by name, the binding table and the default name; fixed once built. */
  datatype Catalog<L> = Catalog(profiles: map<string, L>, bindings: map<string, string>, default: string) {
    /** Every name the tables mention has a profile. */
    predicate Complete()
    {
      default in profiles && forall d :: d in bindings ==> bindings[d] in profiles
    }

    /** The name a dependency goes by: its binding, else the default. */
    function NameFor(dependency: string): string
    {
      if dependency in bindings then bindings[dependency] else default
    }

    /** The live profile of a dependency; a complete catalog never falls back from a binding. */
    function ProfileFor(dependency: string): (live: L)
      requires default in profiles
      ensures dependency in bindings && bindings[dependency] in profiles ==> live == profiles[bindings[dependency]]
      ensures !(dependency in bindings && bindings[dependency] in profiles) ==> live == profiles[default]
      ensures Complete() ==> NameFor(dependency) in profiles && live == profiles[NameFor(dependency)]
    {
      var name := NameFor(dependency);
      if name in profiles then profiles[name] else profiles[default]
    }

    /** The effective profile name, whether it was bound explicitly, and the profile. */
    function Resolve(dependency: string): (r: (string, bool, L))
      requires Complete()
      ensures r.1 <==> dependency in bindings
      ensures r.0 == (if r.1 then bindings[dependency] else default) == NameFor(dependency)
      ensures r.0 in profiles && r.2 == profiles[r.0] == ProfileFor(dependency)
    {
      if dependency in bindings then (bindings[dependency], true, profiles[bindings[dependency]])
      else (default, false, profiles[default])
    }
  }
}
