/**
 The hot-reload watcher: writers change the file, the file system reports changes as ticks on a
 channel, and one loop receives a tick, drains the rest, reads the file and reloads. All of these
 interleave freely.
 */
module ConfigWatcher {
  import opened Wrappers
  import opened InfraSchema
  import opened ReloadHistory

  datatype Loop = Waiting | Draining | Reading

  datatype State = State(
    file: Option<string>,      // the file's contents, if it can be read
    unreported: nat,           // changes the file system has not reported yet
    ticks: nat,                // reports waiting in the channel
    sent: nat,                 // reports ever sent
    loop: Loop,
    lastRead: Option<string>,  // what the last read (at first, the boot-time read) returned
    reloads: nat,              // reads by the loop
    writes: nat,               // changes since the watch began
    before: View,              // the configuration before the last read
    accepted: bool,            // what the telemetry sink said at the last read
    view: View)                // the live configuration

  datatype Step =
    | Write(contents: Option<string>)
    | Report(changes: nat)  // one report may stand for several changes
    | Stray                 // a report about another file of the directory
    | Receive
    | DrainOne
    | DrainEnd
    | Read(sinkAccepts: bool)

  /** The watch begins on a file whose contents may differ from what was read at boot. */
  function Begin(file: Option<string>, bootRead: Option<string>, view: View): State
  {
    State(file, 0, 0, 0, Waiting, bootRead, 0, 0, view, true, view)
  }

  predicate Enabled(s: State, step: Step)
  {
    match step
    case Write(_) => true
    case Report(changes) => 1 <= changes <= s.unreported
    case Stray => true
    case Receive => s.loop.Waiting? && s.ticks > 0
    case DrainOne => s.loop.Draining? && s.ticks > 0
    case DrainEnd => s.loop.Draining? && s.ticks == 0
    case Read(_) => s.loop.Reading?
  }

  /** What a read of the file does to the configuration; an unreadable file is skipped. */
  function ReloadFrom(parse: string -> Option<Document>, view: View, contents: Option<string>, sinkAccepts: bool): View
  {
    if contents.None? then view else React(view, Reload(parse(contents.value), sinkAccepts))
  }

  function Next(parse: string -> Option<Document>, s: State, step: Step): State
    requires Enabled(s, step)
  {
    match step
    case Write(contents) => s.(file := contents, unreported := s.unreported + 1, writes := s.writes + 1)
    case Report(changes) => s.(unreported := s.unreported - changes, ticks := s.ticks + 1, sent := s.sent + 1)
    case Stray => s.(ticks := s.ticks + 1, sent := s.sent + 1)
    case Receive => s.(ticks := s.ticks - 1, loop := Draining)
    case DrainOne => s.(ticks := s.ticks - 1)
    case DrainEnd => s.(loop := Reading)
    case Read(sinkAccepts) =>
      s.(loop := Waiting, lastRead := s.file, reloads := s.reloads + 1, before := s.view, accepted := sinkAccepts,
         view := ReloadFrom(parse, s.view, s.file, sinkAccepts))
  }

  ghost predicate Path(parse: string -> Option<Document>, s: State, steps: seq<Step>, s': State)
    decreases |steps|
  {
    if steps == [] then s == s'
    else Enabled(s, steps[0]) && Path(parse, Next(parse, s, steps[0]), steps[1..], s')
  }

  /** Nothing is on its way and the loop waits for a tick. */
  predicate Quiescent(s: State)
  {
    s.unreported == 0 && s.ticks == 0 && s.loop.Waiting?
  }

  /**
   Unless something is on its way, the loop has read the current contents or nothing has happened
   since the watch began; every read was paid for by a report.
   */
  predicate Tracking(parse: string -> Option<Document>, s: State)
  {
    && (Quiescent(s) ==> s.lastRead == s.file || (s.writes == 0 && s.reloads == 0))
    && (s.reloads > 0 ==> s.view == ReloadFrom(parse, s.before, s.lastRead, s.accepted))
    && s.reloads + s.ticks + (if s.loop.Waiting? then 0 else 1) <= s.sent
  }

  lemma {:induction false} PathTracks(parse: string -> Option<Document>, s: State, steps: seq<Step>, s': State)
    requires Tracking(parse, s) && Path(parse, s, steps, s')
    ensures Tracking(parse, s')
    decreases |steps|
  {
    if steps != [] {
      PathTracks(parse, Next(parse, s, steps[0]), steps[1..], s');
    }
  }

  lemma {:induction false} CountsGrow(parse: string -> Option<Document>, s: State, steps: seq<Step>, s': State)
    requires Path(parse, s, steps, s')
    ensures s.writes <= s'.writes && s.reloads <= s'.reloads
    ensures s.sent <= s'.sent && (Stray in steps ==> s.sent < s'.sent)
    ensures s'.writes == s.writes ==> s'.file == s.file
    ensures s'.reloads == s.reloads ==> s'.lastRead == s.lastRead && s'.view == s.view
    decreases |steps|
  {
    if steps != [] {
      assert steps == [steps[0]] + steps[1..];
      CountsGrow(parse, Next(parse, s, steps[0]), steps[1..], s');
    }
  }

  /**
   The last write is never missed, however many ticks were coalesced: when everything is quiet the
   loop's last read is the file's current contents, exactly unless the file had already changed
   between the boot-time read and the start of the watch and nothing has been reported since; a
   report about any file of the directory mends that.
   */
  lemma LastWriteIsRead(parse: string -> Option<Document>, file: Option<string>, bootRead: Option<string>, view: View,
                        steps: seq<Step>, s: State)
    requires Path(parse, Begin(file, bootRead, view), steps, s) && Quiescent(s)
    ensures s.lastRead == s.file <==> !(s.reloads == 0 && s.writes == 0 && bootRead != file)
    ensures s.reloads <= s.sent && (s.writes > 0 || Stray in steps ==> s.reloads > 0)
  {
    WritesAreRead(parse, Begin(file, bootRead, view), steps, s);
    PathTracks(parse, Begin(file, bootRead, view), steps, s);
    CountsGrow(parse, Begin(file, bootRead, view), steps, s);
  }

  /** Work left for the file system and the loop. */
  function Backlog(s: State): nat
  {
    5 * s.unreported + 3 * s.ticks + match s.loop case Waiting => 0 case Draining => 2 case Reading => 1
  }

  /** A move of the file system or the loop, not a new change. */
  predicate Own(step: Step) { !step.Write? && !step.Stray? }

  lemma LoopCanMove(s: State) returns (step: Step)
    requires !Quiescent(s)
    ensures Enabled(s, step) && Own(step)
  {
    step := if s.unreported > 0 then Report(1)
            else if s.loop.Reading? then Read(true)
            else if s.loop.Draining? then (if s.ticks > 0 then DrainOne else DrainEnd)
            else Receive;
  }

  /** Without new changes no schedule is longer than the backlog, and one that cannot go on has left all quiet. */
  lemma {:induction false} EveryScheduleRests(parse: string -> Option<Document>, s: State, steps: seq<Step>, s': State)
    requires Path(parse, s, steps, s') && forall i :: 0 <= i < |steps| ==> Own(steps[i])
    ensures |steps| + Backlog(s') <= Backlog(s)
    ensures (forall step :: Own(step) ==> !Enabled(s', step)) <==> Quiescent(s')
    decreases |steps|
  {
    if steps != [] {
      EveryScheduleRests(parse, Next(parse, s, steps[0]), steps[1..], s');
    } else if !Quiescent(s') {
      var step := LoopCanMove(s');
    }
  }

  /** The file can be read, parses and is valid. */
  predicate Readable(parse: string -> Option<Document>, file: Option<string>)
  {
    file.Some? && parse(file.value).Some? && Valid(parse(file.value).value)
  }

  /**
   End to end: when everything is quiet after a write and the file holds a valid document, every
   resilience, cache and traffic profile known at boot that the document defines has its contents, and
   so have the telemetry settings and the sink, unless an attached sink refused them. A file that
   cannot be read, does not parse or is invalid has changed nothing.
   */
  lemma QuietMeansApplied(parse: string -> Option<Document>, file: Option<string>, bootRead: Option<string>, view: View,
                          steps: seq<Step>, s: State, n: string)
    requires Path(parse, Begin(file, bootRead, view), steps, s) && Quiescent(s) && s.writes > 0
    ensures !Readable(parse, s.file) ==> s.view == s.before
    ensures Readable(parse, s.file) ==>
            var doc := parse(s.file.value).value;
            && (n in s.view.resilience && n in doc.resilience.profiles ==>
                  && s.view.resilience[n].timeout == doc.resilience.profiles[n].timeout
                  && s.view.resilience[n].breaker == doc.resilience.profiles[n].breaker)
            && (s.view.cache.Some? && doc.cache.Some? && n in s.view.cache.value && n in doc.cache.value.profiles ==>
                  s.view.cache.value[n] == ToCacheConfig(doc.cache.value.profiles[n]))
            && (s.view.traffic.Some? && doc.traffic.Some? && n in s.view.traffic.value && n in doc.traffic.value.profiles ==>
                  s.view.traffic.value[n].config == doc.traffic.value.profiles[n])
            && (s.before.telemetry.Some? && doc.telemetry.Some? ==>
                  && s.view.telemetry.Some?
                  && var refused := s.before.telemetry.value.sink.Some? && !s.accepted;
                     && s.view.telemetry.value.settings ==
                          (if refused then s.before.telemetry.value.settings else doc.telemetry.value)
                     && (s.before.telemetry.value.sink.Some? && !refused ==>
                           s.view.telemetry.value.sink == Some(doc.telemetry.value)))
  {
    PathTracks(parse, Begin(file, bootRead, view), steps, s);
    WritesAreRead(parse, Begin(file, bootRead, view), steps, s);
    if Readable(parse, s.file) {
      ReactSections(s.before, Reload(parse(s.file.value), s.accepted));
    }
  }

  predicate LoopStep(step: Step) { step.Receive? || step.DrainOne? || step.DrainEnd? || step.Read? }

  /** The reloads the loop will do with the reports it has. */
  function Due(s: State): nat
  {
    match s.loop
    case Waiting => if s.ticks > 0 then 1 else 0
    case Draining => 1
    case Reading => if s.ticks > 0 then 2 else 1
  }

  /**
   A burst costs one reload: with no further report, the loop reloads at most once for all the reports
   that wait in the channel, besides the reload it may be about to do.
   */
  lemma {:induction false} BurstCostsOneReload(parse: string -> Option<Document>, s: State, steps: seq<Step>, s': State)
    requires Path(parse, s, steps, s') && forall i :: 0 <= i < |steps| ==> LoopStep(steps[i])
    ensures s'.reloads + Due(s') == s.reloads + Due(s)
    decreases |steps|
  {
    if steps != [] {
      BurstCostsOneReload(parse, Next(parse, s, steps[0]), steps[1..], s');
    }
  }

  /** A write or a report leaves something on its way until the loop reads. */
  lemma {:induction false} WritesAreRead(parse: string -> Option<Document>, s: State, steps: seq<Step>, s': State)
    requires Path(parse, s, steps, s') && ((s.writes > 0 || s.sent > 0) && s.reloads == 0 ==> !Quiescent(s))
    ensures (s'.writes > 0 || s'.sent > 0) && s'.reloads == 0 ==> !Quiescent(s')
    decreases |steps|
  {
    if steps != [] {
      WritesAreRead(parse, Next(parse, s, steps[0]), steps[1..], s');
    }
  }
}
