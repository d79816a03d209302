/**
 The ScyllaDB migration runner for one service as a resumable state machine: read the recorded
 versions, skip those, run the statements of every other file in order, then record its version.
 A run may stop anywhere, with or without the cluster having carried out the query in flight.

 Statements are additive DDL: each creates a set of schema objects. The cluster may answer
 "already exists" only when they do.
 */
module Migrations {
  import opened Splitter

  datatype Reply =
    | Done                     // carried out and acknowledged
    | Refused(message: string) // not carried out
    | Broken(carriedOut: bool) // the client saw a failure or died; the query may have taken effect

  /** The migration files of one service in filename order, split, and what each statement creates. */
  datatype Job = Job(files: seq<(string, seq<string>)>, creates: string -> set<string>) {
    function Version(f: nat): string
      requires f < |files|
    {
      files[f].0
    }

    function Code(f: nat): seq<string>
      requires f < |files|
    {
      files[f].1
    }

    /** File names in one directory are distinct. */
    predicate Distinct()
    {
      forall f, g :: 0 <= f < g < |files| ==> Version(f) != Version(g)
    }
  }

  /** The job of a directory: each file's name and its contents, split. */
  function JobOf(dir: seq<(string, string)>, creates: string -> set<string>): Job
  {
    Job(seq(|dir|, f requires 0 <= f < |dir| => (dir[f].0, Split(dir[f].1))), creates)
  }

  datatype Position = Idle | Running(file: nat, stmt: nat, recorded: set<string>)

  /** Schema objects, recorded versions, statements the cluster has accepted, in order, and where the run is. */
  datatype World = World(schema: set<string>, applied: set<string>, accepted: seq<string>, at: Position)

  datatype Step = Start | Skip | Query(reply: Reply) | Record(reply: Reply) | Finish | Crash

  function Lower(s: string): string
  {
    if s == [] then ""
    else [if 'A' <= s[0] <= 'Z' then (s[0] as int + 32) as char else s[0]] + Lower(s[1..])
  }

  predicate Contains(s: string, part: string)
  {
    part <= s || (s != [] && Contains(s[1..], part))
  }

  predicate IsAlreadyExists(message: string)
  {
    var m := Lower(message);
    Contains(m, "already exists") || Contains(m, "conflicts with an existing column")
  }

  /** Letters that differ at most in ASCII case, `b` being the lower-case one. */
  predicate SameLetter(a: char, b: char)
  {
    a == b || ('A' <= a <= 'Z' && a as int + 32 == b as int)
  }

  /** `phrase` stands at position `i` of the message, in any ASCII case. */
  predicate Says(message: string, i: nat, phrase: string)
  {
    i + |phrase| <= |message| && forall j :: 0 <= j < |phrase| ==> SameLetter(message[i + j], phrase[j])
  }

  lemma {:induction false} LowerAt(s: string)
    ensures |Lower(s)| == |s|
    ensures forall i :: 0 <= i < |s| ==>
              Lower(s)[i] == if 'A' <= s[i] <= 'Z' then (s[i] as int + 32) as char else s[i]
  {
    if s != [] {
      LowerAt(s[1..]);
    }
  }

  lemma {:induction false} ContainsSomewhere(s: string, part: string)
    ensures Contains(s, part) <==> exists i :: 0 <= i <= |s| && part <= s[i..]
  {
    if part <= s {
      assert s[0..] == s;
    } else if s != [] {
      ContainsSomewhere(s[1..], part);
      if i :| 0 <= i <= |s| && part <= s[i..] {
        assert i > 0 by {
          assert s[0..] == s;
        }
        assert s[1..][i - 1..] == s[i..];
      }
      if i :| 0 <= i <= |s[1..]| && part <= s[1..][i..] {
        assert s[1..][i..] == s[i + 1..];
      }
    }
  }

  /** No upper-case letter. */
  predicate LowerCase(s: string) { forall i :: 0 <= i < |s| ==> !('A' <= s[i] <= 'Z') }

  lemma LoweredContains(message: string, phrase: string)
    requires LowerCase(phrase)
    ensures Contains(Lower(message), phrase) <==> exists i :: Says(message, i, phrase)
  {
    var m := Lower(message);
    LowerAt(message);
    ContainsSomewhere(m, phrase);
    if i :| 0 <= i <= |m| && phrase <= m[i..] {
      forall j | 0 <= j < |phrase| ensures SameLetter(message[i + j], phrase[j]) {
        assert m[i..][j] == phrase[j];
      }
      assert Says(message, i, phrase);
    }
    if i: nat :| Says(message, i, phrase) {
      assert |m[i..]| >= |phrase|;
      forall j | 0 <= j < |phrase| ensures m[i..][j] == phrase[j] {
        assert SameLetter(message[i + j], phrase[j]);
      }
      assert phrase <= m[i..];
    }
  }

  /** The messages tolerated are exactly those that say one of two things, in any ASCII case. */
  lemma ToleratedMessages(message: string)
    ensures IsAlreadyExists(message) <==>
            || (exists i :: Says(message, i, "already exists"))
            || (exists i :: Says(message, i, "conflicts with an existing column"))
  {
    LoweredContains(message, "already exists");
    LoweredContains(message, "conflicts with an existing column");
  }

  /** Does the runner go on after this reply to a statement? */
  predicate Tolerated(reply: Reply)
  {
    reply.Done? || (reply.Refused? && IsAlreadyExists(reply.message))
  }

  /** An additive cluster reports objects as existing only when they are. */
  predicate Legal(creates: string -> set<string>, schema: set<string>, stmt: string, reply: Reply)
  {
    reply.Refused? && IsAlreadyExists(reply.message) ==> creates(stmt) <= schema
  }

  predicate TookEffect(reply: Reply)
  {
    reply.Done? || (reply.Broken? && reply.carriedOut)
  }

  predicate OnFile(job: Job, w: World)
  {
    w.at.Running? && w.at.file < |job.files|
  }

  predicate Enabled(job: Job, w: World, step: Step)
  {
    match step
    case Start => w.at.Idle?
    case Skip => OnFile(job, w) && w.at.stmt == 0 && job.Version(w.at.file) in w.at.recorded
    case Query(reply) =>
      && OnFile(job, w) && job.Version(w.at.file) !in w.at.recorded && w.at.stmt < |job.Code(w.at.file)|
      && Legal(job.creates, w.schema, job.Code(w.at.file)[w.at.stmt], reply)
    case Record(_) =>
      OnFile(job, w) && job.Version(w.at.file) !in w.at.recorded && w.at.stmt == |job.Code(w.at.file)|
    case Finish => w.at.Running? && w.at.file == |job.files|
    case Crash => w.at.Running?
  }

  function Next(job: Job, w: World, step: Step): World
    requires Enabled(job, w, step)
  {
    match step
    case Start => w.(at := Running(0, 0, w.applied))
    case Skip => w.(at := Running(w.at.file + 1, 0, w.at.recorded))
    case Query(reply) =>
      var stmt := job.Code(w.at.file)[w.at.stmt];
      World(if TookEffect(reply) then w.schema + job.creates(stmt) else w.schema,
            w.applied,
            if TookEffect(reply) || Tolerated(reply) then w.accepted + [stmt] else w.accepted,
            if Tolerated(reply) then w.at.(stmt := w.at.stmt + 1) else Idle)
    case Record(reply) =>
      World(w.schema,
            if TookEffect(reply) then w.applied + {job.Version(w.at.file)} else w.applied,
            w.accepted,
            if reply.Done? then Running(w.at.file + 1, 0, w.at.recorded) else Idle)
    case Finish => w.(at := Idle)
    case Crash => w.(at := Idle)
  }

  /** `steps` lead from `w` to `w'`. */
  ghost predicate Path(job: Job, w: World, steps: seq<Step>, w': World)
    decreases |steps|
  {
    if steps == [] then w == w'
    else Enabled(job, w, steps[0]) && Path(job, Next(job, w, steps[0]), steps[1..], w')
  }

  lemma {:induction false} PathExtends(job: Job, w: World, steps: seq<Step>, m: World, step: Step)
    requires Path(job, w, steps, m) && Enabled(job, m, step)
    ensures Path(job, w, steps + [step], Next(job, m, step))
    decreases |steps|
  {
    if steps != [] {
      assert (steps + [step])[1..] == steps[1..] + [step];
      PathExtends(job, Next(job, w, steps[0]), steps[1..], m, step);
    }
  }

  // ---------- Resumability ----------

  function Versions(job: Job, n: nat): set<string>
    requires n <= |job.files|
  {
    if n == 0 then {} else Versions(job, n - 1) + {job.Version(n - 1)}
  }

  lemma {:induction false} VersionsHold(job: Job, n: nat, f: nat)
    requires job.Distinct() && n <= |job.files| && f < |job.files|
    ensures job.Version(f) in Versions(job, n) <==> f < n
  {
    if n > 0 {
      VersionsHold(job, n - 1, f);
    }
  }

  /** What the first `n` statements create. */
  function Created(job: Job, code: seq<string>, n: nat): set<string>
    requires n <= |code|
  {
    if n == 0 then {} else Created(job, code, n - 1) + job.creates(code[n - 1])
  }

  /** What the first `n` files create. */
  function CreatedBy(job: Job, n: nat): set<string>
    requires n <= |job.files|
  {
    if n == 0 then {} else CreatedBy(job, n - 1) + Created(job, job.Code(n - 1), |job.Code(n - 1)|)
  }

  predicate AcceptedUpTo(w: World, code: seq<string>, n: nat)
    requires n <= |code|
  {
    forall k :: 0 <= k < n ==> code[k] in w.accepted
  }

  /** The run began with `m` files recorded, and recorded each file it has passed since. */
  predicate StartedAt(job: Job, w: World, p: nat, m: nat)
    requires w.at.Running? && m <= |job.files|
  {
    && w.at.recorded == Versions(job, m)
    && p == (if m < w.at.file then w.at.file else m)
    && (w.at.file < m ==> w.at.stmt == 0)
  }

  /**
   The first `p` files are recorded and nothing else, all their statements were accepted, and the
   schema is the initial one plus everything they create plus part of what the others do. A run
   under way has skipped or recorded every file before the one it is on.
   */
  ghost predicate Resumable(job: Job, base: set<string>, w: World, p: nat)
  {
    && p <= |job.files|
    && w.applied == Versions(job, p)
    && (forall f :: 0 <= f < p ==> AcceptedUpTo(w, job.Code(f), |job.Code(f)|))
    && base + CreatedBy(job, p) <= w.schema <= base + CreatedBy(job, |job.files|)
    && (w.at.Running? ==>
          && w.at.file <= |job.files|
          && (exists m :: 0 <= m <= p && StartedAt(job, w, p, m))
          && (w.at.file < |job.files| ==>
                && w.at.stmt <= |job.Code(w.at.file)|
                && AcceptedUpTo(w, job.Code(w.at.file), w.at.stmt)
                && Created(job, job.Code(w.at.file), w.at.stmt) <= w.schema))
  }

  lemma {:induction false} CreatedByGrows(job: Job, m: nat, n: nat)
    requires m <= n <= |job.files|
    ensures CreatedBy(job, m) <= CreatedBy(job, n)
  {
    if m < n {
      CreatedByGrows(job, m, n - 1);
    }
  }

  lemma {:induction false} CreatedGrows(job: Job, code: seq<string>, m: nat, n: nat)
    requires m <= n <= |code|
    ensures Created(job, code, m) <= Created(job, code, n)
  {
    if m < n {
      CreatedGrows(job, code, m, n - 1);
    }
  }

  /** A file was recorded when the run began exactly if it lies in the recorded prefix. */
  lemma InRecordedPrefix(job: Job, w: World, p: nat, m: nat)
    requires job.Distinct() && OnFile(job, w) && m <= p <= |job.files| && StartedAt(job, w, p, m)
    ensures job.Version(w.at.file) in w.at.recorded <==> w.at.file < m
    ensures job.Version(w.at.file) !in w.at.recorded ==> w.at.file == p
  {
    VersionsHold(job, m, w.at.file);
  }

  lemma AcceptedStays(w: World, w': World, code: seq<string>, n: nat)
    requires n <= |code| && AcceptedUpTo(w, code, n) && w.accepted <= w'.accepted
    ensures AcceptedUpTo(w', code, n)
  {
    forall k | 0 <= k < n ensures code[k] in w'.accepted {
      assert code[k] in w.accepted;
    }
  }

  /** A statement of the job creates nothing the job does not. */
  lemma StatementIsOfJob(job: Job, f: nat, k: nat)
    requires f < |job.files| && k < |job.Code(f)|
    ensures job.creates(job.Code(f)[k]) <= CreatedBy(job, |job.files|)
  {
    CreatedGrows(job, job.Code(f), k + 1, |job.Code(f)|);
    CreatedByGrows(job, f + 1, |job.files|);
  }

  lemma QueryResumes(job: Job, base: set<string>, w: World, p: nat, reply: Reply)
    requires job.Distinct() && Resumable(job, base, w, p) && Enabled(job, w, Query(reply))
    ensures Resumable(job, base, Next(job, w, Query(reply)), p)
  {
    var m :| 0 <= m <= p && StartedAt(job, w, p, m);
    InRecordedPrefix(job, w, p, m);
    var w', f, k := Next(job, w, Query(reply)), w.at.file, w.at.stmt;
    StatementIsOfJob(job, f, k);
    forall g | 0 <= g < p ensures AcceptedUpTo(w', job.Code(g), |job.Code(g)|) {
      AcceptedStays(w, w', job.Code(g), |job.Code(g)|);
    }
    if w'.at.Running? {
      AcceptedStays(w, w', job.Code(f), k);
      assert StartedAt(job, w', p, m);
    }
  }

  lemma RecordResumes(job: Job, base: set<string>, w: World, p: nat, reply: Reply)
    requires job.Distinct() && Resumable(job, base, w, p) && Enabled(job, w, Record(reply))
    ensures Resumable(job, base, Next(job, w, Record(reply)), if TookEffect(reply) then p + 1 else p)
  {
    var m :| 0 <= m <= p && StartedAt(job, w, p, m);
    InRecordedPrefix(job, w, p, m);
    var w' := Next(job, w, Record(reply));
    if w'.at.Running? {
      assert StartedAt(job, w', p + 1, m);
    }
  }

  lemma SkipResumes(job: Job, base: set<string>, w: World, p: nat)
    requires job.Distinct() && Resumable(job, base, w, p) && Enabled(job, w, Skip)
    ensures Resumable(job, base, Next(job, w, Skip), p)
  {
    var m :| 0 <= m <= p && StartedAt(job, w, p, m);
    InRecordedPrefix(job, w, p, m);
    assert StartedAt(job, Next(job, w, Skip), p, m);
  }

  /** Every step keeps the recorded versions a prefix; only recording advances it, by one file. */
  lemma StepResumes(job: Job, base: set<string>, w: World, p: nat, step: Step) returns (p': nat)
    requires job.Distinct() && Resumable(job, base, w, p) && Enabled(job, w, step)
    ensures Resumable(job, base, Next(job, w, step), p') && p <= p'
    ensures step.Finish? ==> p' == |job.files|
  {
    p' := p;
    match step
    case Start =>
      assert StartedAt(job, Next(job, w, Start), p, p);
    case Skip => SkipResumes(job, base, w, p);
    case Query(reply) => QueryResumes(job, base, w, p, reply);
    case Record(reply) =>
      RecordResumes(job, base, w, p, reply);
      p' := if TookEffect(reply) then p + 1 else p;
    case Finish =>
    case Crash =>
  }

  lemma {:induction false} PathResumes(job: Job, base: set<string>, w: World, steps: seq<Step>, w': World, p: nat) returns (p': nat)
    requires job.Distinct() && Resumable(job, base, w, p) && Path(job, w, steps, w')
    ensures Resumable(job, base, w', p') && p <= p'
    ensures Finish in steps ==> p' == |job.files|
    decreases |steps|
  {
    p' := p;
    if steps != [] {
      var q := StepResumes(job, base, w, p, steps[0]);
      p' := PathResumes(job, base, Next(job, w, steps[0]), steps[1..], w', q);
    }
  }

  function Fresh(base: set<string>): World { World(base, {}, [], Idle) }

  /**
   After any sequence of runs from an empty tracker, each stopped anywhere, the recorded versions
   are a prefix of the file order and every statement of a recorded file was accepted; once any run
   has finished, the schema is the one a single clean run creates.
   */
  lemma MigrationsResume(job: Job, base: set<string>, steps: seq<Step>, w: World) returns (p: nat)
    requires job.Distinct() && Path(job, Fresh(base), steps, w)
    ensures p <= |job.files| && w.applied == Versions(job, p)
    ensures forall f :: 0 <= f < p ==> AcceptedUpTo(w, job.Code(f), |job.Code(f)|)
    ensures base + CreatedBy(job, p) <= w.schema <= base + CreatedBy(job, |job.files|)
    ensures Finish in steps ==> p == |job.files| && w.schema == base + CreatedBy(job, |job.files|)
  {
    p := PathResumes(job, base, Fresh(base), steps, w, 0);
  }

  lemma {:induction false} PathConcat(job: Job, w: World, first: seq<Step>, m: World, second: seq<Step>, w': World)
    requires Path(job, w, first, m) && Path(job, m, second, w')
    ensures Path(job, w, first + second, w')
    decreases |first|
  {
    if first == [] {
      assert first + second == second;
    } else {
      assert (first + second)[1..] == first[1..] + second;
      PathConcat(job, Next(job, w, first[0]), first[1..], m, second, w');
    }
  }

  /** Interrupted or not, any two histories that finished a run leave the same schema and the same record. */
  lemma InterruptionsDoNotShow(job: Job, base: set<string>, steps: seq<Step>, w: World, clean: seq<Step>, w': World)
    requires job.Distinct() && Path(job, Fresh(base), steps, w) && Path(job, Fresh(base), clean, w')
    requires Finish in steps && Finish in clean
    ensures w.schema == w'.schema && w.applied == w'.applied
  {
    var p := MigrationsResume(job, base, steps, w);
    var q := MigrationsResume(job, base, clean, w');
  }

  predicate Quiet(step: Step) { step.Start? || step.Skip? || step.Finish? || step.Crash? }

  /** Once all files are recorded, no further run sends a statement or records a version. */
  lemma {:induction false} NothingLeftToDo(job: Job, w: World, steps: seq<Step>, w': World)
    requires job.Distinct() && w.applied == Versions(job, |job.files|) && Path(job, w, steps, w')
    requires w.at.Running? ==> w.at.recorded == Versions(job, |job.files|)
    ensures w' == w.(at := w'.at)
    ensures forall i :: 0 <= i < |steps| ==> Quiet(steps[i])
    decreases |steps|
  {
    if steps != [] {
      if OnFile(job, w) {
        VersionsHold(job, |job.files|, w.at.file);
      }
      NothingLeftToDo(job, Next(job, w, steps[0]), steps[1..], w');
    }
  }

  /** After a finished run, every further run executes nothing and changes nothing. */
  lemma FinishedRunIsIdempotent(job: Job, base: set<string>, steps: seq<Step>, w: World, more: seq<Step>, w': World)
    requires job.Distinct() && Path(job, Fresh(base), steps, w) && Finish in steps && w.at.Idle?
    requires Path(job, w, more, w')
    ensures w' == w.(at := w'.at) && forall i :: 0 <= i < |more| ==> Quiet(more[i])
  {
    var p := MigrationsResume(job, base, steps, w);
    NothingLeftToDo(job, w, more, w');
  }

  /** A run in progress that the cluster acknowledges throughout gets to its end. */
  lemma {:induction false} RunOn(job: Job, w: World) returns (steps: seq<Step>, w': World)
    requires w.at.Running? && w.at.file <= |job.files|
    requires OnFile(job, w) ==> w.at.stmt <= |job.Code(w.at.file)|
    requires OnFile(job, w) && job.Version(w.at.file) in w.at.recorded ==> w.at.stmt == 0
    ensures Path(job, w, steps, w') && Finish in steps && w'.at.Idle?
    decreases |job.files| - w.at.file, if OnFile(job, w) then |job.Code(w.at.file)| - w.at.stmt else 0
  {
    if w.at.file == |job.files| {
      steps, w' := [Finish], Next(job, w, Finish);
    } else {
      var step := if job.Version(w.at.file) in w.at.recorded then Skip
                  else if w.at.stmt < |job.Code(w.at.file)| then Query(Done) else Record(Done);
      var rest;
      rest, w' := RunOn(job, Next(job, w, step));
      steps := [step] + rest;
      assert steps[1..] == rest;
    }
  }

  /** Whatever interrupted a history, one more run can complete it. */
  lemma CanBeCompleted(job: Job, w: World) returns (steps: seq<Step>, w': World)
    requires w.at.Idle?
    ensures Path(job, w, steps, w') && Finish in steps && w'.at.Idle?
  {
    var rest;
    rest, w' := RunOn(job, Next(job, w, Start));
    steps := [Start] + rest;
    assert steps[1..] == rest;
  }
}
