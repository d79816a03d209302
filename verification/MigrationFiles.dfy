/**
 What one run does to the files themselves: which statements it has accepted, in which order, and
 which versions it may record.
 */
module MigrationFiles {
  import opened Migrations

  // ---------- The statements to send ----------

  /** The statements of the first `n` files that are not recorded, in order. */
  function Todo(job: Job, recorded: set<string>, n: nat): seq<string>
    requires n <= |job.files|
  {
    if n == 0 then []
    else Todo(job, recorded, n - 1) + if job.files[n - 1].0 in recorded then [] else job.files[n - 1].1
  }

  /** The same, with `k` statements of the next file. */
  function TodoAt(job: Job, recorded: set<string>, n: nat, k: nat): seq<string>
    requires n <= |job.files| && (n < |job.files| && job.files[n].0 !in recorded ==> k <= |job.files[n].1|)
  {
    Todo(job, recorded, n) + if n < |job.files| && job.files[n].0 !in recorded then job.files[n].1[..k] else []
  }

  lemma {:induction false} TodoGrows(job: Job, recorded: set<string>, m: nat, n: nat)
    requires m <= n <= |job.files|
    ensures Todo(job, recorded, m) <= Todo(job, recorded, n)
  {
    if m < n {
      TodoGrows(job, recorded, m, n - 1);
      PrefixOfSum(Todo(job, recorded, m), Todo(job, recorded, n - 1), if job.files[n - 1].0 in recorded then [] else job.files[n - 1].1);
    }
  }

  lemma PrefixOfSum(a: seq<string>, b: seq<string>, c: seq<string>)
    requires a <= b
    ensures a <= b + c
  {
  }

  lemma TodoOneMore(job: Job, recorded: set<string>, n: nat, k: nat)
    requires n < |job.files| && job.files[n].0 !in recorded && k < |job.files[n].1|
    ensures TodoAt(job, recorded, n, k + 1) == TodoAt(job, recorded, n, k) + [job.files[n].1[k]]
  {
    var code := job.files[n].1;
    assert code[..k + 1] == code[..k] + [code[k]];
  }

  lemma TodoNextFile(job: Job, recorded: set<string>, n: nat)
    requires n < |job.files|
    ensures TodoAt(job, recorded, n + 1, 0) == Todo(job, recorded, n + 1)
    ensures job.files[n].0 !in recorded ==> TodoAt(job, recorded, n, |job.files[n].1|) == Todo(job, recorded, n + 1)
    ensures job.files[n].0 in recorded ==> TodoAt(job, recorded, n, 0) == Todo(job, recorded, n + 1)
  {
    var code := job.files[n].1;
    assert code[..|code|] == code;
    if n + 1 < |job.files| {
      assert job.files[n + 1].1[..0] == [];
    }
  }

  lemma TodoAtIsPrefix(job: Job, recorded: set<string>, n: nat, k: nat)
    requires n <= |job.files| && (n < |job.files| && job.files[n].0 !in recorded ==> k <= |job.files[n].1|)
    ensures TodoAt(job, recorded, n, k) <= Todo(job, recorded, |job.files|)
  {
    if n < |job.files| {
      TodoGrows(job, recorded, n + 1, |job.files|);
      if job.files[n].0 !in recorded {
        PrefixTaken(Todo(job, recorded, n), job.files[n].1, k);
      }
    }
  }

  lemma PrefixTaken(a: seq<string>, code: seq<string>, k: nat)
    requires k <= |code|
    ensures a + code[..k] <= a + code
  {
  }

  // ---------- What a run has done ----------

  /** Every statement of the file has been accepted, and what it creates exists. */
  ghost predicate Carried(code: seq<string>, creates: string -> set<string>, w: World)
  {
    forall k :: 0 <= k < |code| ==> code[k] in w.accepted && creates(code[k]) <= w.schema
  }

  /** A version recorded since `w` is that of a file carried out. */
  ghost predicate RecordsCarried(job: Job, w: World, w': World)
  {
    forall v :: v in w'.applied && v !in w.applied ==>
      exists f :: 0 <= f < |job.files| && job.files[f].0 == v && Carried(job.files[f].1, job.creates, w')
  }

  /** What was accepted since `w`: the statements of the unrecorded files in order, as far as it went. */
  predicate Accepts(job: Job, w: World, w': World)
  {
    w.accepted <= w'.accepted && w'.accepted[|w.accepted|..] <= Todo(job, w.applied, |job.files|)
  }

  /** From `w` to `w'` nothing was dropped, and statements and records went by the files. */
  ghost predicate CarriesOn(job: Job, w: World, w': World)
  {
    && w.schema <= w'.schema && w.applied <= w'.applied
    && Accepts(job, w, w') && RecordsCarried(job, w, w')
  }

  /** From `w` to `w'` every file was found recorded or was carried out and recorded. */
  ghost predicate Completes(job: Job, w: World, w': World)
  {
    && w'.accepted == w.accepted + Todo(job, w.applied, |job.files|)
    && Behind(job, w, w', |job.files|)
  }

  /** The first `n` files are recorded, and carried out unless they were recorded before. */
  ghost predicate Behind(job: Job, w: World, w': World, n: nat)
    requires n <= |job.files|
  {
    forall f :: 0 <= f < n ==> job.files[f].0 in w'.applied && (job.files[f].0 in w.applied || Carried(job.files[f].1, job.creates, w'))
  }

  /** A run that began at `start` stands before statement `k` of file `f`. */
  ghost predicate Underway(job: Job, start: World, w: World, f: nat, k: nat)
  {
    && CarriesOn(job, start, w)
    && w.at == Running(f, k, start.applied) && f <= |job.files|
    && (f < |job.files| ==> k <= if job.files[f].0 in start.applied then 0 else |job.files[f].1|)
    && w.accepted == start.accepted + TodoAt(job, start.applied, f, k)
    && Behind(job, start, w, f)
    && (f < |job.files| && job.files[f].0 !in start.applied ==> forall j :: 0 <= j < k ==> job.creates(job.files[f].1[j]) <= w.schema)
  }

  /** Nothing the cluster has is taken away. */
  predicate Grows(w: World, w': World)
  {
    w.schema <= w'.schema && w.applied <= w'.applied && w.accepted <= w'.accepted
  }

  lemma CarriedStays(code: seq<string>, creates: string -> set<string>, w: World, w': World)
    requires Carried(code, creates, w) && Grows(w, w')
    ensures Carried(code, creates, w')
  {
    forall k | 0 <= k < |code| ensures code[k] in w'.accepted {
      assert code[k] in w.accepted;
    }
  }

  lemma BehindStays(job: Job, start: World, w: World, w': World, n: nat)
    requires n <= |job.files| && Behind(job, start, w, n) && Grows(w, w')
    ensures Behind(job, start, w', n)
  {
    forall f | 0 <= f < n && job.files[f].0 !in start.applied ensures Carried(job.files[f].1, job.creates, w') {
      CarriedStays(job.files[f].1, job.creates, w, w');
    }
  }

  lemma RecordsStay(job: Job, start: World, w: World, w': World)
    requires RecordsCarried(job, start, w) && Grows(w, w')
    requires forall v :: v in w'.applied && v !in w.applied ==>
               exists f :: 0 <= f < |job.files| && job.files[f].0 == v && Carried(job.files[f].1, job.creates, w')
    ensures RecordsCarried(job, start, w')
  {
    forall v | v in w'.applied && v !in start.applied
      ensures exists f :: 0 <= f < |job.files| && job.files[f].0 == v && Carried(job.files[f].1, job.creates, w')
    {
      if v in w.applied {
        var f :| 0 <= f < |job.files| && job.files[f].0 == v && Carried(job.files[f].1, job.creates, w);
        CarriedStays(job.files[f].1, job.creates, w, w');
      }
    }
  }

  lemma AcceptsUpTo(job: Job, start: World, w: World, f: nat, k: nat)
    requires f <= |job.files| && (f < |job.files| && job.files[f].0 !in start.applied ==> k <= |job.files[f].1|)
    requires w.accepted == start.accepted + TodoAt(job, start.applied, f, k)
    ensures Accepts(job, start, w)
  {
    TodoAtIsPrefix(job, start.applied, f, k);
    assert w.accepted[|start.accepted|..] == TodoAt(job, start.applied, f, k);
  }

  // ---------- One step ----------

  lemma QueryCarries(job: Job, start: World, w: World, f: nat, k: nat, reply: Reply)
    requires Underway(job, start, w, f, k) && Enabled(job, w, Query(reply))
    ensures var w' := Next(job, w, Query(reply));
            CarriesOn(job, start, w') && (w'.at.Running? ==> Underway(job, start, w', f, k + 1))
  {
    var w' := Next(job, w, Query(reply));
    QueryAccepts(job, start, w, f, k, reply);
    RecordsStay(job, start, w, w');
    BehindStays(job, start, w, w', f);
  }

  lemma QueryAccepts(job: Job, start: World, w: World, f: nat, k: nat, reply: Reply)
    requires Underway(job, start, w, f, k) && Enabled(job, w, Query(reply))
    ensures var w' := Next(job, w, Query(reply));
            && Grows(w, w') && w'.applied == w.applied && Accepts(job, start, w')
            && (w'.at.Running? ==>
                  && w'.at == Running(f, k + 1, start.applied)
                  && w'.accepted == start.accepted + TodoAt(job, start.applied, f, k + 1)
                  && job.creates(job.files[f].1[k]) <= w'.schema)
  {
    var w' := Next(job, w, Query(reply));
    TodoOneMore(job, start.applied, f, k);
    if w'.accepted == w.accepted {
      AcceptsUpTo(job, start, w', f, k);
    } else {
      assert w'.accepted == start.accepted + TodoAt(job, start.applied, f, k + 1);
      AcceptsUpTo(job, start, w', f, k + 1);
    }
  }

  lemma RecordCarries(job: Job, start: World, w: World, f: nat, k: nat, reply: Reply)
    requires Underway(job, start, w, f, k) && Enabled(job, w, Record(reply))
    ensures var w' := Next(job, w, Record(reply));
            CarriesOn(job, start, w') && (w'.at.Running? ==> Underway(job, start, w', f + 1, 0))
  {
    var w' := Next(job, w, Record(reply));
    FileIsCarried(job, start, w, f, k);
    CarriedStays(job.files[f].1, job.creates, w, w');
    RecordsStay(job, start, w, w');
    if w'.at.Running? {
      NextFile(job, start, w, f, k, w');
    }
  }

  /** The run moves on with file `f` recorded. */
  lemma NextFile(job: Job, start: World, w: World, f: nat, k: nat, w': World)
    requires Underway(job, start, w, f, k) && f < |job.files| && CarriesOn(job, start, w') && Grows(w, w')
    requires w'.accepted == w.accepted && w'.at == Running(f + 1, 0, start.applied)
    requires job.files[f].0 in w'.applied
    requires if job.files[f].0 in start.applied then k == 0
             else k == |job.files[f].1| && Carried(job.files[f].1, job.creates, w')
    ensures Underway(job, start, w', f + 1, 0)
  {
    BehindStays(job, start, w, w', f);
    TodoNextFile(job, start.applied, f);
  }

  lemma FileIsCarried(job: Job, start: World, w: World, f: nat, k: nat)
    requires Underway(job, start, w, f, k) && f < |job.files| && job.files[f].0 !in start.applied && k == |job.files[f].1|
    ensures Carried(job.files[f].1, job.creates, w)
  {
    var code, n := job.files[f].1, |start.accepted| + |Todo(job, start.applied, f)|;
    forall j | 0 <= j < |code| ensures code[j] in w.accepted {
      assert w.accepted[n + j] == code[j];
    }
  }

  lemma SkipCarries(job: Job, start: World, w: World, f: nat, k: nat)
    requires Underway(job, start, w, f, k) && Enabled(job, w, Skip)
    ensures CarriesOn(job, start, Next(job, w, Skip)) && Underway(job, start, Next(job, w, Skip), f + 1, 0)
  {
    var w' := Next(job, w, Skip);
    RecordsStay(job, start, w, w');
    NextFile(job, start, w, f, k, w');
  }

  lemma StopCarries(job: Job, start: World, w: World, f: nat, k: nat, step: Step)
    requires Underway(job, start, w, f, k) && (step == Finish || step == Crash)
    requires Enabled(job, w, step)
    ensures var w' := Next(job, w, step);
            CarriesOn(job, start, w') && (step == Finish ==> Completes(job, start, w'))
  {
    var w' := Next(job, w, step);
    RecordsStay(job, start, w, w');
    BehindStays(job, start, w, w', f);
  }

  // ---------- One run ----------

  lemma IdleStays(job: Job, w: World, steps: seq<Step>, w': World)
    requires w.at.Idle? && Path(job, w, steps, w') && Start !in steps
    ensures steps == [] && w' == w
  {
  }

  /** Any step of a run but its first. */
  lemma StepCarries(job: Job, start: World, w: World, f: nat, k: nat, step: Step) returns (f': nat, k': nat)
    requires Underway(job, start, w, f, k) && Enabled(job, w, step)
    ensures var w' := Next(job, w, step);
            && CarriesOn(job, start, w')
            && (w'.at.Running? ==> Underway(job, start, w', f', k') && step != Finish)
            && (step == Finish ==> Completes(job, start, w'))
  {
    f', k' := f + 1, 0;
    match step
    case Skip => SkipCarries(job, start, w, f, k);
    case Query(reply) =>
      QueryCarries(job, start, w, f, k, reply);
      f', k' := f, k + 1;
    case Record(reply) => RecordCarries(job, start, w, f, k, reply);
    case Finish => StopCarries(job, start, w, f, k, step);
    case Crash => StopCarries(job, start, w, f, k, step);
    case Start =>
  }

  lemma {:induction false} RunCarries(job: Job, start: World, w: World, f: nat, k: nat, steps: seq<Step>, w': World)
    requires Underway(job, start, w, f, k) && Path(job, w, steps, w')
    requires Start !in steps && w'.at.Idle?
    ensures CarriesOn(job, start, w')
    ensures Finish in steps ==> Completes(job, start, w')
    decreases |steps|
  {
    var step, rest := steps[0], steps[1..];
    assert steps == [step] + rest;
    var f', k' := StepCarries(job, start, w, f, k, step);
    var next := Next(job, w, step);
    if next.at.Running? {
      RunCarries(job, start, next, f', k', rest, w');
    } else {
      IdleStays(job, next, rest, w');
    }
  }

  /**
   A whole run from idle to idle accepts statements of the unrecorded files in order and records only
   files all of whose statements it had accepted; one that finishes has accepted and recorded them all.
   */
  lemma WholeRunCarries(job: Job, w: World, steps: seq<Step>, w': World)
    requires w.at.Idle? && w'.at.Idle? && steps != [] && steps[0] == Start && Start !in steps[1..]
    requires Path(job, w, steps, w')
    ensures CarriesOn(job, w, w')
    ensures Finish in steps ==> Completes(job, w, w')
  {
    var begun := Next(job, w, Start);
    assert w.accepted + [] == w.accepted;
    if job.files != [] {
      assert job.files[0].1[..0] == [];
    }
    AcceptsUpTo(job, w, begun, 0, 0);
    RunCarries(job, w, begun, 0, 0, steps[1..], w');
    assert steps == [Start] + steps[1..];
  }
}
