/**
 The runner as it works on a cluster: the loops over files and statements, proved to be runs of the
 state machine and, in terms of the files' own text, to send what the files say.
 */
module MigrationRunner {
  import opened Splitter
  import opened Migrations
  import opened MigrationFiles

  // ---------- The cluster and the loop over statements ----------

  /** The cluster: its schema, the tracker rows of the service and the statements it accepted. */
  class Database {
    var schema: set<string>
    var applied: set<string>
    var accepted: seq<string>

    ghost function Snapshot(at: Position): World
      reads this
    {
      World(schema, applied, accepted, at)
    }

    /** Sends one statement; the environment wishes for a reply, which an additive cluster may correct. */
    method Execute(creates: string -> set<string>, stmt: string, wish: Reply) returns (reply: Reply)
      modifies this
      ensures Legal(creates, old(schema), stmt, reply)
      ensures applied == old(applied)
      ensures schema == if TookEffect(reply) then old(schema) + creates(stmt) else old(schema)
      ensures accepted == if TookEffect(reply) || Tolerated(reply) then old(accepted) + [stmt] else old(accepted)
    {
      reply := if Legal(creates, schema, stmt, wish) then wish else Done;
      if TookEffect(reply) || Tolerated(reply) {
        accepted := accepted + [stmt];
      }
      if TookEffect(reply) {
        schema := schema + creates(stmt);
      }
    }

    method Insert(version: string, reply: Reply)
      modifies this
      ensures schema == old(schema) && accepted == old(accepted)
      ensures applied == if TookEffect(reply) then old(applied) + {version} else old(applied)
    {
      if TookEffect(reply) {
        applied := applied + {version};
      }
    }
  }

  function Wish(wishes: seq<Reply>, i: nat): Reply
  {
    if i < |wishes| then wishes[i] else Broken(false)
  }

  /** The steps of a single run. */
  predicate OneRun(steps: seq<Step>)
  {
    steps != [] && steps[0] == Start && Start !in steps[1..]
  }

  lemma OneRunExtends(steps: seq<Step>, step: Step)
    requires OneRun(steps) && step != Start
    ensures OneRun(steps + [step])
  {
    assert (steps + [step])[1..] == steps[1..] + [step];
  }

  /** Runs the statements of file `f`, stopping at the first failure that is not "already exists". */
  method RunStatements(ghost job: Job, ghost w: World, ghost past: seq<Step>, ghost f: nat, ghost recorded: set<string>,
                       code: seq<string>, creates: string -> set<string>, db: Database, wishes: seq<Reply>, sent: nat)
    returns (ok: bool, sent': nat, ghost steps: seq<Step>)
    requires f < |job.files| && job.Code(f) == code && job.creates == creates && job.Version(f) !in recorded
    requires Path(job, w, past, db.Snapshot(Running(f, 0, recorded))) && OneRun(past) && Finish !in past
    modifies db
    ensures Path(job, w, steps, db.Snapshot(if ok then Running(f, |code|, recorded) else Idle))
    ensures OneRun(steps) && Finish !in steps
  {
    sent', steps := sent, past;
    var k := 0;
    while k < |code|
      invariant k <= |code| && OneRun(steps) && Finish !in steps
      invariant Path(job, w, steps, db.Snapshot(Running(f, k, recorded)))
    {
      ghost var before := db.Snapshot(Running(f, k, recorded));
      var reply := db.Execute(creates, code[k], Wish(wishes, sent'));
      sent' := sent' + 1;
      PathExtends(job, w, steps, before, Query(reply));
      OneRunExtends(steps, Query(reply));
      steps := steps + [Query(reply)];
      if !Tolerated(reply) {
        return false, sent', steps;
      }
      k := k + 1;
    }
    ok := true;
  }

  // ---------- In terms of the files' text ----------

  /** The statements of the first `n` files whose names are not recorded, in order. */
  function ToSend(dir: seq<(string, string)>, recorded: set<string>, n: nat): seq<string>
    requires n <= |dir|
  {
    if n == 0 then []
    else ToSend(dir, recorded, n - 1) + if dir[n - 1].0 in recorded then [] else Split(dir[n - 1].1)
  }

  lemma {:induction false} TodoIsToSend(dir: seq<(string, string)>, creates: string -> set<string>, recorded: set<string>, n: nat)
    requires n <= |dir|
    ensures Todo(JobOf(dir, creates), recorded, n) == ToSend(dir, recorded, n)
  {
    if n > 0 {
      var name, code := dir[n - 1].0, Split(dir[n - 1].1);
      TodoIsToSend(dir, creates, recorded, n - 1);
      TodoOfFile(JobOf(dir, creates), recorded, n, name, code);
      ToSendOfFile(dir, recorded, n, name, code);
    }
  }

  lemma TodoOfFile(job: Job, recorded: set<string>, n: nat, name: string, code: seq<string>)
    requires 0 < n <= |job.files| && job.files[n - 1] == (name, code)
    ensures Todo(job, recorded, n) == Todo(job, recorded, n - 1) + if name in recorded then [] else code
  {
  }

  lemma ToSendOfFile(dir: seq<(string, string)>, recorded: set<string>, n: nat, name: string, code: seq<string>)
    requires 0 < n <= |dir| && dir[n - 1].0 == name && Split(dir[n - 1].1) == code
    ensures ToSend(dir, recorded, n) == ToSend(dir, recorded, n - 1) + if name in recorded then [] else code
  {
  }

  /** Since `w`, versions were recorded only of files whose every statement the cluster has taken. */
  ghost predicate RecordsHonestly(dir: seq<(string, string)>, creates: string -> set<string>, w: World, w': World)
  {
    w.applied <= w'.applied && forall v :: v in w'.applied && v !in w.applied ==>
      exists f :: 0 <= f < |dir| && dir[f].0 == v && Carried(Split(dir[f].1), creates, w')
  }

  /** Every file is recorded, and its every statement was taken unless it was recorded before. */
  ghost predicate AllDone(dir: seq<(string, string)>, creates: string -> set<string>, w: World, w': World)
  {
    forall f :: 0 <= f < |dir| ==>
      dir[f].0 in w'.applied && (dir[f].0 in w.applied || Carried(Split(dir[f].1), creates, w'))
  }

  lemma RunInTermsOfFiles(dir: seq<(string, string)>, creates: string -> set<string>, w: World, steps: seq<Step>, w': World)
    requires w.at.Idle? && w'.at.Idle? && OneRun(steps) && Path(JobOf(dir, creates), w, steps, w')
    ensures w.schema <= w'.schema && RecordsHonestly(dir, creates, w, w')
    ensures w.accepted <= w'.accepted && w'.accepted[|w.accepted|..] <= ToSend(dir, w.applied, |dir|)
    ensures Finish in steps ==> AllDone(dir, creates, w, w') && w'.accepted == w.accepted + ToSend(dir, w.applied, |dir|)
  {
    var job := JobOf(dir, creates);
    WholeRunCarries(job, w, steps, w');
    TodoIsToSend(dir, creates, w.applied, |dir|);
    forall v | v in w'.applied && v !in w.applied
      ensures exists f :: 0 <= f < |dir| && dir[f].0 == v && Carried(Split(dir[f].1), creates, w')
    {
      var f :| 0 <= f < |job.files| && job.files[f].0 == v && Carried(job.files[f].1, creates, w');
      assert dir[f].0 == v && job.files[f].1 == Split(dir[f].1);
    }
    if Finish in steps {
      forall f | 0 <= f < |dir|
        ensures dir[f].0 in w'.applied && (dir[f].0 in w.applied || Carried(Split(dir[f].1), creates, w'))
      {
        assert job.files[f] == (dir[f].0, Split(dir[f].1));
      }
    }
  }

  // ---------- The loop over files ----------

  /**
   One run of the runner against a cluster that answers as it wishes. Every effect it has is a path
   of the state machine from idle to idle, with `Finish` exactly when it reports success. The cluster
   is sent the statements of the files not yet recorded, in order, as far as the run gets; a version
   is recorded only once all statements of its file were taken; and on success that is every file.
   */
  method MigrateService(dir: seq<(string, string)>, creates: string -> set<string>, db: Database, wishes: seq<Reply>)
    returns (ok: bool, ghost steps: seq<Step>)
    modifies db
    ensures Path(JobOf(dir, creates), old(db.Snapshot(Idle)), steps, db.Snapshot(Idle))
    ensures ok <==> Finish in steps
    ensures old(db.schema) <= db.schema && RecordsHonestly(dir, creates, old(db.Snapshot(Idle)), db.Snapshot(Idle))
    ensures old(db.accepted) <= db.accepted
    ensures db.accepted[|old(db.accepted)|..] <= ToSend(dir, old(db.applied), |dir|)
    ensures ok ==> AllDone(dir, creates, old(db.Snapshot(Idle)), db.Snapshot(Idle))
    ensures ok ==> db.accepted == old(db.accepted) + ToSend(dir, old(db.applied), |dir|)
  {
    ghost var before := db.Snapshot(Idle);
    ok, steps := RunFiles(dir, creates, db, wishes);
    RunInTermsOfFiles(dir, creates, before, steps, db.Snapshot(Idle));
  }

  /** Splits and runs file `f`, then records its version. */
  method RunFile(ghost job: Job, ghost w: World, ghost past: seq<Step>, ghost f: nat, ghost recorded: set<string>,
                 version: string, content: string, creates: string -> set<string>, db: Database, wishes: seq<Reply>, sent: nat)
    returns (ok: bool, sent': nat, ghost steps: seq<Step>)
    requires f < |job.files| && job.files[f] == (version, Split(content)) && job.creates == creates && version !in recorded
    requires Path(job, w, past, db.Snapshot(Running(f, 0, recorded))) && OneRun(past) && Finish !in past
    modifies db
    ensures Path(job, w, steps, db.Snapshot(if ok then Running(f + 1, 0, recorded) else Idle))
    ensures OneRun(steps) && Finish !in steps
  {
    var code := SplitStatements(content);
    ok, sent', steps := RunStatements(job, w, past, f, recorded, code, creates, db, wishes, sent);
    if ok {
      ghost var before := db.Snapshot(Running(f, |code|, recorded));
      var reply := Wish(wishes, sent');
      db.Insert(version, reply);
      sent' := sent' + 1;
      PathExtends(job, w, steps, before, Record(reply));
      OneRunExtends(steps, Record(reply));
      steps := steps + [Record(reply)];
      ok := reply.Done?;
    }
  }

  method RunFiles(dir: seq<(string, string)>, creates: string -> set<string>, db: Database, wishes: seq<Reply>)
    returns (ok: bool, ghost steps: seq<Step>)
    modifies db
    ensures Path(JobOf(dir, creates), old(db.Snapshot(Idle)), steps, db.Snapshot(Idle))
    ensures OneRun(steps) && (ok <==> Finish in steps)
  {
    ghost var job := JobOf(dir, creates);
    ghost var w := db.Snapshot(Idle);
    var recorded := db.applied;
    PathExtends(job, w, [], w, Start);
    steps := [] + [Start];
    var f, sent := 0, 0;
    while f < |dir|
      invariant f <= |dir| && OneRun(steps) && Finish !in steps
      invariant Path(job, w, steps, db.Snapshot(Running(f, 0, recorded)))
    {
      if dir[f].0 in recorded {
        PathExtends(job, w, steps, db.Snapshot(Running(f, 0, recorded)), Skip);
        OneRunExtends(steps, Skip);
        steps := steps + [Skip];
        f := f + 1;
        continue;
      }
      ok, sent, steps := RunFile(job, w, steps, f, recorded, dir[f].0, dir[f].1, creates, db, wishes, sent);
      if !ok {
        return;
      }
      f := f + 1;
    }
    PathExtends(job, w, steps, db.Snapshot(Running(f, 0, recorded)), Finish);
    OneRunExtends(steps, Finish);
    steps := steps + [Finish];
    ok := true;
  }

  // ---------- Any number of runs ----------

  predicate Distinct(dir: seq<(string, string)>)
  {
    forall f, g :: 0 <= f < g < |dir| ==> dir[f].0 != dir[g].0
  }

  /** Every recorded file has had all its statements taken. */
  ghost predicate RecordedAreCarried(dir: seq<(string, string)>, creates: string -> set<string>, w: World)
  {
    forall f :: 0 <= f < |dir| && dir[f].0 in w.applied ==> Carried(Split(dir[f].1), creates, w)
  }

  lemma RunKeepsCarried(dir: seq<(string, string)>, creates: string -> set<string>, w: World, w': World)
    requires Distinct(dir) && RecordedAreCarried(dir, creates, w)
    requires w.schema <= w'.schema && w.accepted <= w'.accepted && RecordsHonestly(dir, creates, w, w')
    ensures RecordedAreCarried(dir, creates, w')
  {
    forall f | 0 <= f < |dir| && dir[f].0 in w'.applied ensures Carried(Split(dir[f].1), creates, w') {
      if dir[f].0 in w.applied {
        CarriedStays(Split(dir[f].1), creates, w, w');
      } else {
        var g :| 0 <= g < |dir| && dir[g].0 == dir[f].0 && Carried(Split(dir[g].1), creates, w');
        assert g == f;
      }
    }
  }

  /**
   Any number of runs against a cluster with an empty tracker, each stopped where its replies stop
   it. Every recorded file has had all its statements taken, and the records are a prefix of the
   files; once one run has succeeded that is every file, and the schema is exactly what they create.
   The whole history is one path of the state machine.
   */
  method MigrateRepeatedly(dir: seq<(string, string)>, creates: string -> set<string>, db: Database, runs: seq<seq<Reply>>)
    returns (done: bool, ghost p: nat, ghost steps: seq<Step>)
    requires Distinct(dir)
    requires db.applied == {}
    modifies db
    ensures Path(JobOf(dir, creates), old(db.Snapshot(Idle)), steps, db.Snapshot(Idle)) && (done <==> Finish in steps)
    ensures RecordedAreCarried(dir, creates, db.Snapshot(Idle))
    ensures p <= |dir| && forall f :: 0 <= f < |dir| ==> (dir[f].0 in db.applied <==> f < p)
    ensures done ==> p == |dir|
    ensures old(db.schema) <= db.schema <= old(db.schema) + CreatedBy(JobOf(dir, creates), |dir|)
    ensures done ==> db.schema == old(db.schema) + CreatedBy(JobOf(dir, creates), |dir|)
  {
    ghost var job, start := JobOf(dir, creates), db.Snapshot(Idle);
    done, steps := false, [];
    for i := 0 to |runs|
      invariant Path(job, start, steps, db.Snapshot(Idle)) && (done <==> Finish in steps)
      invariant RecordedAreCarried(dir, creates, db.Snapshot(Idle)) && start.schema <= db.schema
    {
      ghost var before := db.Snapshot(Idle);
      var ok;
      ghost var more;
      ok, more := MigrateService(dir, creates, db, runs[i]);
      PathConcat(job, start, steps, before, more, db.Snapshot(Idle));
      RunKeepsCarried(dir, creates, before, db.Snapshot(Idle));
      steps := steps + more;
      done := done || ok;
    }
    p := RecordedPrefix(dir, creates, start, steps, db.Snapshot(Idle));
  }

  lemma RecordedPrefix(dir: seq<(string, string)>, creates: string -> set<string>, w: World, steps: seq<Step>, w': World)
    returns (p: nat)
    requires Distinct(dir) && w.at.Idle? && w.applied == {} && Path(JobOf(dir, creates), w, steps, w')
    ensures p <= |dir| && forall f :: 0 <= f < |dir| ==> (dir[f].0 in w'.applied <==> f < p)
    ensures Finish in steps ==> p == |dir|
    ensures w.schema + CreatedBy(JobOf(dir, creates), p) <= w'.schema <= w.schema + CreatedBy(JobOf(dir, creates), |dir|)
  {
    var job := JobOf(dir, creates);
    p := PathResumes(job, w.schema, w, steps, w', 0);
    forall f | 0 <= f < |dir| ensures dir[f].0 in w'.applied <==> f < p {
      VersionsHold(job, p, f);
      assert job.Version(f) == dir[f].0;
    }
  }
}
