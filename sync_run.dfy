/**
 * Executing a sync plan (`sync_tiles`, `delete_files`): the plan becomes a
 * list of jobs — one per tile to upload, one per tile to update, one per
 * batch of tiles to delete — which the job watcher awaits while callbacks
 * count the outcomes under the keys `tile_new`, `tile_changed`,
 * `tile_deleted` and `tile_failed`.
 *
 * What the bucket does with each job's request is the input `transfer`.
 */
module SyncRun {
  import opened Wrappers
  import SyncPlan
  import JobWatch
  import Text

  // ---------------------------------------------------------------------
  // Batches

  /** `chunked(items, n)`: consecutive batches of `n` items, the last one possibly shorter. */
  function Chunked(items: seq<string>, n: nat): (r: seq<seq<string>>)
    requires n > 0
    ensures Concat(r) == items
    ensures forall k :: 0 <= k < |r| ==> 0 < |r[k]| <= n
    ensures forall k :: 0 <= k < |r| - 1 ==> |r[k]| == n
    decreases |items|
  {
    if items == [] then []
    else if |items| <= n then
      assert [items][1..] == [];
      assert items + [] == items;
      [items]
    else
      var rest := Chunked(items[n..], n);
      assert ([items[..n]] + rest)[1..] == rest;
      assert items[..n] + items[n..] == items;
      [items[..n]] + rest
  }

  /** The batches laid end to end. */
  function Concat(batches: seq<seq<string>>): seq<string>
    decreases |batches|
  {
    if batches == [] then [] else batches[0] + Concat(batches[1..])
  }

  lemma {:induction false} ConcatAppend(a: seq<seq<string>>, b: seq<seq<string>>)
    ensures Concat(a + b) == Concat(a) + Concat(b)
    decreases |a|
  {
    if a == [] {
      assert a + b == b;
    } else {
      assert (a + b)[0] == a[0] && (a + b)[1..] == a[1..] + b;
      ConcatAppend(a[1..], b);
      assert a[0] + (Concat(a[1..]) + Concat(b)) == (a[0] + Concat(a[1..])) + Concat(b);
    }
  }

  /** The batches give back the items, in order, none is empty, none holds more than `n`, and all but the last hold `n`. */
  lemma {:induction false} ChunkedBatches(items: seq<string>, n: nat)
    requires n > 0
    ensures Concat(Chunked(items, n)) == items
    ensures forall k :: 0 <= k < |Chunked(items, n)| ==> 0 < |Chunked(items, n)[k]| <= n
    ensures forall k :: 0 <= k < |Chunked(items, n)| - 1 ==> |Chunked(items, n)[k]| == n
    decreases |items|
  {
    if |items| > n {
      ChunkedBatches(items[n..], n);
      var rest := Chunked(items[n..], n);
      assert Chunked(items, n) == [items[..n]] + rest;
      assert ([items[..n]] + rest)[1..] == rest;
      assert items[..n] + items[n..] == items;
    } else if items != [] {
      assert [items][1..] == [];
      assert items + [] == items;
    }
  }

  // ---------------------------------------------------------------------
  // Jobs

  /** A queued sync job. */
  datatype SyncJob = Upload(path: string) | Update(path: string) | Delete(paths: seq<string>)

  function UploadJobs(paths: seq<string>): seq<SyncJob>
    decreases |paths|
  {
    if paths == [] then [] else UploadJobs(paths[..|paths| - 1]) + [Upload(paths[|paths| - 1])]
  }

  function UpdateJobs(paths: seq<string>): seq<SyncJob>
    decreases |paths|
  {
    if paths == [] then [] else UpdateJobs(paths[..|paths| - 1]) + [Update(paths[|paths| - 1])]
  }

  function DeleteJobs(batches: seq<seq<string>>): seq<SyncJob>
    decreases |batches|
  {
    if batches == [] then [] else DeleteJobs(batches[..|batches| - 1]) + [Delete(batches[|batches| - 1])]
  }

  /** The job list of a plan: the uploads, then the updates, then the delete batches. */
  function Layout(plan: SyncPlan.Actions, batchSize: nat): seq<SyncJob>
    requires batchSize > 0
  {
    UploadJobs(plan.upload) + UpdateJobs(plan.update) + DeleteJobs(Chunked(plan.delete, batchSize))
  }

  /**
   * The queueing half of `sync_tiles`: one job per upload, one per update,
   * one per delete batch; `total` counts the tiles the jobs cover.
   */
  method QueueJobs(plan: SyncPlan.Actions, batchSize: nat) returns (jobs: seq<SyncJob>, total: nat)
    requires batchSize > 0
    ensures jobs == Layout(plan, batchSize)
    ensures total == |plan.upload| + |plan.update| + |plan.delete|
  {
    jobs := [];
    for i := 0 to |plan.upload|
      invariant jobs == UploadJobs(plan.upload[..i])
    {
      assert plan.upload[..i + 1][..i] == plan.upload[..i];
      jobs := jobs + [Upload(plan.upload[i])];
    }
    assert plan.upload[..|plan.upload|] == plan.upload;
    ghost var uploads := jobs;
    for i := 0 to |plan.update|
      invariant jobs == uploads + UpdateJobs(plan.update[..i])
    {
      assert plan.update[..i + 1][..i] == plan.update[..i];
      jobs := jobs + [Update(plan.update[i])];
    }
    assert plan.update[..|plan.update|] == plan.update;
    total := |plan.upload| + |plan.update|;
    ghost var sends := jobs;
    var batches := Chunked(plan.delete, batchSize);
    for k := 0 to |batches|
      invariant jobs == sends + DeleteJobs(batches[..k])
      invariant total == |plan.upload| + |plan.update| + |Concat(batches[..k])|
    {
      var paths := batches[k];
      DeleteJobsStep(batches, k);
      total := total + |paths|;
      jobs := jobs + [Delete(paths)];
    }
    assert batches[..|batches|] == batches;
  }

  /** One more batch adds its delete job and its paths. */
  lemma DeleteJobsStep(batches: seq<seq<string>>, k: nat)
    requires k < |batches|
    ensures DeleteJobs(batches[..k + 1]) == DeleteJobs(batches[..k]) + [Delete(batches[k])]
    ensures |Concat(batches[..k + 1])| == |Concat(batches[..k])| + |batches[k]|
  {
    assert batches[..k + 1] == batches[..k] + [batches[k]];
    ConcatAppend(batches[..k], [batches[k]]);
    assert Concat([batches[k]]) == batches[k] + Concat([]);
  }

  // ---------------------------------------------------------------------
  // Running the jobs

  /** The counters a job's success adds to. */
  datatype Counter = TileNew | TileChanged | TileDeleted

  /** The four counters `sync_tiles` returns. */
  datatype SyncCounts = SyncCounts(tileNew: nat, tileChanged: nat, tileDeleted: nat, tileFailed: nat)

  /**
   * What the bucket does with one job's request: whether the client call
   * raised (and with what), and the `Errors` entry of a delete response.
   */
  datatype Transfer = Transfer(raised: Option<string>, errors: seq<string>)

  /** The `Errors` list as it appears in the raised message. */
  function ShowErrors(errors: seq<string>): string {
    "[" + JoinComma(errors) + "]"
  }

  function JoinComma(items: seq<string>): string
    decreases |items|
  {
    if items == [] then "" else if |items| == 1 then items[0] else items[0] + ", " + JoinComma(items[1..])
  }

  /** The keys a delete request names: each path under the bucket prefix. */
  function DeleteKeys(paths: seq<string>, prefix: string): (keys: seq<string>)
    ensures |keys| == |paths|
    ensures forall i :: 0 <= i < |paths| ==> Text.StartsWith(keys[i], prefix) && keys[i][|prefix|..] == paths[i]
  {
    seq(|paths|, i requires 0 <= i < |paths| => prefix + paths[i])
  }

  /** Deleting by these keys removes exactly the objects the inventory lists under the paths. */
  lemma DeleteKeysNameTiles(paths: seq<string>, prefix: string, etag: string, size: int)
    ensures forall i :: 0 <= i < |paths| ==>
      SyncPlan.TileName(SyncPlan.ListedObject(DeleteKeys(paths, prefix)[i], etag, size), prefix) == paths[i]
  {
    forall i | 0 <= i < |paths|
      ensures SyncPlan.TileName(SyncPlan.ListedObject(DeleteKeys(paths, prefix)[i], etag, size), prefix) == paths[i]
    {
      SyncPlan.TileNameAfterPrefix(prefix, paths[i], etag, size);
    }
  }

  /** `delete_files`: fails when the response lists errors, and otherwise reports every path deleted. */
  function DeleteFiles(paths: seq<string>, response: seq<string>): (r: JobWatch.Outcome<(Counter, nat)>)
    ensures r.Returned? <==> response == []
    ensures r.Returned? ==> r.value == (TileDeleted, |paths|)
    ensures r.Threw? ==> r.error == "Error deleting: " + ShowErrors(response)
  {
    if response != [] then JobWatch.Threw("Error deleting: " + ShowErrors(response))
    else JobWatch.Returned((TileDeleted, |paths|))
  }

  /** What awaiting one job yields: the exception of the client call, or the job's own result. */
  function Perform(job: SyncJob, t: Transfer): (r: JobWatch.Outcome<(Counter, nat)>)
    ensures r.Returned? <==> t.raised.None? && (job.Delete? ==> t.errors == [])
    ensures r.Returned? ==> r.value.1 == Covers(job)
    ensures r.Returned? ==> (r.value.0 == TileNew <==> job.Upload?) && (r.value.0 == TileChanged <==> job.Update?)
    ensures t.raised.Some? ==> r == JobWatch.Threw(t.raised.value)
    ensures !r.Interrupt?
  {
    if t.raised.Some? then JobWatch.Threw(t.raised.value)
    else match job
      case Upload(_) => JobWatch.Returned((TileNew, 1))
      case Update(_) => JobWatch.Returned((TileChanged, 1))
      case Delete(paths) => DeleteFiles(paths, t.errors)
  }

  function Outcomes(jobs: seq<SyncJob>, transfer: SyncJob -> Transfer): (r: seq<JobWatch.Outcome<(Counter, nat)>>)
    ensures |r| == |jobs|
    ensures forall i :: 0 <= i < |jobs| ==> r[i] == Perform(jobs[i], transfer(jobs[i]))
  {
    seq(|jobs|, i requires 0 <= i < |jobs| => Perform(jobs[i], transfer(jobs[i])))
  }

  /** The callbacks of `sync_tiles`: a result adds its count to its counter; an exception adds one failure. */
  function SyncHandlers(): JobWatch.Handlers<SyncCounts, (Counter, nat)> {
    JobWatch.Handlers(
      Some((c: SyncCounts, r: (Counter, nat)) =>
        match r.0
        case TileNew => c.(tileNew := c.tileNew + r.1)
        case TileChanged => c.(tileChanged := c.tileChanged + r.1)
        case TileDeleted => c.(tileDeleted := c.tileDeleted + r.1)),
      Some((c: SyncCounts, e: string) => c.(tileFailed := c.tileFailed + 1)),
      false)
  }

  // ---------------------------------------------------------------------
  // The counts, job by job

  /** A job succeeds when the call does not raise and, for a delete, the response lists no errors. */
  predicate Succeeds(job: SyncJob, t: Transfer) {
    t.raised.None? && (job.Delete? ==> t.errors == [])
  }

  function Add(a: SyncCounts, b: SyncCounts): SyncCounts {
    SyncCounts(a.tileNew + b.tileNew, a.tileChanged + b.tileChanged, a.tileDeleted + b.tileDeleted, a.tileFailed + b.tileFailed)
  }

  /** What one job should count: its tiles under its own counter when it succeeds, one failure when it does not. */
  function Share(job: SyncJob, t: Transfer): SyncCounts {
    if !Succeeds(job, t) then SyncCounts(0, 0, 0, 1)
    else match job
      case Upload(_) => SyncCounts(1, 0, 0, 0)
      case Update(_) => SyncCounts(0, 1, 0, 0)
      case Delete(paths) => SyncCounts(0, 0, |paths|, 0)
  }

  /** The shares of all jobs added up. */
  function Tally(jobs: seq<SyncJob>, transfer: SyncJob -> Transfer): SyncCounts
    decreases |jobs|
  {
    if jobs == [] then SyncCounts(0, 0, 0, 0) else Add(Share(jobs[0], transfer(jobs[0])), Tally(jobs[1..], transfer))
  }

  const Zero := SyncCounts(0, 0, 0, 0)

  lemma AddZero(c: SyncCounts)
    ensures Add(Zero, c) == c && Add(c, Zero) == c
  {
  }

  lemma AddAssoc(x: SyncCounts, y: SyncCounts, z: SyncCounts)
    ensures Add(x, Add(y, z)) == Add(Add(x, y), z)
  {
  }

  /** The callbacks, applied to one job's outcome, add that job's share. */
  lemma StepAddsShare(c: SyncCounts, job: SyncJob, t: Transfer)
    ensures JobWatch.Step(SyncHandlers(), c, Perform(job, t)) == Add(c, Share(job, t))
  {
  }

  /** The callbacks, replayed over the outcomes of the jobs, count exactly the shares of the jobs. */
  lemma {:induction false} ReplayTallies(jobs: seq<SyncJob>, transfer: SyncJob -> Transfer, c: SyncCounts)
    ensures JobWatch.Replay(SyncHandlers(), c, Outcomes(jobs, transfer)) == Add(c, Tally(jobs, transfer))
    decreases |jobs|
  {
    var outs := Outcomes(jobs, transfer);
    if jobs == [] {
      AddZero(c);
    } else {
      assert outs[1..] == Outcomes(jobs[1..], transfer);
      var share := Share(jobs[0], transfer(jobs[0]));
      StepAddsShare(c, jobs[0], transfer(jobs[0]));
      var c1 := Add(c, share);
      assert JobWatch.Replay(SyncHandlers(), c, outs) == JobWatch.Replay(SyncHandlers(), c1, outs[1..]);
      ReplayTallies(jobs[1..], transfer, c1);
      AddAssoc(c, share, Tally(jobs[1..], transfer));
    }
  }

  lemma {:induction false} TallyAppend(a: seq<SyncJob>, b: seq<SyncJob>, transfer: SyncJob -> Transfer)
    ensures Tally(a + b, transfer) == Add(Tally(a, transfer), Tally(b, transfer))
    decreases |a|
  {
    if a == [] {
      assert a + b == b;
      AddZero(Tally(b, transfer));
    } else {
      assert (a + b)[0] == a[0] && (a + b)[1..] == a[1..] + b;
      TallyAppend(a[1..], b, transfer);
      AddAssoc(Share(a[0], transfer(a[0])), Tally(a[1..], transfer), Tally(b, transfer));
    }
  }

  lemma TallySingle(job: SyncJob, transfer: SyncJob -> Transfer)
    ensures Tally([job], transfer) == Share(job, transfer(job))
  {
    assert [job][1..] == [];
    AddZero(Share(job, transfer(job)));
  }

  /**
   * How `sync_tiles` ends: it returns the counters, or a keyboard interrupt
   * re-raised by `watch_jobs` while awaiting job `at` halts it with no result.
   */
  datatype Synced = Counted(counts: SyncCounts) | SyncInterrupted(at: nat)

  /**
   * `sync_tiles`: queues the jobs and watches them with callbacks that
   * count their results. A failure goes to `on_error`, so every job is
   * awaited unless a keyboard interrupt arrives: `interruptAt` is the job
   * being awaited when it does, if any. Without one, the counters equal the
   * jobs' shares added up.
   */
  method SyncTiles(plan: SyncPlan.Actions, batchSize: nat, transfer: SyncJob -> Transfer, interruptAt: Option<nat>,
                   tick: nat -> bool)
    returns (result: Synced, total: nat)
    requires batchSize > 0
    ensures result.Counted? <==> interruptAt.None? || interruptAt.value >= |Layout(plan, batchSize)|
    ensures result.Counted? ==> result.counts == Tally(Layout(plan, batchSize), transfer)
    ensures result.SyncInterrupted? ==> interruptAt == Some(result.at)
    ensures total == |plan.upload| + |plan.update| + |plan.delete|
  {
    var jobs;
    jobs, total := QueueJobs(plan, batchSize);
    var outcomes := Outcomes(jobs, transfer);
    var performed := outcomes;
    if interruptAt.Some? && interruptAt.value < |jobs| {
      outcomes := outcomes[interruptAt.value := JobWatch.Interrupt];
    }
    var run := JobWatch.WatchJobs(outcomes, tick, SyncHandlers(), Zero);
    if interruptAt.Some? && interruptAt.value < |jobs| {
      var k := interruptAt.value;
      assert forall i :: 0 <= i < k ==> outcomes[i] == performed[i];
      JobWatch.InterruptPropagates(outcomes, tick, SyncHandlers(), Zero, k);
    } else {
      JobWatch.ErrorsAreIsolated(outcomes, tick, SyncHandlers(), Zero);
      ReplayTallies(jobs, transfer, Zero);
      AddZero(Tally(jobs, transfer));
    }
    if run.status.Interrupted? {
      result := SyncInterrupted(run.status.at);
    } else {
      result := Counted(run.state);
    }
  }

  // ---------------------------------------------------------------------
  // What the counters report

  lemma {:induction false} TallyUploads(paths: seq<string>, transfer: SyncJob -> Transfer)
    requires forall j :: Succeeds(j, transfer(j))
    ensures Tally(UploadJobs(paths), transfer) == SyncCounts(|paths|, 0, 0, 0)
    decreases |paths|
  {
    if paths != [] {
      var front := paths[..|paths| - 1];
      var last := Upload(paths[|paths| - 1]);
      TallyUploads(front, transfer);
      TallyAppend(UploadJobs(front), [last], transfer);
      TallySingle(last, transfer);
    }
  }

  lemma {:induction false} TallyUpdates(paths: seq<string>, transfer: SyncJob -> Transfer)
    requires forall j :: Succeeds(j, transfer(j))
    ensures Tally(UpdateJobs(paths), transfer) == SyncCounts(0, |paths|, 0, 0)
    decreases |paths|
  {
    if paths != [] {
      var front := paths[..|paths| - 1];
      var last := Update(paths[|paths| - 1]);
      TallyUpdates(front, transfer);
      TallyAppend(UpdateJobs(front), [last], transfer);
      TallySingle(last, transfer);
    }
  }

  lemma {:induction false} TallyDeletes(batches: seq<seq<string>>, transfer: SyncJob -> Transfer)
    requires forall j :: Succeeds(j, transfer(j))
    ensures Tally(DeleteJobs(batches), transfer) == SyncCounts(0, 0, |Concat(batches)|, 0)
    decreases |batches|
  {
    if batches != [] {
      var n := |batches| - 1;
      var front := batches[..n];
      var last := Delete(batches[n]);
      TallyDeletes(front, transfer);
      TallyAppend(DeleteJobs(front), [last], transfer);
      TallySingle(last, transfer);
      assert batches == front + [batches[n]];
      ConcatAppend(front, [batches[n]]);
      assert Concat([batches[n]]) == batches[n] + Concat([]);
    }
  }

  /** When every transfer succeeds, the counters hold the sizes of the three lists and no failure. */
  lemma AllSucceed(plan: SyncPlan.Actions, batchSize: nat, transfer: SyncJob -> Transfer)
    requires batchSize > 0
    requires forall j :: Succeeds(j, transfer(j))
    ensures Tally(Layout(plan, batchSize), transfer)
         == SyncCounts(|plan.upload|, |plan.update|, |plan.delete|, 0)
  {
    var batches := Chunked(plan.delete, batchSize);
    TallyUploads(plan.upload, transfer);
    TallyUpdates(plan.update, transfer);
    TallyDeletes(batches, transfer);
    ChunkedBatches(plan.delete, batchSize);
    TallyAppend(UploadJobs(plan.upload), UpdateJobs(plan.update), transfer);
    TallyAppend(UploadJobs(plan.upload) + UpdateJobs(plan.update), DeleteJobs(batches), transfer);
  }

  /** The tiles a job covers. */
  function Covers(job: SyncJob): nat {
    if job.Delete? then |job.paths| else 1
  }

  function Work(jobs: seq<SyncJob>): nat
    decreases |jobs|
  {
    if jobs == [] then 0 else Covers(jobs[0]) + Work(jobs[1..])
  }

  function Sum(c: SyncCounts): nat {
    c.tileNew + c.tileChanged + c.tileDeleted + c.tileFailed
  }

  /** A job's share counts the tiles it covers when it succeeds, and one failure when it does not. */
  lemma ShareSum(job: SyncJob, t: Transfer)
    ensures Sum(Share(job, t)) == if Succeeds(job, t) then Covers(job) else 1
  {
  }

  lemma SumAdd(a: SyncCounts, b: SyncCounts)
    ensures Sum(Add(a, b)) == Sum(a) + Sum(b)
  {
  }

  /**
   * For jobs with non-empty delete batches, the counters never exceed the
   * tiles the jobs cover, and fall short exactly when a failed job covered
   * more than one tile: a failed delete batch counts one failure whatever
   * its size.
   */
  lemma {:induction false} CountsWithinWork(jobs: seq<SyncJob>, transfer: SyncJob -> Transfer)
    requires forall i :: 0 <= i < |jobs| ==> Covers(jobs[i]) >= 1
    ensures Sum(Tally(jobs, transfer)) <= Work(jobs)
    ensures Sum(Tally(jobs, transfer)) == Work(jobs)
        <==> forall i :: 0 <= i < |jobs| && !Succeeds(jobs[i], transfer(jobs[i])) ==> Covers(jobs[i]) == 1
    decreases |jobs|
  {
    if jobs != [] {
      var rest := jobs[1..];
      assert forall i :: 0 <= i < |rest| ==> rest[i] == jobs[i + 1];
      CountsWithinWork(rest, transfer);
      ShareSum(jobs[0], transfer(jobs[0]));
      SumAdd(Share(jobs[0], transfer(jobs[0])), Tally(rest, transfer));
      assert Sum(Tally(jobs, transfer)) == Sum(Share(jobs[0], transfer(jobs[0]))) + Sum(Tally(rest, transfer));
      assert Work(jobs) == Covers(jobs[0]) + Work(rest);
      if forall i :: 0 <= i < |jobs| && !Succeeds(jobs[i], transfer(jobs[i])) ==> Covers(jobs[i]) == 1 {
        assert forall i :: 0 <= i < |rest| && !Succeeds(rest[i], transfer(rest[i])) ==> Covers(rest[i]) == 1;
      } else {
        var i :| 0 <= i < |jobs| && !Succeeds(jobs[i], transfer(jobs[i])) && Covers(jobs[i]) != 1;
        if i > 0 {
          assert rest[i - 1] == jobs[i];
        }
      }
    }
  }

  /** The delete batches of a layout are never empty, so the bound above applies to every layout. */
  lemma LayoutJobsCover(plan: SyncPlan.Actions, batchSize: nat)
    requires batchSize > 0
    ensures forall i :: 0 <= i < |Layout(plan, batchSize)| ==> Covers(Layout(plan, batchSize)[i]) >= 1
  {
    ChunkedBatches(plan.delete, batchSize);
    DeleteJobsCover(Chunked(plan.delete, batchSize));
    UploadJobsKind(plan.upload);
    UpdateJobsKind(plan.update);
  }

  lemma {:induction false} UploadJobsKind(paths: seq<string>)
    ensures forall i :: 0 <= i < |UploadJobs(paths)| ==> UploadJobs(paths)[i].Upload?
    decreases |paths|
  {
    if paths != [] {
      UploadJobsKind(paths[..|paths| - 1]);
    }
  }

  lemma {:induction false} UpdateJobsKind(paths: seq<string>)
    ensures forall i :: 0 <= i < |UpdateJobs(paths)| ==> UpdateJobs(paths)[i].Update?
    decreases |paths|
  {
    if paths != [] {
      UpdateJobsKind(paths[..|paths| - 1]);
    }
  }

  lemma {:induction false} DeleteJobsCover(batches: seq<seq<string>>)
    requires forall k :: 0 <= k < |batches| ==> |batches[k]| > 0
    ensures forall i :: 0 <= i < |DeleteJobs(batches)| ==> Covers(DeleteJobs(batches)[i]) >= 1
    decreases |batches|
  {
    if batches != [] {
      DeleteJobsCover(batches[..|batches| - 1]);
    }
  }

  /** A failed batch of three deletes counts as one failure, while the plan's total is three. */
  lemma FailedDeleteBatchCountsOnce()
    ensures var plan := SyncPlan.Actions([], [], ["0/0/0.png", "1/0/0.png", "1/1/0.png"]);
      var transfer := (j: SyncJob) => Transfer(None, ["AccessDenied"]);
      Tally(Layout(plan, 100), transfer) == SyncCounts(0, 0, 0, 1)
  {
    var plan := SyncPlan.Actions([], [], ["0/0/0.png", "1/0/0.png", "1/1/0.png"]);
    var transfer := (j: SyncJob) => Transfer(None, ["AccessDenied"]);
    assert Chunked(plan.delete, 100) == [plan.delete];
    assert DeleteJobs([plan.delete]) == [Delete(plan.delete)] by {
      assert [plan.delete][..0] == [];
    }
    assert Layout(plan, 100) == [Delete(plan.delete)];
    TallySingle(Delete(plan.delete), transfer);
  }
}
