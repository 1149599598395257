/**
 * The job batch watcher of the datamap script (`watch_jobs`).
 *
 * Jobs have already been dispatched to a worker pool; the watcher awaits them
 * one by one in list order. What awaiting job `i` yields is its `Outcome`:
 * a value, an exception, or a keyboard interrupt. The optional callbacks
 * `on_success` and `on_error` are closures that update the caller's counters;
 * here each is a function from the caller's state to its new state. The
 * wall-clock test that decides whether progress is reported before awaiting
 * job `i` is the boolean `tick(i)`, which the model leaves unconstrained.
 */
module JobWatch {
  import opened Wrappers

  /** What `job.get()` does for one job. */
  datatype Outcome<+V> = Returned(value: V) | Threw(error: string) | Interrupt

  /** How the watcher ends: after the last job, re-raising a job's exception, or on an interrupt. */
  datatype Status = Completed | Raised(at: nat, error: string) | Interrupted(at: nat)

  /** The optional callbacks and whether an error-reporting client is present. */
  datatype Handlers<!S, !V> = Handlers(
    onSuccess: Option<(S, V) -> S>,
    onError: Option<(S, string) -> S>,
    reportErrors: bool)

  /**
   * The observable effect of one watch: the callbacks' final state, the
   * `jobs_complete` values passed to `on_progress`, the positions of the
   * failures reported to the error-reporting client, and how it ended.
   */
  datatype Run<S> = Run(state: S, progress: seq<nat>, reported: seq<nat>, status: Status)

  /** The callback that fires for one job's outcome, if any; an interrupt fires none. */
  function Step<S, V>(h: Handlers<S, V>, s: S, o: Outcome<V>): S {
    match o
    case Returned(v) => if h.onSuccess.Some? then h.onSuccess.value(s, v) else s
    case Threw(e) => if h.onError.Some? then h.onError.value(s, e) else s
    case Interrupt => s
  }

  /** The callbacks applied once per outcome, in list order. */
  function Replay<S, V>(h: Handlers<S, V>, s: S, outcomes: seq<Outcome<V>>): S
    decreases |outcomes|
  {
    if outcomes == [] then s else Replay(h, Step(h, s, outcomes[0]), outcomes[1..])
  }

  /** A job the watcher gets past: a value, or an exception when `on_error` is supplied. */
  predicate PassesThrough<S, V>(h: Handlers<S, V>, o: Outcome<V>) {
    o.Returned? || (o.Threw? && h.onError.Some?)
  }

  /** A watch preceded by the progress reports and error reports already made. */
  function After<S>(progress: seq<nat>, reported: seq<nat>, r: Run<S>): Run<S> {
    r.(progress := progress + r.progress, reported := reported + r.reported)
  }

  /**
   * The watcher's behaviour on `jobs`, the jobs still to await, when `done`
   * jobs are complete and the callbacks' state is `s`: progress may be
   * reported before each job is awaited; a failure goes to the error client
   * when there is one; an interrupt, or a failure without `on_error`, ends
   * the watch at that job.
   */
  function Watch<S, V>(jobs: seq<Outcome<V>>, tick: nat -> bool, h: Handlers<S, V>, done: nat, s: S): Run<S>
    decreases |jobs|
  {
    if jobs == [] then Run(s, [], [], Completed)
    else
      var progress := if tick(done) then [done] else [];
      var reported := if jobs[0].Threw? && h.reportErrors then [done] else [];
      if PassesThrough(h, jobs[0]) then
        After(progress, reported, Watch(jobs[1..], tick, h, done + 1, Step(h, s, jobs[0])))
      else
        Run(s, progress, reported, if jobs[0].Interrupt? then Interrupted(done) else Raised(done, jobs[0].error))
  }

  lemma AfterAfter<S>(p1: seq<nat>, r1: seq<nat>, p2: seq<nat>, r2: seq<nat>, run: Run<S>)
    ensures After(p1, r1, After(p2, r2, run)) == After(p1 + p2, r1 + r2, run)
  {
    assert (p1 + p2) + run.progress == p1 + (p2 + run.progress);
    assert (r1 + r2) + run.reported == r1 + (r2 + run.reported);
  }

  /** Getting past job `i` moves its progress and error reports in front of the rest of the watch. */
  lemma WatchAdvance<S, V>(jobs: seq<Outcome<V>>, tick: nat -> bool, h: Handlers<S, V>, i: nat, s: S,
                           progress: seq<nat>, reported: seq<nat>)
    requires i < |jobs| && PassesThrough(h, jobs[i])
    ensures After(progress, reported, Watch(jobs[i..], tick, h, i, s))
      == After(progress + (if tick(i) then [i] else []), reported + (if jobs[i].Threw? && h.reportErrors then [i] else []),
               Watch(jobs[i + 1..], tick, h, i + 1, Step(h, s, jobs[i])))
  {
    assert jobs[i..][1..] == jobs[i + 1..];
    AfterAfter(progress, reported, if tick(i) then [i] else [], if jobs[i].Threw? && h.reportErrors then [i] else [],
               Watch(jobs[i + 1..], tick, h, i + 1, Step(h, s, jobs[i])));
  }

  /** `watch_jobs`: awaits every job in list order, firing the callbacks. */
  method WatchJobs<S, V>(jobs: seq<Outcome<V>>, tick: nat -> bool, h: Handlers<S, V>, s0: S) returns (r: Run<S>)
    ensures r == Watch(jobs, tick, h, 0, s0)
  {
    var state := s0;
    var progress: seq<nat> := [];
    var reported: seq<nat> := [];
    var jobsComplete := 0;
    assert jobs[0..] == jobs;
    while jobsComplete < |jobs|
      invariant 0 <= jobsComplete <= |jobs|
      invariant Watch(jobs, tick, h, 0, s0) == After(progress, reported, Watch(jobs[jobsComplete..], tick, h, jobsComplete, state))
    {
      ghost var before := state;
      ghost var progressBefore := progress;
      ghost var reportedBefore := reported;
      if tick(jobsComplete) {
        progress := progress + [jobsComplete];
      }
      match jobs[jobsComplete] {
        case Interrupt =>
          return Run(state, progress, reported, Interrupted(jobsComplete));
        case Returned(v) =>
          if h.onSuccess.Some? {
            state := h.onSuccess.value(state, v);
          }
        case Threw(e) =>
          if h.reportErrors {
            reported := reported + [jobsComplete];
          }
          if h.onError.Some? {
            state := h.onError.value(state, e);
          } else {
            return Run(state, progress, reported, Raised(jobsComplete, e));
          }
      }
      WatchAdvance(jobs, tick, h, jobsComplete, before, progressBefore, reportedBefore);
      assert progress == progressBefore + (if tick(jobsComplete) then [jobsComplete] else []);
      assert reported == reportedBefore + (if jobs[jobsComplete].Threw? && h.reportErrors then [jobsComplete] else []);
      assert state == Step(h, before, jobs[jobsComplete]);
      jobsComplete := jobsComplete + 1;
    }
    return Run(state, progress, reported, Completed);
  }

  lemma {:induction false} ReplayAppend<S, V>(h: Handlers<S, V>, s: S, a: seq<Outcome<V>>, b: seq<Outcome<V>>)
    ensures Replay(h, s, a + b) == Replay(h, Replay(h, s, a), b)
    decreases |a|
  {
    if a != [] {
      assert (a + b)[1..] == a[1..] + b;
      ReplayAppend(h, Step(h, s, a[0]), a[1..], b);
    } else {
      assert a + b == b;
    }
  }

  /**
   * Over a stretch of jobs the watcher gets past, it fires exactly one
   * callback per job, in order, and then carries on with the rest.
   */
  lemma {:induction false} WatchPastPrefix<S, V>(jobs: seq<Outcome<V>>, tick: nat -> bool, h: Handlers<S, V>, done: nat, s: S, k: nat)
    requires k <= |jobs|
    requires forall i :: 0 <= i < k ==> PassesThrough(h, jobs[i])
    ensures Watch(jobs, tick, h, done, s).state == Watch(jobs[k..], tick, h, done + k, Replay(h, s, jobs[..k])).state
    ensures Watch(jobs, tick, h, done, s).status == Watch(jobs[k..], tick, h, done + k, Replay(h, s, jobs[..k])).status
    decreases k
  {
    if k > 0 {
      assert jobs[..k][1..] == jobs[1..][..k - 1];
      assert jobs[1..][k - 1..] == jobs[k..];
      WatchPastPrefix(jobs[1..], tick, h, done + 1, Step(h, s, jobs[0]), k - 1);
    }
  }

  /**
   * Without `on_error`, the first failing job re-raises: by then `on_success`
   * has fired once for each earlier job and for no later one.
   */
  lemma {:induction false} FirstFailureAborts<S, V>(jobs: seq<Outcome<V>>, tick: nat -> bool, h: Handlers<S, V>, s0: S, k: nat)
    requires h.onError.None?
    requires k < |jobs| && jobs[k].Threw?
    requires forall i :: 0 <= i < k ==> jobs[i].Returned?
    ensures Watch(jobs, tick, h, 0, s0).status == Raised(k, jobs[k].error)
    ensures Watch(jobs, tick, h, 0, s0).state == Replay(h, s0, jobs[..k])
  {
    WatchPastPrefix(jobs, tick, h, 0, s0, k);
    assert jobs[k..][0] == jobs[k];
  }

  /**
   * With `on_error`, a batch without interrupts is awaited to the end and
   * every job fires exactly one of the two callbacks, in list order.
   */
  lemma {:induction false} ErrorsAreIsolated<S, V>(jobs: seq<Outcome<V>>, tick: nat -> bool, h: Handlers<S, V>, s0: S)
    requires h.onError.Some?
    requires forall i :: 0 <= i < |jobs| ==> !jobs[i].Interrupt?
    ensures Watch(jobs, tick, h, 0, s0).status == Completed
    ensures Watch(jobs, tick, h, 0, s0).state == Replay(h, s0, jobs)
  {
    WatchPastPrefix(jobs, tick, h, 0, s0, |jobs|);
    assert jobs[..|jobs|] == jobs;
  }

  /** A watch runs to completion exactly when it gets past every job. */
  lemma {:induction false} CompletesIffAllPass<S, V>(jobs: seq<Outcome<V>>, tick: nat -> bool, h: Handlers<S, V>, done: nat, s: S)
    ensures Watch(jobs, tick, h, done, s).status.Completed? <==> forall i :: 0 <= i < |jobs| ==> PassesThrough(h, jobs[i])
    decreases |jobs|
  {
    if jobs != [] {
      CompletesIffAllPass(jobs[1..], tick, h, done + 1, Step(h, s, jobs[0]));
      if forall i :: 0 <= i < |jobs| ==> PassesThrough(h, jobs[i]) {
        assert forall i :: 0 <= i < |jobs[1..]| ==> jobs[1..][i] == jobs[i + 1];
      } else if PassesThrough(h, jobs[0]) {
        var i :| 0 <= i < |jobs| && !PassesThrough(h, jobs[i]);
        assert jobs[1..][i - 1] == jobs[i];
      }
    }
  }

  /**
   * An interrupt always ends the watch at that job, whether or not
   * `on_error` is supplied, and fires no callback for it.
   */
  lemma {:induction false} InterruptPropagates<S, V>(jobs: seq<Outcome<V>>, tick: nat -> bool, h: Handlers<S, V>, s0: S, k: nat)
    requires k < |jobs| && jobs[k].Interrupt?
    requires forall i :: 0 <= i < k ==> PassesThrough(h, jobs[i])
    ensures Watch(jobs, tick, h, 0, s0).status == Interrupted(k)
    ensures Watch(jobs, tick, h, 0, s0).state == Replay(h, s0, jobs[..k])
    ensures Watch(jobs, tick, h, 0, s0).state == Replay(h, s0, jobs[..k + 1])
  {
    WatchPastPrefix(jobs, tick, h, 0, s0, k);
    assert jobs[k..][0] == jobs[k];
    ReplayAppend(h, s0, jobs[..k], [jobs[k]]);
    assert jobs[..k + 1] == jobs[..k] + [jobs[k]];
  }

  /** Values passed to `on_progress`: strictly increasing, each at least `low` and below `high`. */
  predicate ProgressWithin(progress: seq<nat>, low: nat, high: nat) {
    (forall i, j :: 0 <= i < j < |progress| ==> progress[i] < progress[j])
    && (forall i :: 0 <= i < |progress| ==> low <= progress[i] < high)
  }

  /** Every position reported to the error client is that of a job, counted from `done`, that raised. */
  predicate ReportsFailures<V>(reported: seq<nat>, jobs: seq<Outcome<V>>, done: nat) {
    forall i :: 0 <= i < |reported| ==> done <= reported[i] < done + |jobs| && jobs[reported[i] - done].Threw?
  }

  /** The `jobs_complete` values reported to `on_progress` increase strictly and stay below the job count. */
  lemma {:induction false} ProgressIsMonotone<S, V>(jobs: seq<Outcome<V>>, tick: nat -> bool, h: Handlers<S, V>, done: nat, s: S)
    ensures ProgressWithin(Watch(jobs, tick, h, done, s).progress, done, done + |jobs|)
    decreases |jobs|
  {
    if jobs != [] && PassesThrough(h, jobs[0]) {
      var rest := Watch(jobs[1..], tick, h, done + 1, Step(h, s, jobs[0])).progress;
      ProgressIsMonotone(jobs[1..], tick, h, done + 1, Step(h, s, jobs[0]));
      ProgressWithinCons(if tick(done) then [done] else [], rest, done, done + |jobs|);
    }
  }

  lemma ProgressWithinCons(now: seq<nat>, rest: seq<nat>, done: nat, high: nat)
    requires now == [] || now == [done]
    requires done < high && ProgressWithin(rest, done + 1, high)
    ensures ProgressWithin(now + rest, done, high)
  {
    var all := now + rest;
    forall i, j | 0 <= i < j < |all| ensures all[i] < all[j] {
      if i >= |now| {
        assert all[i] == rest[i - |now|] && all[j] == rest[j - |now|];
      } else {
        assert all[j] == rest[j - |now|];
      }
    }
    forall i | 0 <= i < |all| ensures done <= all[i] < high {
      if i >= |now| {
        assert all[i] == rest[i - |now|];
      }
    }
  }

  /** Only jobs that raised are reported to the error client, each once, at its own position. */
  lemma {:induction false} OnlyFailuresReported<S, V>(jobs: seq<Outcome<V>>, tick: nat -> bool, h: Handlers<S, V>, done: nat, s: S)
    ensures ReportsFailures(Watch(jobs, tick, h, done, s).reported, jobs, done)
    decreases |jobs|
  {
    if jobs != [] && PassesThrough(h, jobs[0]) {
      var now := if jobs[0].Threw? && h.reportErrors then [done] else [];
      var rest := Watch(jobs[1..], tick, h, done + 1, Step(h, s, jobs[0])).reported;
      OnlyFailuresReported(jobs[1..], tick, h, done + 1, Step(h, s, jobs[0]));
      var all := Watch(jobs, tick, h, done, s).reported;
      assert all == now + rest;
      forall i | 0 <= i < |all| ensures done <= all[i] < done + |jobs| && jobs[all[i] - done].Threw? {
        if i >= |now| {
          assert all[i] == rest[i - |now|];
          assert jobs[1..][rest[i - |now|] - (done + 1)] == jobs[all[i] - done];
        }
      }
    }
  }

  /** What each callback records when the callbacks only log which of them fired. */
  datatype Fired<+V> = Succeeded(value: V) | Failed(error: string)

  function LogHandlers<V>(): Handlers<seq<Fired<V>>, V> {
    Handlers(Some((log: seq<Fired<V>>, v: V) => log + [Succeeded(v)]),
             Some((log: seq<Fired<V>>, e: string) => log + [Failed(e)]),
             true)
  }

  /**
   * With both callbacks supplied and no interrupt, the log records exactly one
   * callback per job, in job order: `on_success` with the job's value for a
   * job that returned, `on_error` with its exception for one that raised.
   */
  lemma {:induction false} OneCallbackPerJob<V>(jobs: seq<Outcome<V>>, tick: nat -> bool, log0: seq<Fired<V>>)
    requires forall i :: 0 <= i < |jobs| ==> !jobs[i].Interrupt?
    ensures var log := Watch(jobs, tick, LogHandlers(), 0, log0).state;
      |log| == |log0| + |jobs|
      && log[..|log0|] == log0
      && forall i :: 0 <= i < |jobs| ==>
           (jobs[i].Returned? ==> log[|log0| + i] == Succeeded(jobs[i].value))
           && (jobs[i].Threw? ==> log[|log0| + i] == Failed(jobs[i].error))
  {
    ErrorsAreIsolated(jobs, tick, LogHandlers(), log0);
    ReplayLogs(jobs, log0);
  }

  lemma {:induction false} ReplayLogs<V>(jobs: seq<Outcome<V>>, log0: seq<Fired<V>>)
    requires forall i :: 0 <= i < |jobs| ==> !jobs[i].Interrupt?
    ensures var log := Replay(LogHandlers(), log0, jobs);
      |log| == |log0| + |jobs|
      && log[..|log0|] == log0
      && forall i :: 0 <= i < |jobs| ==>
           (jobs[i].Returned? ==> log[|log0| + i] == Succeeded(jobs[i].value))
           && (jobs[i].Threw? ==> log[|log0| + i] == Failed(jobs[i].error))
    decreases |jobs|
  {
    if jobs != [] {
      var log1 := Step(LogHandlers(), log0, jobs[0]);
      assert |log1| == |log0| + 1 && log1[..|log0|] == log0;
      assert jobs[0].Returned? ==> log1[|log0|] == Succeeded(jobs[0].value);
      assert jobs[0].Threw? ==> log1[|log0|] == Failed(jobs[0].error);
      ReplayLogs(jobs[1..], log1);
      var log := Replay(LogHandlers(), log1, jobs[1..]);
      assert log[..|log0|] == log[..|log1|][..|log0|];
      forall i | 0 <= i < |jobs|
        ensures (jobs[i].Returned? ==> log[|log0| + i] == Succeeded(jobs[i].value))
             && (jobs[i].Threw? ==> log[|log0| + i] == Failed(jobs[i].error))
      {
        if i == 0 {
          assert log[|log0|] == log[..|log1|][|log0|];
        } else {
          assert jobs[1..][i - 1] == jobs[i];
        }
      }
    }
  }

  /** Counts `on_success` and `on_error` calls. */
  datatype CallCounts = CallCounts(successes: nat, errors: nat)

  function CountHandlers<V>(onError: bool): Handlers<CallCounts, V> {
    Handlers(Some((c: CallCounts, v: V) => c.(successes := c.successes + 1)),
             if onError then Some((c: CallCounts, e: string) => c.(errors := c.errors + 1)) else None,
             false)
  }

  /** Ten jobs of which the fourth raises. */
  function TenJobsFourthRaises(): seq<Outcome<int>> {
    [Returned(1), Returned(2), Returned(3), Threw("boom"), Returned(5), Returned(6), Returned(7), Returned(8), Returned(9), Returned(10)]
  }

  /** Without an error handler the watcher re-raises at the fourth job, after three successes. */
  lemma FourthOfTenAborts(tick: nat -> bool)
    ensures var aborted := Watch(TenJobsFourthRaises(), tick, CountHandlers(false), 0, CallCounts(0, 0));
      aborted.status == Raised(3, "boom") && aborted.state == CallCounts(3, 0)
  {
    var jobs := TenJobsFourthRaises();
    FirstFailureAborts(jobs, tick, CountHandlers(false), CallCounts(0, 0), 3);
    assert jobs[..3] == [Returned(1), Returned(2), Returned(3)];
  }

  /** The number of jobs that returned, and of those that raised. */
  function Returns<V>(jobs: seq<Outcome<V>>): nat
    decreases |jobs|
  {
    if jobs == [] then 0 else (if jobs[0].Returned? then 1 else 0) + Returns(jobs[1..])
  }

  function Raises<V>(jobs: seq<Outcome<V>>): nat
    decreases |jobs|
  {
    if jobs == [] then 0 else (if jobs[0].Threw? then 1 else 0) + Raises(jobs[1..])
  }

  /** Counting callbacks replayed over the jobs count the returns and, when `on_error` is given, the raises. */
  lemma {:induction false} ReplayCounts<V>(jobs: seq<Outcome<V>>, onError: bool, c: CallCounts)
    ensures Replay(CountHandlers(onError), c, jobs)
         == CallCounts(c.successes + Returns(jobs), c.errors + if onError then Raises(jobs) else 0)
    decreases |jobs|
  {
    if jobs != [] {
      ReplayCounts(jobs[1..], onError, Step(CountHandlers(onError), c, jobs[0]));
    }
  }

  /** With an error handler all ten jobs are awaited: the handler fires once and `on_success` nine times. */
  lemma FourthOfTenIsolated(tick: nat -> bool)
    ensures var isolated := Watch(TenJobsFourthRaises(), tick, CountHandlers(true), 0, CallCounts(0, 0));
      isolated.status == Completed && isolated.state == CallCounts(9, 1)
  {
    var jobs := TenJobsFourthRaises();
    ErrorsAreIsolated(jobs, tick, CountHandlers(true), CallCounts(0, 0));
    ReplayCounts(jobs, true, CallCounts(0, 0));
  }
}
