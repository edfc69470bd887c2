/** What a run of the scheduler guarantees: which pairs are dispatched, how the
    counters grow, which files a run may touch, what becomes of each pair's
    output and temporary file, when a run ends with an exception, and that a
    second run in resume mode after a fully successful one does nothing. */
module SchedulerFacts {
  import opened Results
  import opened Sequences
  import opened Paths
  import opened Batching
  import opened Scheduler
  import opened Discovery

  /** A pair whose output path has a temporary sibling. */
  predicate HasTemp(w: Work)
  {
    TempPath(w.task.output).Ok?
  }

  /** A pair whose output has a directory part, so that making the output's
      directory does not raise. */
  predicate HasDir(w: Work)
  {
    |w.task.output| >= 2
  }

  /** A pair the dispatch loop gets past without raising: its output has a
      file name and, unless the pair is set aside, a directory part. */
  predicate Ready(files: set<Path>, w: Work, skipExisting: bool)
  {
    HasTemp(w) && (!SetAside(files, w, skipExisting) ==> HasDir(w))
  }

  /** The pairs of a batch that are dispatched when the batch starts with the
      files `files`, in batch order. */
  function Pending(files: set<Path>, batch: seq<Work>, skipExisting: bool): seq<Work>
  {
    Filter(batch, (w: Work) => !SetAside(files, w, skipExisting))
  }

  /** The job spawned for a pair. */
  function JobFor(w: Work): Job
    requires HasTemp(w)
  {
    Job(w.task.input, w.task.output, TempPath(w.task.output).value, w.exit)
  }

  /** The pairs whose transcoder reports a nonzero exit status. */
  function Failures(ws: seq<Work>): seq<Work>
  {
    Filter(ws, (w: Work) => w.exit.code != 0)
  }

  /** The jobs whose process reports a nonzero exit status. */
  function FailedJobs(jobs: seq<Job>): seq<Job>
  {
    Filter(jobs, (j: Job) => j.exit.code != 0)
  }

  /** A pair's job may create, replace or delete `p`. */
  predicate Touches(w: Work, p: Path)
  {
    p == w.task.output || TempPath(w.task.output) == Ok(p)
  }

  // ---------------------------------------------------------------- dispatch

  /** The dispatch loop with the temporary-path rule as a parameter. It
      exists only to keep proofs cheap: with the rule abstract, the solver
      does not unfold the parsing of file names. `DispatchIsBy` shows it is
      the scheduler's `Dispatch` for `TempPath`. */
  function DispatchBy(files: set<Path>, batch: seq<Work>, skipExisting: bool,
                      tempOf: Path -> Result<Path, PathError>): Result<seq<Job>, Halt>
  {
    if |batch| == 0 then Ok([])
    else match DispatchBy(files, batch[..|batch| - 1], skipExisting, tempOf)
      case Err(h) => Err(h)
      case Ok(jobs) =>
        var w := batch[|batch| - 1];
        match tempOf(w.task.output)
        case Err(_) => Err(NoFileName(w.task.output))
        case Ok(temp) =>
          if SetAside(files, w, skipExisting) then Ok(jobs)
          else if |w.task.output| < 2 then Err(NoDirectory(w.task.output))
          else Ok(jobs + [Job(w.task.input, w.task.output, temp, w.exit)])
  }

  lemma {:induction false} DispatchIsBy(files: set<Path>, batch: seq<Work>, skipExisting: bool)
    ensures Dispatch(files, batch, skipExisting) == DispatchBy(files, batch, skipExisting, TempPath)
    decreases |batch|
  {
    if |batch| > 0 {
      DispatchIsBy(files, batch[..|batch| - 1], skipExisting);
    }
  }

  /** `Ready` for the temporary-path rule `tempOf`. */
  predicate ReadyBy(files: set<Path>, w: Work, skipExisting: bool, tempOf: Path -> Result<Path, PathError>)
  {
    tempOf(w.task.output).Ok? && (!SetAside(files, w, skipExisting) ==> HasDir(w))
  }

  /** `w` is where the dispatch loop raises `h`, for the temporary-path rule
      `tempOf`. */
  predicate ByFails(files: set<Path>, w: Work, skipExisting: bool,
                    tempOf: Path -> Result<Path, PathError>, h: Halt)
  {
    if tempOf(w.task.output).Err? then h == NoFileName(w.task.output)
    else !SetAside(files, w, skipExisting) && !HasDir(w) && h == NoDirectory(w.task.output)
  }

  lemma {:induction false} DispatchByOk(files: set<Path>, batch: seq<Work>, skipExisting: bool,
                                        tempOf: Path -> Result<Path, PathError>)
    ensures DispatchBy(files, batch, skipExisting, tempOf).Ok? <==>
      forall i :: 0 <= i < |batch| ==> ReadyBy(files, batch[i], skipExisting, tempOf)
    decreases |batch|
  {
    if |batch| > 0 {
      var n := |batch| - 1;
      DispatchByOk(files, batch[..n], skipExisting, tempOf);
      assert forall j :: 0 <= j < n ==> batch[j] == batch[..n][j];
    }
  }

  /** `jobs` are the jobs spawned for the pairs `ps`, one each, in order. */
  predicate JobsMatch(jobs: seq<Job>, ps: seq<Work>, tempOf: Path -> Result<Path, PathError>)
  {
    |jobs| == |ps| && forall k :: 0 <= k < |jobs| ==>
      tempOf(ps[k].task.output).Ok? && jobs[k] == Job(ps[k].task.input, ps[k].task.output, tempOf(ps[k].task.output).value, ps[k].exit)
  }

  lemma JobsMatchAppend(jobs: seq<Job>, ps: seq<Work>, w: Work, tempOf: Path -> Result<Path, PathError>)
    requires JobsMatch(jobs, ps, tempOf) && tempOf(w.task.output).Ok?
    ensures JobsMatch(jobs + [Job(w.task.input, w.task.output, tempOf(w.task.output).value, w.exit)], ps + [w], tempOf)
  {
  }

  lemma {:induction false} DispatchByJobs(files: set<Path>, batch: seq<Work>, skipExisting: bool,
                                          tempOf: Path -> Result<Path, PathError>)
    requires DispatchBy(files, batch, skipExisting, tempOf).Ok?
    ensures JobsMatch(DispatchBy(files, batch, skipExisting, tempOf).value, Pending(files, batch, skipExisting), tempOf)
    decreases |batch|
  {
    if |batch| > 0 {
      var n := |batch| - 1;
      var front, w := batch[..n], batch[n];
      DispatchByJobs(files, front, skipExisting, tempOf);
      PendingSnoc(files, batch, skipExisting);
      if !SetAside(files, w, skipExisting) {
        JobsMatchAppend(DispatchBy(files, front, skipExisting, tempOf).value, Pending(files, front, skipExisting), w, tempOf);
      }
    }
  }

  /** The pairs dispatched from a batch are those dispatched from all but its
      last pair, followed by the last pair unless it is set aside. */
  lemma PendingSnoc(files: set<Path>, batch: seq<Work>, skipExisting: bool)
    requires |batch| > 0
    ensures var n := |batch| - 1;
      Pending(files, batch, skipExisting) == Pending(files, batch[..n], skipExisting) +
        (if SetAside(files, batch[n], skipExisting) then [] else [batch[n]])
  {
    var n := |batch| - 1;
    assert batch == batch[..n] + [batch[n]];
    FilterAppend(batch[..n], [batch[n]], (w: Work) => !SetAside(files, w, skipExisting));
    assert [batch[n]][1..] == [];
  }

  lemma {:induction false} DispatchByError(files: set<Path>, batch: seq<Work>, skipExisting: bool,
                                           tempOf: Path -> Result<Path, PathError>)
    requires DispatchBy(files, batch, skipExisting, tempOf).Err?
    ensures exists i :: (0 <= i < |batch| && ByFails(files, batch[i], skipExisting, tempOf,
        DispatchBy(files, batch, skipExisting, tempOf).error)
      && forall j :: 0 <= j < i ==> ReadyBy(files, batch[j], skipExisting, tempOf))
    decreases |batch|
  {
    var n := |batch| - 1;
    var front := batch[..n];
    if DispatchBy(files, front, skipExisting, tempOf).Err? {
      DispatchByError(files, front, skipExisting, tempOf);
      var i :| 0 <= i < |front| && ByFails(files, front[i], skipExisting, tempOf,
          DispatchBy(files, front, skipExisting, tempOf).error)
        && forall j :: 0 <= j < i ==> ReadyBy(files, front[j], skipExisting, tempOf);
      assert batch[i] == front[i];
    } else {
      DispatchByOk(files, front, skipExisting, tempOf);
      assert forall j :: 0 <= j < n ==> batch[j] == front[j];
    }
  }

  /** The dispatch loop succeeds exactly when every pair of the batch has a
      file name (the temporary path is computed before the existence check,
      so even a pair that would be set aside raises) and every pair not set
      aside has a directory part. */
  lemma DispatchOk(files: set<Path>, batch: seq<Work>, skipExisting: bool)
    ensures Dispatch(files, batch, skipExisting).Ok? <==>
      forall i :: 0 <= i < |batch| ==> Ready(files, batch[i], skipExisting)
  {
    DispatchIsBy(files, batch, skipExisting);
    DispatchByOk(files, batch, skipExisting, TempPath);
  }

  /** When it succeeds, the dispatch loop spawns one job for each pair not set
      aside, in batch order. */
  lemma DispatchJobs(files: set<Path>, batch: seq<Work>, skipExisting: bool)
    requires Dispatch(files, batch, skipExisting).Ok?
    ensures var jobs, ps := Dispatch(files, batch, skipExisting).value, Pending(files, batch, skipExisting);
      |jobs| == |ps| && forall k :: 0 <= k < |jobs| ==> HasTemp(ps[k]) && jobs[k] == JobFor(ps[k])
  {
    DispatchIsBy(files, batch, skipExisting);
    DispatchByJobs(files, batch, skipExisting, TempPath);
    assert JobsMatch(Dispatch(files, batch, skipExisting).value, Pending(files, batch, skipExisting), TempPath);
  }

  /** When it raises, the dispatch loop names the first pair it cannot get
      past: one without a file name, or one not set aside without a
      directory part. */
  lemma DispatchError(files: set<Path>, batch: seq<Work>, skipExisting: bool)
    requires Dispatch(files, batch, skipExisting).Err?
    ensures exists i :: (0 <= i < |batch| && !Ready(files, batch[i], skipExisting)
      && Dispatch(files, batch, skipExisting).error ==
           (if HasTemp(batch[i]) then NoDirectory(batch[i].task.output) else NoFileName(batch[i].task.output))
      && forall j :: 0 <= j < i ==> Ready(files, batch[j], skipExisting))
  {
    DispatchIsBy(files, batch, skipExisting);
    DispatchByError(files, batch, skipExisting, TempPath);
  }

  /** Without resume mode, a batch whose pairs all have a file name and a
      directory part spawns one job per pair, in batch order. */
  lemma DispatchAll(files: set<Path>, batch: seq<Work>)
    requires forall i :: 0 <= i < |batch| ==> HasTemp(batch[i]) && HasDir(batch[i])
    ensures Dispatch(files, batch, false).Ok?
    ensures |Dispatch(files, batch, false).value| == |batch|
    ensures forall k :: 0 <= k < |batch| ==> Dispatch(files, batch, false).value[k] == JobFor(batch[k])
  {
    DispatchOk(files, batch, false);
    DispatchJobs(files, batch, false);
    PendingAll(files, batch);
  }

  /** Every job spawned for a batch belongs to a pair of the batch. */
  lemma JobsFromBatch(files: set<Path>, batch: seq<Work>, skipExisting: bool, k: nat)
    requires Dispatch(files, batch, skipExisting).Ok?
    requires k < |Dispatch(files, batch, skipExisting).value|
    ensures exists w :: (w in batch && HasTemp(w) && !SetAside(files, w, skipExisting)
      && Dispatch(files, batch, skipExisting).value[k] == JobFor(w))
  {
    DispatchJobs(files, batch, skipExisting);
    var ps := Pending(files, batch, skipExisting);
    assert ps[k] in batch && !SetAside(files, ps[k], skipExisting);
  }

  // --------------------------------------------------------------- reconcile

  /** Once an exception has been raised, reconciling further jobs changes nothing. */
  lemma {:induction false} ReconcileHalted(st: State, jobs: seq<Job>)
    requires st.halt.Some?
    ensures Reconcile(st, jobs) == st
    decreases |jobs|
  {
    if |jobs| > 0 {
      ReconcileHalted(st, jobs[..|jobs| - 1]);
    }
  }

  /** Reconciling two lists of jobs is reconciling the first, then the second. */
  lemma {:induction false} ReconcileAppend(st: State, a: seq<Job>, b: seq<Job>)
    ensures Reconcile(st, a + b) == Reconcile(Reconcile(st, a), b)
    decreases |b|
  {
    if |b| == 0 {
      assert a + b == a;
    } else {
      var n := |b| - 1;
      assert (a + b)[..|a + b| - 1] == a + b[..n];
      ReconcileAppend(st, a, b[..n]);
    }
  }

  /** Reconciling jobs that touch neither `p` as temporary file nor as output
      leaves `p` as it was. */
  lemma {:induction false} ReconcileOthers(st: State, jobs: seq<Job>, p: Path)
    requires forall k :: 0 <= k < |jobs| ==> jobs[k].temp != p && jobs[k].output != p
    ensures p in Reconcile(st, jobs).files <==> p in st.files
    decreases |jobs|
  {
    if |jobs| > 0 {
      ReconcileOthers(st, jobs[..|jobs| - 1], p);
    }
  }

  /** The effect of reconciling one job, as the source describes it: on a
      nonzero exit the temporary file is gone, the output as it was, and one
      more failure is counted; on exit 0 the temporary file has become the
      output and one more success is counted, or the rename raises because
      the process left no temporary file. No other file changes. */
  lemma JobEffects(st: State, job: Job)
    requires job.temp != job.output
    ensures var s := ReconcileJob(st, job);
      && (forall p :: p != job.temp && p != job.output ==> (p in s.files <==> p in st.files))
      && (job.exit.code != 0 ==>
            && s.halt.None? && job.temp !in s.files
            && (job.output in s.files <==> job.output in st.files)
            && s.failed == st.failed + 1 && s.succeeded == st.succeeded)
      && (job.exit.code == 0 && job.exit.leftTemp ==>
            && s.halt.None? && job.temp !in s.files && job.output in s.files
            && s.succeeded == st.succeeded + 1 && s.failed == st.failed)
      && (job.exit.code == 0 && !job.exit.leftTemp ==>
            s.halt == Some(TempMissing(job.temp)))
  {
  }

  /** Reconciling a batch counts each job once, as a success or a failure. */
  lemma {:induction false} ReconcileCounts(st: State, jobs: seq<Job>)
    requires st.halt.None? && Reconcile(st, jobs).halt.None?
    ensures Reconcile(st, jobs).succeeded + Reconcile(st, jobs).failed == st.succeeded + st.failed + |jobs|
    decreases |jobs|
  {
    if |jobs| > 0 {
      var n := |jobs| - 1;
      ReconcileSnoc(st, jobs);
      ReconcileCounts(st, jobs[..n]);
      JobCounts(Reconcile(st, jobs[..n]), jobs[n]);
    }
  }

  /** Reconciling a batch counts as failures exactly the jobs with a nonzero
      exit status. */
  lemma {:induction false} ReconcileFailures(st: State, jobs: seq<Job>)
    requires st.halt.None? && Reconcile(st, jobs).halt.None?
    ensures Reconcile(st, jobs).failed == st.failed + |FailedJobs(jobs)|
    decreases |jobs|
  {
    if |jobs| > 0 {
      var n := |jobs| - 1;
      ReconcileSnoc(st, jobs);
      ReconcileFailures(st, jobs[..n]);
      JobCounts(Reconcile(st, jobs[..n]), jobs[n]);
      FailedJobsSnoc(jobs);
    }
  }

  /** Reconciling a batch that raises nothing reconciles all but its last job
      without raising, then the last job. */
  lemma ReconcileSnoc(st: State, jobs: seq<Job>)
    requires |jobs| > 0 && Reconcile(st, jobs).halt.None?
    ensures Reconcile(st, jobs[..|jobs| - 1]).halt.None?
    ensures Reconcile(st, jobs) == ReconcileJob(Reconcile(st, jobs[..|jobs| - 1]), jobs[|jobs| - 1])
  {
  }

  /** Reconciling one job that raises nothing counts it once, as a failure
      exactly when its exit status is nonzero. */
  lemma JobCounts(st: State, job: Job)
    requires ReconcileJob(st, job).halt.None?
    ensures var s := ReconcileJob(st, job);
      && s.succeeded + s.failed == st.succeeded + st.failed + 1
      && s.failed == st.failed + (if job.exit.code != 0 then 1 else 0)
  {
  }

  /** The failed jobs of a batch are those of all but its last job, and the
      last one if it failed. */
  lemma FailedJobsSnoc(jobs: seq<Job>)
    requires |jobs| > 0
    ensures var n := |jobs| - 1;
      |FailedJobs(jobs)| == |FailedJobs(jobs[..n])| + (if jobs[n].exit.code != 0 then 1 else 0)
  {
    var n := |jobs| - 1;
    assert jobs == jobs[..n] + [jobs[n]];
    FilterAppend(jobs[..n], [jobs[n]], (j: Job) => j.exit.code != 0);
    assert [jobs[n]][1..] == [];
  }

  /** Reconciliation raises only on a successful job that left no temporary file. */
  lemma {:induction false} ReconcileNoHalt(st: State, jobs: seq<Job>)
    requires st.halt.None?
    requires forall k :: 0 <= k < |jobs| && jobs[k].exit.code == 0 ==> jobs[k].exit.leftTemp
    ensures Reconcile(st, jobs).halt.None?
    decreases |jobs|
  {
    if |jobs| > 0 {
      ReconcileNoHalt(st, jobs[..|jobs| - 1]);
    }
  }

  /** A job that touches neither `o` nor `t`. */
  predicate JobAvoids(job: Job, o: Path, t: Path)
  {
    job.output != o && job.output != t && job.temp != o && job.temp != t
  }

  /** The fate of the files of one job among others that touch neither its
      output nor its temporary file: unless an exception ends the batch, the
      temporary file is gone, and the output exists iff it existed before or
      the job succeeded. */
  lemma ReconcileSole(st: State, jobs: seq<Job>, k: nat)
    requires k < |jobs| && jobs[k].temp != jobs[k].output
    requires forall m :: 0 <= m < |jobs| && m != k ==> JobAvoids(jobs[m], jobs[k].output, jobs[k].temp)
    requires st.halt.None? && Reconcile(st, jobs).halt.None?
    ensures jobs[k].output in Reconcile(st, jobs).files <==> jobs[k].output in st.files || jobs[k].exit.code == 0
    ensures jobs[k].temp !in Reconcile(st, jobs).files
  {
    var job := jobs[k];
    var a, b := jobs[..k], jobs[k + 1..];
    assert jobs == (a + [job]) + b;
    ReconcileAppend(st, a + [job], b);
    ReconcileAppend(st, a, [job]);
    var s1 := Reconcile(st, a);
    var s2 := Reconcile(s1, [job]);
    if s1.halt.Some? {
      ReconcileHalted(s1, [job]);
      ReconcileHalted(s2, b);
    } else {
      assert s2 == ReconcileJob(s1, job);
      if s2.halt.Some? {
        ReconcileHalted(s2, b);
      } else {
        forall m | 0 <= m < |a|
          ensures JobAvoids(a[m], job.output, job.temp)
        {
          assert a[m] == jobs[m];
        }
        forall m | 0 <= m < |b|
          ensures JobAvoids(b[m], job.output, job.temp)
        {
          assert b[m] == jobs[k + 1 + m];
        }
        ReconcileOthers(st, a, job.output);
        ReconcileOthers(st, a, job.temp);
        ReconcileOthers(s2, b, job.output);
        ReconcileOthers(s2, b, job.temp);
      }
    }
  }

  /** Reconciliation raises at a successful job that left no temporary file,
      unless it raised before. */
  lemma ReconcileHaltsAt(st: State, jobs: seq<Job>, k: nat)
    requires k < |jobs| && jobs[k].exit.code == 0 && !jobs[k].exit.leftTemp
    ensures Reconcile(st, jobs).halt.Some?
  {
    assert jobs == jobs[..k + 1] + jobs[k + 1..];
    assert jobs[..k + 1][..k] == jobs[..k];
    ReconcileAppend(st, jobs[..k + 1], jobs[k + 1..]);
    ReconcileHalted(Reconcile(st, jobs[..k + 1]), jobs[k + 1..]);
  }

  // ----------------------------------------------------------------- batches

  /** Once an exception has been raised, no later batch runs. */
  lemma {:induction false} RunBatchesHalted(st: State, batches: seq<seq<Work>>, skipExisting: bool)
    requires st.halt.Some?
    ensures RunBatches(st, batches, skipExisting) == st
    decreases |batches|
  {
    if |batches| > 0 {
      RunBatchesHalted(st, batches[..|batches| - 1], skipExisting);
    }
  }

  /** Running two lists of batches is running the first, then the second. */
  lemma {:induction false} RunBatchesAppend(st: State, a: seq<seq<Work>>, b: seq<seq<Work>>, skipExisting: bool)
    ensures RunBatches(st, a + b, skipExisting) == RunBatches(RunBatches(st, a, skipExisting), b, skipExisting)
    decreases |b|
  {
    if |b| == 0 {
      assert a + b == a;
    } else {
      var n := |b| - 1;
      assert (a + b)[..|a + b| - 1] == a + b[..n];
      RunBatchesAppend(st, a, b[..n], skipExisting);
    }
  }

  /** A batch whose pairs do not touch `p` leaves `p` as it was. */
  lemma RunBatchOthers(st: State, batch: seq<Work>, skipExisting: bool, p: Path)
    requires forall x :: x in batch ==> !Touches(x, p)
    ensures p in RunBatch(st, batch, skipExisting).files <==> p in st.files
  {
    if Dispatch(st.files, batch, skipExisting).Ok? {
      var jobs := Dispatch(st.files, batch, skipExisting).value;
      var ps := Pending(st.files, batch, skipExisting);
      DispatchJobs(st.files, batch, skipExisting);
      forall k | 0 <= k < |jobs|
        ensures jobs[k].temp != p && jobs[k].output != p
      {
        assert ps[k] in batch;
      }
      ReconcileOthers(st, jobs, p);
    }
  }

  /** Batches whose pairs do not touch `p` leave `p` as it was. */
  lemma {:induction false} RunBatchesOthers(st: State, batches: seq<seq<Work>>, skipExisting: bool, p: Path)
    requires forall x :: x in Concat(batches) ==> !Touches(x, p)
    ensures p in RunBatches(st, batches, skipExisting).files <==> p in st.files
    decreases |batches|
  {
    if |batches| > 0 {
      var n := |batches| - 1;
      ConcatSnoc(batches);
      RunBatchesOthers(st, batches[..n], skipExisting, p);
      var s := RunBatches(st, batches[..n], skipExisting);
      if s.halt.None? {
        RunBatchOthers(s, batches[n], skipExisting, p);
      }
    }
  }

  /** A run changes only the outputs and temporary files of its pairs: every
      other path exists afterwards iff it existed before, whether or not the
      run ends with an exception. */
  lemma RunFrame(init: set<Path>, batchSize: int, work: seq<Work>, skipExisting: bool, p: Path)
    requires forall i :: 0 <= i < |work| ==> !Touches(work[i], p)
    ensures p in Run(init, batchSize, work, skipExisting).files <==> p in init
  {
    if batchSize >= 1 {
      RunBatchesOthers(State(init, 0, 0, None), Batched(work, batchSize), skipExisting, p);
    }
  }

  // ---------------------------------------------------------------- counting

  /** Jobs spawned for pairs fail exactly when their pairs do. */
  lemma {:induction false} FailedJobsCount(jobs: seq<Job>, ps: seq<Work>)
    requires |jobs| == |ps| && forall k :: 0 <= k < |jobs| ==> jobs[k].exit == ps[k].exit
    ensures |FailedJobs(jobs)| == |Failures(ps)|
  {
    if |jobs| > 0 {
      FailedJobsCount(jobs[1..], ps[1..]);
    }
  }

  /** A batch counts each pair it dispatches once, as a success or a
      failure, and counts as failures the dispatched pairs whose transcoder
      fails. */
  lemma RunBatchCounts(st: State, batch: seq<Work>, skipExisting: bool)
    requires st.halt.None? && RunBatch(st, batch, skipExisting).halt.None?
    ensures var s, ps := RunBatch(st, batch, skipExisting), Pending(st.files, batch, skipExisting);
      && s.succeeded + s.failed == st.succeeded + st.failed + |ps|
      && s.failed == st.failed + |Failures(ps)|
  {
    var jobs := Dispatch(st.files, batch, skipExisting).value;
    var ps := Pending(st.files, batch, skipExisting);
    DispatchJobs(st.files, batch, skipExisting);
    ReconcileCounts(st, jobs);
    ReconcileFailures(st, jobs);
    FailedJobsCount(jobs, ps);
  }

  /** Without resume mode every pair of a batch is dispatched. */
  lemma PendingAll(files: set<Path>, batch: seq<Work>)
    ensures Pending(files, batch, false) == batch
  {
    FilterKeepsAll(batch, (w: Work) => !SetAside(files, w, false));
  }

  /** Counting over the batches of a run that raised no exception: at most
      one count per pair and at most one failure per failing pair, and
      exactly that without resume mode. */
  lemma {:induction false} RunBatchesCounts(st: State, batches: seq<seq<Work>>, skipExisting: bool)
    requires st.halt.None? && RunBatches(st, batches, skipExisting).halt.None?
    ensures var s := RunBatches(st, batches, skipExisting);
      && s.succeeded + s.failed <= st.succeeded + st.failed + |Concat(batches)|
      && s.failed <= st.failed + |Failures(Concat(batches))|
      && (!skipExisting ==>
            (s.succeeded + s.failed == st.succeeded + st.failed + |Concat(batches)|
             && s.failed == st.failed + |Failures(Concat(batches))|))
    decreases |batches|
  {
    if |batches| > 0 {
      var n := |batches| - 1;
      var front, last := batches[..n], batches[n];
      var s := RunBatches(st, front, skipExisting);
      RunBatchesCounts(st, front, skipExisting);
      RunBatchCounts(s, last, skipExisting);
      ConcatSnoc(batches);
      FilterAppend(Concat(front), last, (w: Work) => w.exit.code != 0);
      var ps := Pending(s.files, last, skipExisting);
      FilterOfFilter(last, (w: Work) => !SetAside(s.files, w, skipExisting), (w: Work) => w.exit.code != 0);
      if !skipExisting {
        PendingAll(s.files, last);
      }
    }
  }

  /** No pair has a failing transcoder iff none is counted as a failure. */
  lemma NoFailures(work: seq<Work>)
    ensures |Failures(work)| == 0 <==> forall i :: 0 <= i < |work| ==> work[i].exit.code == 0
  {
    if exists i :: 0 <= i < |work| && work[i].exit.code != 0 {
      var i :| 0 <= i < |work| && work[i].exit.code != 0;
      assert work[i] in Failures(work);
    }
  }

  /** The counters of a run that raised no exception: each pair is counted at
      most once (exactly once without resume mode). `transcode` returns true
      when no transcoder of any pair failed; without resume mode it returns
      true exactly then. */
  lemma RunCounts(init: set<Path>, batchSize: int, work: seq<Work>, skipExisting: bool)
    requires Run(init, batchSize, work, skipExisting).halt.None?
    ensures var s := Run(init, batchSize, work, skipExisting);
      && s.succeeded + s.failed <= |work|
      && (!skipExisting ==> s.succeeded + s.failed == |work| && s.failed == |Failures(work)|)
    ensures (forall i :: 0 <= i < |work| ==> work[i].exit.code == 0) ==>
      VerdictOf(Run(init, batchSize, work, skipExisting)) == Finished(true)
    ensures !skipExisting ==>
      VerdictOf(Run(init, batchSize, work, skipExisting)) == Finished(forall i :: 0 <= i < |work| ==> work[i].exit.code == 0)
  {
    RunBatchesCounts(State(init, 0, 0, None), Batched(work, batchSize), skipExisting);
    NoFailures(work);
  }

  // ----------------------------------------------------------------- halting

  /** A pair that cannot make the run raise: its output has a file name and
      a directory part, and a successful transcoder leaves its temporary file. */
  predicate Completes(w: Work)
  {
    HasTemp(w) && HasDir(w) && (w.exit.code == 0 ==> w.exit.leftTemp)
  }

  /** A run whose pairs all complete raises no exception. */
  lemma {:induction false} RunBatchesNoHalt(st: State, batches: seq<seq<Work>>, skipExisting: bool)
    requires st.halt.None?
    requires forall x :: x in Concat(batches) ==> Completes(x)
    ensures RunBatches(st, batches, skipExisting).halt.None?
    decreases |batches|
  {
    if |batches| > 0 {
      var n := |batches| - 1;
      var front, last := batches[..n], batches[n];
      ConcatSnoc(batches);
      forall x | x in Concat(front)
        ensures Completes(x)
      {
        assert x in Concat(batches);
      }
      RunBatchesNoHalt(st, front, skipExisting);
      forall x | x in last
        ensures Completes(x)
      {
        assert x in Concat(batches);
      }
      RunBatchNoHalt(RunBatches(st, front, skipExisting), last, skipExisting);
    }
  }

  /** A batch whose pairs all complete raises no exception. */
  lemma RunBatchNoHalt(s: State, batch: seq<Work>, skipExisting: bool)
    requires s.halt.None?
    requires forall x :: x in batch ==> Completes(x)
    ensures RunBatch(s, batch, skipExisting).halt.None?
  {
    forall i | 0 <= i < |batch|
      ensures Ready(s.files, batch[i], skipExisting)
    {
      assert Completes(batch[i]);
    }
    DispatchOk(s.files, batch, skipExisting);
    DispatchJobs(s.files, batch, skipExisting);
    var jobs, ps := Dispatch(s.files, batch, skipExisting).value, Pending(s.files, batch, skipExisting);
    forall k | 0 <= k < |jobs| && jobs[k].exit.code == 0
      ensures jobs[k].exit.leftTemp
    {
      assert ps[k] in batch;
      assert Completes(ps[k]);
    }
    ReconcileNoHalt(s, jobs);
  }

  /** A pair without a file name makes the run raise. */
  lemma {:induction false} RunBatchesNameless(st: State, batches: seq<seq<Work>>, skipExisting: bool, x: Work)
    requires x in Concat(batches) && !HasTemp(x)
    ensures RunBatches(st, batches, skipExisting).halt.Some?
    decreases |batches|
  {
    var n := |batches| - 1;
    var front, last := batches[..n], batches[n];
    ConcatSnoc(batches);
    var s := RunBatches(st, front, skipExisting);
    if x in Concat(front) {
      RunBatchesNameless(st, front, skipExisting, x);
    } else if s.halt.None? {
      DispatchOk(s.files, last, skipExisting);
    }
  }

  /** Without resume mode, a pair whose output has no directory part makes
      the run raise. */
  lemma {:induction false} RunBatchesDirless(st: State, batches: seq<seq<Work>>, x: Work)
    requires x in Concat(batches) && !HasDir(x)
    ensures RunBatches(st, batches, false).halt.Some?
    decreases |batches|
  {
    var n := |batches| - 1;
    var front, last := batches[..n], batches[n];
    ConcatSnoc(batches);
    var s := RunBatches(st, front, false);
    if x in Concat(front) {
      RunBatchesDirless(st, front, x);
    } else if s.halt.None? {
      DispatchOk(s.files, last, false);
      var k :| 0 <= k < |last| && last[k] == x;
      assert !Ready(s.files, last[k], false);
    }
  }

  /** Without resume mode, a successful transcoder that leaves no temporary
      file makes the run raise. */
  lemma {:induction false} RunBatchesTempMissing(st: State, batches: seq<seq<Work>>, x: Work)
    requires x in Concat(batches) && x.exit.code == 0 && !x.exit.leftTemp
    ensures RunBatches(st, batches, false).halt.Some?
    decreases |batches|
  {
    var n := |batches| - 1;
    var front, last := batches[..n], batches[n];
    ConcatSnoc(batches);
    var s := RunBatches(st, front, false);
    if x in Concat(front) {
      RunBatchesTempMissing(st, front, x);
    } else if s.halt.None? && Dispatch(s.files, last, false).Ok? {
      DispatchJobs(s.files, last, false);
      PendingAll(s.files, last);
      var k :| 0 <= k < |last| && last[k] == x;
      ReconcileHaltsAt(s, Dispatch(s.files, last, false).value, k);
    }
  }

  /** When `transcode` returns instead of raising: only if the batch size is
      positive and every output has a file name; then always when every
      output has a directory part and every successful transcoder leaves its
      temporary file, and without resume mode only then. */
  lemma RunCompletes(init: set<Path>, batchSize: int, work: seq<Work>, skipExisting: bool)
    ensures (batchSize >= 1 && forall i :: 0 <= i < |work| ==>
               HasTemp(work[i]) && HasDir(work[i]) && (work[i].exit.code == 0 ==> work[i].exit.leftTemp))
            ==> Run(init, batchSize, work, skipExisting).halt.None?
    ensures Run(init, batchSize, work, skipExisting).halt.None? ==>
      batchSize >= 1 && forall i :: 0 <= i < |work| ==> HasTemp(work[i])
    ensures Run(init, batchSize, work, skipExisting).halt.None? && !skipExisting ==>
      forall i :: 0 <= i < |work| ==> HasDir(work[i]) && (work[i].exit.code == 0 ==> work[i].exit.leftTemp)
  {
    if batchSize >= 1 {
      if forall i :: 0 <= i < |work| ==> HasTemp(work[i]) && HasDir(work[i]) && (work[i].exit.code == 0 ==> work[i].exit.leftTemp) {
        RunAllComplete(init, batchSize, work, skipExisting);
      }
      forall i | 0 <= i < |work| && Run(init, batchSize, work, skipExisting).halt.None?
        ensures HasTemp(work[i])
        ensures !skipExisting ==> HasDir(work[i]) && (work[i].exit.code == 0 ==> work[i].exit.leftTemp)
      {
        PairCompleted(init, batchSize, work, skipExisting, i);
      }
    }
  }

  /** A run whose pairs all complete raises no exception. */
  lemma RunAllComplete(init: set<Path>, batchSize: int, work: seq<Work>, skipExisting: bool)
    requires batchSize >= 1 && forall i :: 0 <= i < |work| ==> Completes(work[i])
    ensures Run(init, batchSize, work, skipExisting).halt.None?
  {
    var batches := Batched(work, batchSize);
    forall x | x in Concat(batches)
      ensures Completes(x)
    {
      var k :| 0 <= k < |work| && work[k] == x;
    }
    RunBatchesNoHalt(State(init, 0, 0, None), batches, skipExisting);
  }

  /** A pair of a run that raised no exception has a file name and, without
      resume mode, a directory part and a temporary file if its transcoder
      succeeded. */
  lemma PairCompleted(init: set<Path>, batchSize: int, work: seq<Work>, skipExisting: bool, i: nat)
    requires batchSize >= 1 && i < |work| && Run(init, batchSize, work, skipExisting).halt.None?
    ensures HasTemp(work[i])
    ensures !skipExisting ==> HasDir(work[i]) && (work[i].exit.code == 0 ==> work[i].exit.leftTemp)
  {
    var st, batches := State(init, 0, 0, None), Batched(work, batchSize);
    if !HasTemp(work[i]) {
      RunBatchesNameless(st, batches, skipExisting, work[i]);
    }
    if !skipExisting && !HasDir(work[i]) {
      RunBatchesDirless(st, batches, work[i]);
    }
    if !skipExisting && work[i].exit.code == 0 && !work[i].exit.leftTemp {
      RunBatchesTempMissing(st, batches, work[i]);
    }
  }

  // -------------------------------------------------------- fate of one pair

  /** The pairs of a run do not interfere through the file system: every
      output has a file name, no two pairs share an output, and no temporary
      path is the output of a pair. */
  predicate Independent(work: seq<Work>)
  {
    && (forall i :: 0 <= i < |work| ==> HasTemp(work[i]))
    && (forall i, j :: 0 <= i < j < |work| ==> work[i].task.output != work[j].task.output)
    && (forall i, j {:trigger TempPath(work[i].task.output), work[j]} :: 0 <= i < |work| && 0 <= j < |work| ==> TempPath(work[i].task.output) != Ok(work[j].task.output))
  }

  /** Of independent pairs, one touches neither the output nor the temporary
      file of another. */
  lemma Apart(work: seq<Work>, i: int, j: int)
    requires Independent(work) && 0 <= i < |work| && 0 <= j < |work| && i != j
    ensures !Touches(work[j], work[i].task.output)
    ensures !Touches(work[j], TempPath(work[i].task.output).value)
  {
    var oi, oj := work[i].task.output, work[j].task.output;
    assert oi != oj;
    if TempPath(oj) == TempPath(oi) {
      TempPathInjective(oi, oj);
    }
  }

  /** Parts of independent pairs are independent. */
  lemma IndependentParts(a: seq<Work>, b: seq<Work>)
    requires Independent(a + b)
    ensures Independent(a) && Independent(b)
  {
    var c := a + b;
    IndependentSub(c, 0, |a|);
    IndependentSub(c, |a|, |c|);
    assert c[0..|a|] == a && c[|a|..|c|] == b;
  }

  /** A stretch of independent pairs is independent. */
  lemma IndependentSub(work: seq<Work>, lo: nat, hi: nat)
    requires Independent(work) && lo <= hi <= |work|
    ensures Independent(work[lo..hi])
  {
    var s := work[lo..hi];
    assert forall k :: 0 <= k < |s| ==> s[k] == work[lo + k];
  }

  /** The jobs a batch of independent pairs spawns for pairs other than
      `batch[i]` touch neither its output nor its temporary file. */
  lemma DispatchedOthers(files: set<Path>, batch: seq<Work>, skipExisting: bool, i: nat)
    requires Independent(batch) && i < |batch| && Dispatch(files, batch, skipExisting).Ok?
    ensures var jobs, ps := Dispatch(files, batch, skipExisting).value, Pending(files, batch, skipExisting);
      |jobs| == |ps| && forall m :: 0 <= m < |jobs| && ps[m] != batch[i] ==>
        JobAvoids(jobs[m], batch[i].task.output, TempPath(batch[i].task.output).value)
  {
    var jobs, ps := Dispatch(files, batch, skipExisting).value, Pending(files, batch, skipExisting);
    DispatchJobs(files, batch, skipExisting);
    forall m | 0 <= m < |jobs| && ps[m] != batch[i]
      ensures JobAvoids(jobs[m], batch[i].task.output, TempPath(batch[i].task.output).value)
    {
      var j :| 0 <= j < |batch| && batch[j] == ps[m];
      Apart(batch, i, j);
      AvoidsOther(ps[m], batch[i]);
    }
  }

  /** The job of a pair that touches neither the output nor the temporary
      file of `w` avoids both. */
  lemma AvoidsOther(x: Work, w: Work)
    requires HasTemp(x) && HasTemp(w)
    requires !Touches(x, w.task.output) && !Touches(x, TempPath(w.task.output).value)
    ensures JobAvoids(JobFor(x), w.task.output, TempPath(w.task.output).value)
  {
  }

  /** Unless an exception ends it, a batch has dispatched its pairs. */
  lemma RunBatchDispatched(st: State, batch: seq<Work>, skipExisting: bool)
    requires RunBatch(st, batch, skipExisting).halt.None?
    ensures Dispatch(st.files, batch, skipExisting).Ok?
    ensures RunBatch(st, batch, skipExisting) == Reconcile(st, Dispatch(st.files, batch, skipExisting).value)
  {
  }

  /** The fate of the files of one pair of a batch of independent pairs:
      unless an exception ends the batch, the output exists afterwards iff
      it existed before or the transcoder succeeded, and the temporary file
      exists afterwards iff the pair was set aside and it existed before. */
  lemma RunBatchSole(st: State, batch: seq<Work>, skipExisting: bool, i: nat)
    requires Independent(batch) && i < |batch|
    requires st.halt.None? && RunBatch(st, batch, skipExisting).halt.None?
    ensures var w, s := batch[i], RunBatch(st, batch, skipExisting);
      && (w.task.output in s.files <==> w.task.output in st.files || w.exit.code == 0)
      && (TempPath(w.task.output).value in s.files <==>
            SetAside(st.files, w, skipExisting) && TempPath(w.task.output).value in st.files)
  {
    var w := batch[i];
    var o, t := w.task.output, TempPath(w.task.output).value;
    RunBatchDispatched(st, batch, skipExisting);
    var jobs, ps := Dispatch(st.files, batch, skipExisting).value, Pending(st.files, batch, skipExisting);
    DispatchedOthers(st.files, batch, skipExisting, i);
    if SetAside(st.files, w, skipExisting) {
      forall m | 0 <= m < |jobs|
        ensures jobs[m].temp != o && jobs[m].output != o && jobs[m].temp != t && jobs[m].output != t
      {
        assert !SetAside(st.files, ps[m], skipExisting);
        assert JobAvoids(jobs[m], o, t);
      }
      ReconcileOthers(st, jobs, o);
      ReconcileOthers(st, jobs, t);
    } else {
      SoleJob(st, batch, skipExisting, i);
    }
  }

  /** A dispatched pair of a batch of independent pairs has exactly one job,
      and the other jobs touch neither its output nor its temporary file. */
  lemma SoleJobIndex(files: set<Path>, batch: seq<Work>, skipExisting: bool, i: nat) returns (k: nat)
    requires Independent(batch) && i < |batch| && !SetAside(files, batch[i], skipExisting)
    requires Dispatch(files, batch, skipExisting).Ok?
    ensures var jobs, o := Dispatch(files, batch, skipExisting).value, batch[i].task.output;
      && k < |jobs| && jobs[k].output == o && jobs[k].temp == TempPath(o).value
      && jobs[k].exit == batch[i].exit
      && forall m :: 0 <= m < |jobs| && m != k ==> JobAvoids(jobs[m], o, TempPath(o).value)
  {
    IndependentDistinct(batch);
    k := PendingIndex(files, batch, skipExisting, i);
    DispatchJobs(files, batch, skipExisting);
    DispatchedOthers(files, batch, skipExisting, i);
  }

  /** Independent pairs are pairwise different. */
  lemma IndependentDistinct(work: seq<Work>)
    requires Independent(work)
    ensures Distinct(work)
  {
    forall i, j | 0 <= i < j < |work|
      ensures work[i] != work[j]
    {
      assert work[i].task.output != work[j].task.output;
    }
  }

  /** A dispatched pair of a batch without repeated pairs sits at exactly one
      position of the dispatched pairs. */
  lemma PendingIndex(files: set<Path>, batch: seq<Work>, skipExisting: bool, i: nat) returns (k: nat)
    requires Distinct(batch) && i < |batch| && !SetAside(files, batch[i], skipExisting)
    ensures var ps := Pending(files, batch, skipExisting);
      k < |ps| && ps[k] == batch[i] && forall m :: 0 <= m < |ps| && m != k ==> ps[m] != batch[i]
  {
    var ps := Pending(files, batch, skipExisting);
    FilterPosition(batch, (x: Work) => !SetAside(files, x, skipExisting), i);
    k :| 0 <= k < |ps| && ps[k] == batch[i] && forall m :: 0 <= m < |ps| && m != k ==> ps[m] != batch[i];
  }

  /** The dispatched case of `RunBatchSole`. */
  lemma SoleJob(st: State, batch: seq<Work>, skipExisting: bool, i: nat)
    requires Independent(batch) && i < |batch| && !SetAside(st.files, batch[i], skipExisting)
    requires st.halt.None? && Dispatch(st.files, batch, skipExisting).Ok?
    requires Reconcile(st, Dispatch(st.files, batch, skipExisting).value).halt.None?
    ensures var w, s := batch[i], Reconcile(st, Dispatch(st.files, batch, skipExisting).value);
      && (w.task.output in s.files <==> w.task.output in st.files || w.exit.code == 0)
      && TempPath(w.task.output).value !in s.files
  {
    var jobs := Dispatch(st.files, batch, skipExisting).value;
    var k := SoleJobIndex(st.files, batch, skipExisting, i);
    ReconcileSole(st, jobs, k);
  }

  /** Pairs of an independent run outside a stretch that holds `work[i]`
      touch neither its output nor its temporary file. */
  lemma OthersAvoid(work: seq<Work>, i: nat, lo: nat, hi: nat)
    requires Independent(work) && i < |work| && lo <= hi <= |work| && !(lo <= i < hi)
    ensures forall x :: x in work[lo..hi] ==>
      !Touches(x, work[i].task.output) && !Touches(x, TempPath(work[i].task.output).value)
  {
    OthersApart(work, i, lo, hi);
    SliceAvoids(work, lo, hi, work[i].task.output, TempPath(work[i].task.output).value);
  }

  /** `OthersAvoid` position by position. */
  lemma OthersApart(work: seq<Work>, i: nat, lo: nat, hi: nat)
    requires Independent(work) && i < |work| && lo <= hi <= |work| && !(lo <= i < hi)
    ensures forall j :: lo <= j < hi ==>
      !Touches(work[j], work[i].task.output) && !Touches(work[j], TempPath(work[i].task.output).value)
  {
    forall j | lo <= j < hi
      ensures !Touches(work[j], work[i].task.output) && !Touches(work[j], TempPath(work[i].task.output).value)
    {
      Apart(work, i, j);
    }
  }

  /** What holds at every position of a slice holds of its every member. */
  lemma SliceAvoids(work: seq<Work>, lo: nat, hi: nat, o: Path, t: Path)
    requires lo <= hi <= |work|
    requires forall j :: lo <= j < hi ==> !Touches(work[j], o) && !Touches(work[j], t)
    ensures forall x :: x in work[lo..hi] ==> !Touches(x, o) && !Touches(x, t)
  {
    forall x | x in work[lo..hi]
      ensures !Touches(x, o) && !Touches(x, t)
    {
      var k :| 0 <= k < hi - lo && work[lo..hi][k] == x;
      assert work[lo + k] == x;
    }
  }

  /** The batches before the one holding `Concat(batches)[i]` leave its
      output and temporary file as they were. */
  lemma FrontKeeps(st: State, batches: seq<seq<Work>>, skipExisting: bool, i: nat)
    requires |batches| > 0 && Independent(Concat(batches))
    requires |Concat(batches[..|batches| - 1])| <= i < |Concat(batches)|
    ensures var c, s := Concat(batches), RunBatches(st, batches[..|batches| - 1], skipExisting);
      && (c[i].task.output in s.files <==> c[i].task.output in st.files)
      && (TempPath(c[i].task.output).value in s.files <==> TempPath(c[i].task.output).value in st.files)
  {
    var n := |batches| - 1;
    var c, cf := Concat(batches), Concat(batches[..n]);
    ConcatSnoc(batches);
    assert c[0..|cf|] == cf;
    OthersAvoid(c, i, 0, |cf|);
    RunBatchesOthers(st, batches[..n], skipExisting, c[i].task.output);
    RunBatchesOthers(st, batches[..n], skipExisting, TempPath(c[i].task.output).value);
  }

  /** The last batch leaves the output and temporary file of a pair of an
      earlier batch as they were. */
  lemma LastKeeps(s: State, batches: seq<seq<Work>>, skipExisting: bool, i: nat)
    requires |batches| > 0 && Independent(Concat(batches))
    requires i < |Concat(batches[..|batches| - 1])| && i < |Concat(batches)|
    ensures var c, r := Concat(batches), RunBatch(s, batches[|batches| - 1], skipExisting);
      && (c[i].task.output in r.files <==> c[i].task.output in s.files)
      && (TempPath(c[i].task.output).value in r.files <==> TempPath(c[i].task.output).value in s.files)
  {
    var n := |batches| - 1;
    var c, cf := Concat(batches), Concat(batches[..n]);
    ConcatSnoc(batches);
    assert c[|cf|..|c|] == batches[n];
    OthersAvoid(c, i, |cf|, |c|);
    RunBatchOthers(s, batches[n], skipExisting, c[i].task.output);
    RunBatchOthers(s, batches[n], skipExisting, TempPath(c[i].task.output).value);
  }

  /** The same fate across the batches of a run of independent pairs. */
  lemma {:induction false} RunBatchesFate(st: State, batches: seq<seq<Work>>, skipExisting: bool, i: nat)
    requires Independent(Concat(batches)) && i < |Concat(batches)|
    requires st.halt.None? && RunBatches(st, batches, skipExisting).halt.None?
    ensures var w, s := Concat(batches)[i], RunBatches(st, batches, skipExisting);
      && (w.task.output in s.files <==> w.task.output in st.files || w.exit.code == 0)
      && (TempPath(w.task.output).value in s.files <==>
            SetAside(st.files, w, skipExisting) && TempPath(w.task.output).value in st.files)
    decreases |batches|
  {
    var n := |batches| - 1;
    var front, last := batches[..n], batches[n];
    var c, cf := Concat(batches), Concat(front);
    ConcatSnoc(batches);
    var s := RunBatches(st, front, skipExisting);
    if i < |cf| {
      IndependentParts(cf, last);
      assert c[i] == cf[i];
      RunBatchesFate(st, front, skipExisting, i);
      LastKeeps(s, batches, skipExisting, i);
    } else {
      FateInLast(st, batches, skipExisting, i);
    }
  }

  /** The case of `RunBatchesFate` where the pair is in the last batch. */
  lemma FateInLast(st: State, batches: seq<seq<Work>>, skipExisting: bool, i: nat)
    requires |batches| > 0 && Independent(Concat(batches))
    requires |Concat(batches[..|batches| - 1])| <= i < |Concat(batches)|
    requires st.halt.None? && RunBatches(st, batches, skipExisting).halt.None?
    ensures var w, s := Concat(batches)[i], RunBatches(st, batches, skipExisting);
      && (w.task.output in s.files <==> w.task.output in st.files || w.exit.code == 0)
      && (TempPath(w.task.output).value in s.files <==>
            SetAside(st.files, w, skipExisting) && TempPath(w.task.output).value in st.files)
  {
    var n := |batches| - 1;
    var front, last := batches[..n], batches[n];
    var c, cf := Concat(batches), Concat(front);
    ConcatSnoc(batches);
    IndependentParts(cf, last);
    assert c[i] == last[i - |cf|];
    FrontKeeps(st, batches, skipExisting, i);
    RunBatchSole(RunBatches(st, front, skipExisting), last, skipExisting, i - |cf|);
  }

  /** What a run of independent pairs that raised no exception does to each
      pair's files: the output exists afterwards iff it existed before or
      the transcoder succeeded (a failure never deletes an output), and no
      temporary file is left behind except one that already existed beside
      an output that resume mode set aside. */
  lemma TaskFate(init: set<Path>, batchSize: int, work: seq<Work>, skipExisting: bool, i: nat)
    requires Independent(work) && i < |work|
    requires Run(init, batchSize, work, skipExisting).halt.None?
    ensures var w, fin := work[i], Run(init, batchSize, work, skipExisting).files;
      && (w.task.output in fin <==> w.task.output in init || w.exit.code == 0)
      && (TempPath(w.task.output).value in fin <==>
            skipExisting && w.task.output in init && TempPath(w.task.output).value in init)
  {
    RunBatchesFate(State(init, 0, 0, None), Batched(work, batchSize), skipExisting, i);
  }

  // ------------------------------------------------------------------ resume

  /** Resume mode over batches whose outputs all exist: every pair is set
      aside, nothing is spawned, and nothing changes. */
  lemma {:induction false} RunBatchesIdle(st: State, batches: seq<seq<Work>>)
    requires st.halt.None?
    requires forall x :: x in Concat(batches) ==> HasTemp(x) && x.task.output in st.files
    ensures RunBatches(st, batches, true) == st
    decreases |batches|
  {
    if |batches| > 0 {
      var n := |batches| - 1;
      var last := batches[n];
      ConcatSnoc(batches);
      RunBatchesIdle(st, batches[..n]);
      DispatchOk(st.files, last, true);
      DispatchJobs(st.files, last, true);
      FilterDropsAll(last, (w: Work) => !SetAside(st.files, w, true));
    }
  }

  /** A run in resume mode over pairs whose outputs all exist counts nothing,
      changes nothing and returns true. */
  lemma RerunIdle(files: set<Path>, batchSize: int, work: seq<Work>)
    requires batchSize >= 1
    requires forall i :: 0 <= i < |work| ==> HasTemp(work[i]) && work[i].task.output in files
    ensures Run(files, batchSize, work, true) == State(files, 0, 0, None)
    ensures VerdictOf(Run(files, batchSize, work, true)) == Finished(true)
  {
    RunBatchesIdle(State(files, 0, 0, None), Batched(work, batchSize));
  }

  /** The pairs without their transcoder outcomes. */
  function TasksOf(work: seq<Work>): (tasks: seq<Task>)
    ensures |tasks| == |work| && forall i :: 0 <= i < |work| ==> tasks[i] == work[i].task
  {
    seq(|work|, i requires 0 <= i < |work| => work[i].task)
  }

  /** After a run of independent pairs whose transcoders all succeed, every
      output exists; the next invocation in resume mode then finds nothing
      to do, and a run in resume mode over the same pairs, whatever their
      transcoders would do, leaves everything as it is. */
  lemma ResumeAfterSuccess(init: set<Path>, batchSize: int, work: seq<Work>, skipExisting: bool, again: seq<Work>)
    requires Independent(work) && Run(init, batchSize, work, skipExisting).halt.None?
    requires forall i :: 0 <= i < |work| ==> work[i].exit.code == 0
    requires |again| == |work| && forall i :: 0 <= i < |again| ==> again[i].task == work[i].task
    ensures var fin := Run(init, batchSize, work, skipExisting).files;
      && (forall i :: 0 <= i < |work| ==> work[i].task.output in fin)
      && FilterExisting(TasksOf(work), fin) == []
      && Run(fin, batchSize, again, true) == State(fin, 0, 0, None)
  {
    var fin := Run(init, batchSize, work, skipExisting).files;
    forall i | 0 <= i < |work|
      ensures work[i].task.output in fin
    {
      TaskFate(init, batchSize, work, skipExisting, i);
    }
    var tasks := TasksOf(work);
    forall t | t in tasks
      ensures !(t.output !in fin)
    {
      var i :| 0 <= i < |tasks| && tasks[i] == t;
    }
    FilterDropsAll(tasks, (t: Task) => t.output !in fin);
    RerunIdle(fin, batchSize, again);
  }

  // ------------------------------------------------------------ interference

  /** The temporary path of one output can be another output: in one
      directory, the temporary path of `clip.mp4` is `clip.tmp.mp4`, the
      output of an input named `clip.tmp.mp4`, whose own temporary path is
      `clip.tmp.tmp.mp4`. */
  lemma TempCollision(dir: Path, stem: string, suffix: string)
    requires |stem| >= 1 && |suffix| >= 2 && suffix[0] == '.' && NoDot(suffix[1..])
    ensures TempPath(dir + [stem + suffix]) == Ok(dir + [stem + ".tmp" + suffix])
    ensures TempPath(dir + [stem + ".tmp" + suffix]) == Ok(dir + [stem + ".tmp" + ".tmp" + suffix])
  {
    TempNameWithSuffix(stem, suffix);
    TempPathOfName(dir, stem + suffix);
    TempNameWithSuffix(stem + ".tmp", suffix);
    TempPathOfName(dir, stem + ".tmp" + suffix);
  }

  /** Reconciling two successful jobs where the second one's temporary file
      is the first one's output: both count as successes, and the second
      rename replaces the first output by the second. */
  lemma CollisionReconcile(oa: Path, ob: Path, ta: Path, inA: Path, inB: Path)
    requires ta != oa && oa != ob
    ensures Reconcile(State({}, 0, 0, None), [Job(inA, oa, ta, Exit(0, true)), Job(inB, ob, oa, Exit(0, true))])
      == State({ob}, 2, 0, None)
  {
    var ja, jb := Job(inA, oa, ta, Exit(0, true)), Job(inB, ob, oa, Exit(0, true));
    var st := State({}, 0, 0, None);
    assert [ja, jb][..1] == [ja];
    assert [ja][..0] == [];
    assert Reconcile(st, [ja]) == State({oa}, 1, 0, None);
  }

  /** A run whose pairs fit in one batch dispatches and reconciles that batch. */
  lemma RunOneBatch(init: set<Path>, batchSize: int, batch: seq<Work>)
    requires 1 <= |batch| <= batchSize && Dispatch(init, batch, false).Ok?
    ensures Run(init, batchSize, batch, false) == Reconcile(State(init, 0, 0, None), Dispatch(init, batch, false).value)
  {
    var st := State(init, 0, 0, None);
    assert Batched(batch, batchSize) == [batch];
    assert [batch][..0] == [];
    assert RunBatches(st, [batch], false) == RunBatch(st, batch, false);
  }

  /** A run of two pairs with file names and directory parts in one batch of
      two, without resume mode, reconciles their two jobs in order. */
  lemma RunOfTwo(init: set<Path>, a: Work, b: Work)
    requires HasTemp(a) && HasTemp(b) && HasDir(a) && HasDir(b)
    ensures Run(init, 2, [a, b], false) == Reconcile(State(init, 0, 0, None), [JobFor(a), JobFor(b)])
  {
    RunTwo(init, [a, b]);
  }

  /** `RunOfTwo` for a batch of two. */
  lemma RunTwo(init: set<Path>, batch: seq<Work>)
    requires |batch| == 2 && HasTemp(batch[0]) && HasTemp(batch[1]) && HasDir(batch[0]) && HasDir(batch[1])
    ensures Run(init, 2, batch, false) == Reconcile(State(init, 0, 0, None), [JobFor(batch[0]), JobFor(batch[1])])
  {
    TwoJobs(init, batch);
    RunOneBatch(init, 2, batch);
  }

  /** Dispatching a batch of two such pairs spawns their two jobs in order. */
  lemma TwoJobs(init: set<Path>, batch: seq<Work>)
    requires |batch| == 2 && HasTemp(batch[0]) && HasTemp(batch[1]) && HasDir(batch[0]) && HasDir(batch[1])
    ensures Dispatch(init, batch, false) == Ok([JobFor(batch[0]), JobFor(batch[1])])
  {
    BothReady(batch);
    DispatchAllJobs(init, batch);
    PairOf(JobsFor(batch), JobFor(batch[0]), JobFor(batch[1]));
  }

  /** What holds of both pairs of a batch of two holds of each of its pairs. */
  lemma BothReady(batch: seq<Work>)
    requires |batch| == 2 && HasTemp(batch[0]) && HasTemp(batch[1]) && HasDir(batch[0]) && HasDir(batch[1])
    ensures forall i :: 0 <= i < |batch| ==> HasTemp(batch[i]) && HasDir(batch[i])
  {
    forall i | 0 <= i < |batch|
      ensures HasTemp(batch[i]) && HasDir(batch[i])
    {
      assert i == 0 || i == 1;
    }
  }

  /** The jobs of pairs that all have a file name, in their order. */
  function JobsFor(batch: seq<Work>): (r: seq<Job>)
    requires forall i :: 0 <= i < |batch| ==> HasTemp(batch[i])
    ensures |r| == |batch| && forall k :: 0 <= k < |batch| ==> r[k] == JobFor(batch[k])
  {
    seq(|batch|, k requires 0 <= k < |batch| => JobFor(batch[k]))
  }

  /** `DispatchAll` as one sequence of jobs. */
  lemma DispatchAllJobs(files: set<Path>, batch: seq<Work>)
    requires forall i :: 0 <= i < |batch| ==> HasTemp(batch[i]) && HasDir(batch[i])
    ensures Dispatch(files, batch, false) == Ok(JobsFor(batch))
  {
    DispatchAll(files, batch);
    SameElements(Dispatch(files, batch, false).value, JobsFor(batch));
  }

  /** Sequences of one length that agree at every index are equal. */
  lemma SameElements<T>(s: seq<T>, t: seq<T>)
    requires |s| == |t| && forall k :: 0 <= k < |s| ==> s[k] == t[k]
    ensures s == t
  {
  }

  /** A sequence of two elements is the pair of them. */
  lemma PairOf<T>(s: seq<T>, x: T, y: T)
    requires |s| == 2 && s[0] == x && s[1] == y
    ensures s == [x, y]
  {
  }

  /** Without independence a successful pair can lose its output: when the
      temporary path of a later pair `b` of a batch is the output of an
      earlier pair `a` (as `TempCollision` shows for `clip.mp4` and
      `clip.tmp.mp4`), renaming `b`'s temporary file replaces the output
      just produced for `a`, although both transcoders succeeded. */
  lemma CollisionLosesOutput(a: Work, b: Work)
    requires HasTemp(a) && HasDir(a) && TempPath(b.task.output) == Ok(a.task.output)
    requires a.exit == Exit(0, true) && b.exit == Exit(0, true)
    ensures var fin := Run({}, 2, [a, b], false);
      && fin.halt.None? && fin.succeeded == 2 && fin.failed == 0
      && b.task.output in fin.files && a.task.output !in fin.files
  {
    RunOfTwo({}, a, b);
    CollisionReconcile(a.task.output, b.task.output, TempPath(a.task.output).value, a.task.input, b.task.input);
  }
}
