/** The batch scheduler of the converter (`transcode`): cut the pairs into
    batches, dispatch one transcoder process per pair of a batch, then reconcile
    the processes in spawn order, renaming the temporary file onto the output on
    success and deleting it on failure, and count successes and failures.

    The transcoder processes are not run: each pair comes with the exit status
    its process reports and whether it leaves a file at its temporary path.
    The file system is the set of regular files that exist. */
module Scheduler {
  import opened Results
  import opened Paths
  import opened Batching

  /** What the external transcoder does for one pair: the exit status
      `communicate()` reports, and whether a file sits at the temporary path
      once it has exited. */
  datatype Exit = Exit(code: int, leftTemp: bool)

  /** A pair from the pipeline together with the exit of its transcoder. */
  datatype Work = Work(task: Task, exit: Exit)

  /** One entry of the `jobs` list: `(input_file, output_file, output_file_tmp, subproc)`. */
  datatype Job = Job(input: Path, output: Path, temp: Path, exit: Exit)

  /** Why a run stops with an exception instead of returning a verdict. */
  datatype Halt =
    | BatchSizeTooSmall       // itertools.batched: n must be at least one
    | NoFileName(path: Path)  // with_suffix on an output path without a name
    | NoDirectory(path: Path) // makedirs('') for an output without a directory part
    | TempMissing(temp: Path) // os.rename of a temporary file that is not there

  /** The run's state between steps: the files that exist, the two counters,
      and the exception that ended the run, if any. */
  datatype State = State(files: set<Path>, succeeded: nat, failed: nat, halt: Option<Halt>)

  /** `transcode`'s outcome: its boolean result, or the exception it raised. */
  datatype Verdict = Finished(allSucceeded: bool) | Aborted(reason: Halt)

  /** The regular files of the output tree, changed by the scheduler and by the
      transcoder processes. */
  class FileSystem {
    var files: set<Path>

    constructor (files: set<Path>)
      ensures this.files == files
    {
      this.files := files;
    }

    /** `path.exists` */
    function Exists(p: Path): bool
      reads this
    {
      p in files
    }

    /** `os.remove` of an existing file. */
    method Remove(p: Path)
      requires p in files
      modifies this
      ensures files == old(files) - {p}
    {
      files := files - {p};
    }

    /** `os.rename`: replaces `dst`; fails, changing nothing, when `src` is missing. */
    method Rename(src: Path, dst: Path) returns (ok: bool)
      modifies this
      ensures ok == (src in old(files))
      ensures files == if ok then old(files) - {src} + {dst} else old(files)
    {
      ok := src in files;
      if ok {
        files := files - {src} + {dst};
      }
    }

    /** A transcoder process has exited, leaving a file at `temp` or not. */
    method ProcessExited(temp: Path, leftTemp: bool)
      modifies this
      ensures files == if leftTemp then old(files) + {temp} else old(files) - {temp}
    {
      files := if leftTemp then files + {temp} else files - {temp};
    }
  }

  /** In resume mode a pair whose output exists is set aside at dispatch. */
  predicate SetAside(files: set<Path>, w: Work, skipExisting: bool)
  {
    skipExisting && w.task.output in files
  }

  /** The dispatch loop over one batch: the jobs spawned, in order, or the
      exception that stops it. The temporary path is computed before the
      existence check, so a pair without a file name fails even when it would
      be set aside. A pair that is not set aside then has its output's
      directory made: `path.dirname` of an output with no directory part is
      "", and `makedirs("")` raises. */
  function Dispatch(files: set<Path>, batch: seq<Work>, skipExisting: bool): Result<seq<Job>, Halt>
  {
    if |batch| == 0 then Ok([])
    else match Dispatch(files, batch[..|batch| - 1], skipExisting)
      case Err(h) => Err(h)
      case Ok(jobs) =>
        var w := batch[|batch| - 1];
        match TempPath(w.task.output)
        case Err(_) => Err(NoFileName(w.task.output))
        case Ok(temp) =>
          if SetAside(files, w, skipExisting) then Ok(jobs)
          else if |w.task.output| < 2 then Err(NoDirectory(w.task.output))
          else Ok(jobs + [Job(w.task.input, w.task.output, temp, w.exit)])
  }

  /** Reconciling one job: wait for its process, then count it and either
      delete its temporary file (failure) or rename it onto the output
      (success). */
  function ReconcileJob(st: State, job: Job): State
  {
    var files := if job.exit.leftTemp then st.files + {job.temp} else st.files - {job.temp};
    if job.exit.code != 0 then
      State(files - {job.temp}, st.succeeded, st.failed + 1, None)
    else if job.temp in files then
      State(files - {job.temp} + {job.output}, st.succeeded + 1, st.failed, None)
    else
      State(files, st.succeeded + 1, st.failed, Some(TempMissing(job.temp)))
  }

  /** The reconcile loop over a batch's jobs, in spawn order. */
  function Reconcile(st: State, jobs: seq<Job>): State
  {
    if |jobs| == 0 then st
    else
      var s := Reconcile(st, jobs[..|jobs| - 1]);
      if s.halt.Some? then s else ReconcileJob(s, jobs[|jobs| - 1])
  }

  /** One batch: dispatch against the files as they are when the batch starts,
      then reconcile. */
  function RunBatch(st: State, batch: seq<Work>, skipExisting: bool): State
  {
    match Dispatch(st.files, batch, skipExisting)
    case Err(h) => st.(halt := Some(h))
    case Ok(jobs) => Reconcile(st, jobs)
  }

  /** The batches in order; an exception ends the run. */
  function RunBatches(st: State, batches: seq<seq<Work>>, skipExisting: bool): State
  {
    if |batches| == 0 then st
    else
      var s := RunBatches(st, batches[..|batches| - 1], skipExisting);
      if s.halt.Some? then s else RunBatch(s, batches[|batches| - 1], skipExisting)
  }

  /** A whole run of `transcode` from the files `init`. */
  function Run(init: set<Path>, batchSize: int, work: seq<Work>, skipExisting: bool): State
  {
    if batchSize < 1 then State(init, 0, 0, Some(BatchSizeTooSmall))
    else RunBatches(State(init, 0, 0, None), Batched(work, batchSize), skipExisting)
  }

  /** What `transcode` returns after a run: false iff some job failed. */
  function VerdictOf(st: State): Verdict
  {
    if st.halt.Some? then Aborted(st.halt.value) else Finished(st.failed == 0)
  }

  /** Once the dispatch loop has raised, the batch's dispatch ends with that
      exception. */
  lemma {:induction false} DispatchStops(files: set<Path>, batch: seq<Work>, skipExisting: bool, i: nat)
    requires i <= |batch| && Dispatch(files, batch[..i], skipExisting).Err?
    ensures Dispatch(files, batch, skipExisting) == Dispatch(files, batch[..i], skipExisting)
    decreases |batch|
  {
    if i < |batch| {
      var front := batch[..|batch| - 1];
      assert front[..i] == batch[..i];
      DispatchStops(files, front, skipExisting, i);
    } else {
      assert batch[..i] == batch;
    }
  }

  /** Once a reconciliation has raised, the rest of the batch is not reconciled. */
  lemma {:induction false} ReconcileStops(st: State, jobs: seq<Job>, k: nat)
    requires k <= |jobs| && Reconcile(st, jobs[..k]).halt.Some?
    ensures Reconcile(st, jobs) == Reconcile(st, jobs[..k])
    decreases |jobs|
  {
    if k < |jobs| {
      var front := jobs[..|jobs| - 1];
      assert front[..k] == jobs[..k];
      ReconcileStops(st, front, k);
    } else {
      assert jobs[..k] == jobs;
    }
  }

  /** Once a batch has raised, no later batch runs. */
  lemma {:induction false} RunBatchesStops(st: State, batches: seq<seq<Work>>, skipExisting: bool, k: nat)
    requires k <= |batches| && RunBatches(st, batches[..k], skipExisting).halt.Some?
    ensures RunBatches(st, batches, skipExisting) == RunBatches(st, batches[..k], skipExisting)
    decreases |batches|
  {
    if k < |batches| {
      var front := batches[..|batches| - 1];
      assert front[..k] == batches[..k];
      RunBatchesStops(st, front, skipExisting, k);
    } else {
      assert batches[..k] == batches;
    }
  }

  /** Running one more batch after a prefix of the batches that raised nothing. */
  lemma RunBatchesSnoc(st: State, batches: seq<seq<Work>>, skipExisting: bool, k: nat)
    requires k < |batches| && RunBatches(st, batches[..k], skipExisting).halt.None?
    ensures RunBatches(st, batches[..k + 1], skipExisting)
      == RunBatch(RunBatches(st, batches[..k], skipExisting), batches[k], skipExisting)
  {
    assert batches[..k + 1][..k] == batches[..k];
  }

  /** Dispatching one more pair after a prefix of the batch that raised nothing. */
  lemma DispatchSnoc(files: set<Path>, batch: seq<Work>, skipExisting: bool, i: nat)
    requires i < |batch| && Dispatch(files, batch[..i], skipExisting).Ok?
    ensures var w, jobs := batch[i], Dispatch(files, batch[..i], skipExisting).value;
      Dispatch(files, batch[..i + 1], skipExisting) ==
        if TempPath(w.task.output).Err? then Err(NoFileName(w.task.output))
        else if SetAside(files, w, skipExisting) then Ok(jobs)
        else if |w.task.output| < 2 then Err(NoDirectory(w.task.output))
        else Ok(jobs + [Job(w.task.input, w.task.output, TempPath(w.task.output).value, w.exit)])
  {
    assert batch[..i + 1][..i] == batch[..i];
  }

  /** The spawn loop of `transcode` for one batch: one job per pair, in order,
      except the pairs set aside in resume mode. Spawning changes no file the
      model tracks; the processes' effects are applied when they are waited for. */
  method SpawnBatch(fs: FileSystem, batch: seq<Work>, skipExisting: bool) returns (r: Result<seq<Job>, Halt>)
    ensures r == Dispatch(fs.files, batch, skipExisting)
  {
    var jobs: seq<Job> := [];
    var i := 0;
    while i < |batch|
      invariant 0 <= i <= |batch|
      invariant Dispatch(fs.files, batch[..i], skipExisting) == Ok(jobs)
    {
      var w := batch[i];
      DispatchSnoc(fs.files, batch, skipExisting, i);
      var temp := TempPath(w.task.output);
      if temp.Err? {
        DispatchStops(fs.files, batch, skipExisting, i + 1);
        return Err(NoFileName(w.task.output));
      }
      if !(fs.Exists(w.task.output) && skipExisting) {
        if |w.task.output| < 2 {
          DispatchStops(fs.files, batch, skipExisting, i + 1);
          return Err(NoDirectory(w.task.output));
        }
        jobs := jobs + [Job(w.task.input, w.task.output, temp.value, w.exit)];
      }
      i := i + 1;
    }
    assert batch[..i] == batch;
    return Ok(jobs);
  }

  /** The reconcile loop of `transcode` for one batch: wait for each job in
      spawn order; on a nonzero exit count a failure and delete the temporary
      file if it exists, on exit 0 count a success and rename the temporary
      file onto the output. */
  method ReconcileBatch(fs: FileSystem, jobs: seq<Job>, succeeded0: nat, failed0: nat)
    returns (succeeded: nat, failed: nat, halt: Option<Halt>)
    modifies fs
    ensures Reconcile(State(old(fs.files), succeeded0, failed0, None), jobs) == State(fs.files, succeeded, failed, halt)
  {
    ghost var start := State(fs.files, succeeded0, failed0, None);
    succeeded, failed := succeeded0, failed0;
    var k := 0;
    while k < |jobs|
      invariant 0 <= k <= |jobs|
      invariant Reconcile(start, jobs[..k]) == State(fs.files, succeeded, failed, None)
    {
      var job := jobs[k];
      assert jobs[..k + 1][..k] == jobs[..k];
      fs.ProcessExited(job.temp, job.exit.leftTemp);
      if job.exit.code != 0 {
        failed := failed + 1;
        if fs.Exists(job.temp) {
          fs.Remove(job.temp);
        }
      } else {
        succeeded := succeeded + 1;
        var renamed := fs.Rename(job.temp, job.output);
        if !renamed {
          ReconcileStops(start, jobs, k + 1);
          return succeeded, failed, Some(TempMissing(job.temp));
        }
      }
      k := k + 1;
    }
    assert jobs[..k] == jobs;
    halt := None;
  }

  /** One iteration of `transcode`'s batch loop: spawn the batch in full,
      then reconcile its jobs. The files and counters end as the batch
      specifies, with the exception that ends the run, if any. */
  method TranscodeBatch(fs: FileSystem, batch: seq<Work>, skipExisting: bool, succeeded0: nat, failed0: nat)
    returns (succeeded: nat, failed: nat, halt: Option<Halt>)
    modifies fs
    ensures RunBatch(State(old(fs.files), succeeded0, failed0, None), batch, skipExisting)
      == State(fs.files, succeeded, failed, halt)
  {
    var spawned := SpawnBatch(fs, batch, skipExisting);
    if spawned.Err? {
      return succeeded0, failed0, Some(spawned.error);
    }
    succeeded, failed, halt := ReconcileBatch(fs, spawned.value, succeeded0, failed0);
  }

  /** `transcode`'s batch loop: the batches one after the other, each spawned
      in full and then reconciled, until an exception ends the run. */
  method TranscodeBatches(fs: FileSystem, batches: seq<seq<Work>>, skipExisting: bool)
    returns (succeeded: nat, failed: nat, halt: Option<Halt>)
    modifies fs
    ensures RunBatches(State(old(fs.files), 0, 0, None), batches, skipExisting)
      == State(fs.files, succeeded, failed, halt)
  {
    succeeded, failed := 0, 0;
    ghost var init := State(fs.files, 0, 0, None);
    var batchN := 0;
    while batchN < |batches|
      invariant 0 <= batchN <= |batches|
      invariant RunBatches(init, batches[..batchN], skipExisting) == State(fs.files, succeeded, failed, None)
    {
      RunBatchesSnoc(init, batches, skipExisting, batchN);
      succeeded, failed, halt := TranscodeBatch(fs, batches[batchN], skipExisting, succeeded, failed);
      if halt.Some? {
        RunBatchesStops(init, batches, skipExisting, batchN + 1);
        return;
      }
      batchN := batchN + 1;
    }
    assert batches[..batchN] == batches;
    halt := None;
  }

  /** `transcode`: cut the pairs into batches and run them. The file system
      ends as the run specifies, and the result is the run's verdict: true
      iff no job failed, unless an exception ended the run. */
  method Transcode(fs: FileSystem, batchSize: int, work: seq<Work>, skipExisting: bool) returns (verdict: Verdict)
    modifies fs
    ensures fs.files == Run(old(fs.files), batchSize, work, skipExisting).files
    ensures verdict == VerdictOf(Run(old(fs.files), batchSize, work, skipExisting))
  {
    if batchSize < 1 {
      return Aborted(BatchSizeTooSmall);
    }
    var batches := Batched(work, batchSize);
    var succeeded, failed, halt := TranscodeBatches(fs, batches, skipExisting);
    if halt.Some? {
      verdict := Aborted(halt.value);
    } else if failed > 0 {
      verdict := Finished(false);
    } else {
      verdict := Finished(true);
    }
  }
}
