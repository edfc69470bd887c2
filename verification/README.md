# codec_convert — a verified model of the batch transcoder's core

`codec_convert.py` converts every video below an input directory from one
codec to another. It mirrors the directory tree under an output directory
and runs one external `ffmpeg` process per file, a batch of `--jobs` files
at a time. This project models the parts of it that decide *which* files are
converted, *where* each result goes, and *what the file system and the
counters look like* after a run:

- **Paths** (`paths.dfy`) models the output path mapping.
  - `generate_output_path` mirrors a file under the output root.
  - `generate_output_path_tmp` gives the temporary sibling that the
    transcoder writes first (`clip.mp4` becomes `clip.tmp.mp4`).
  - A path is the sequence of its parts, so `relative_to` is a prefix strip.
  - Suffixes follow pathlib's (Python 3.12) rule: the name's last
    `.`-part, provided that dot neither starts nor ends the name.
- **Discovery** (`discovery.dfy`) models the pipeline stages as
  order-preserving functions over materialised sequences: `get_files`,
  `filter_video_files`, `filter_existing`, and `filter_by_source_codec` with
  its `is_h264`. The directory tree, the set of existing files, the
  mimetype guess and the `ffprobe` result are inputs.
- **Batching** (`batching.dfy`) models `itertools.batched` and the announced
  batch count `ceil(total_files / batch_size)`.
- **Scheduler** (`scheduler.dfy`) models `transcode` imperatively.
  - A `FileSystem` class holds the set of existing files.
  - The methods `SpawnBatch`, `ReconcileBatch`, `TranscodeBatch`,
    `TranscodeBatches` and `Transcode` follow the source's loops. Each is
    proved equal to a functional specification (`Dispatch`, `Reconcile`,
    `RunBatch`, `RunBatches`, `Run`).
  - Each pair comes with what its `ffmpeg` process reports: the exit status,
    and whether it left a file at the temporary path.
- **SchedulerFacts** (`scheduler_facts.dfy`) proves what a run guarantees:
  - which pairs are dispatched;
  - how `succeeded` and `failed` grow, and when `transcode` returns true;
  - when a run ends with an exception instead;
  - which files a run can touch, and the fate of each pair's output and
    temporary file;
  - that resume mode after a fully successful run does nothing;
  - that, without independence, one pair's temporary path can be another
    pair's output.
- **Sequences** and **Results** (`sequences.dfy`, `results.dfy`) hold the
  shared vocabulary: `Filter`, subsequences, distinctness, `Option` and
  `Result`.

Exceptions that end a run in the source are modelled as a `Halt`:

- `itertools.batched` with a batch size below one (`ValueError`);
- `with_suffix` on an output path without a file name (`ValueError`);
- `makedirs('')` for an output path without a directory part, which
  `path.dirname` turns into the empty string (`FileNotFoundError`);
- `os.rename` of a temporary file that is not there (`FileNotFoundError`).

Three consequences of the code as written:

- The `__main__` block discards `transcode`'s result (`codec_convert.py:383-388`), so a
  run with failed files exits with 0. The model stops at `transcode`'s
  result (`Transcode`, `VerdictOf`).
- One output's temporary path can be another pair's output: the rule
  "insert `.tmp` before the suffix" maps `clip.mp4` to `clip.tmp.mp4`, which
  is the output of a sibling input named `clip.tmp.mp4`.
  - `TempCollision` and `CollisionLosesOutput` show that the later rename
    then replaces the earlier output, although both transcoders succeeded.
  - The per-pair guarantees (`TaskFate`, `RunBatchSole`) are therefore
    stated for `Independent` pairs: no temporary path is an output, and no
    output is shared.
- A successful process that leaves no temporary file makes `os.rename`
  raise and aborts the run. The code deletes the temporary file of a failed
  process only when it exists, but renames after a successful one without a
  check (`RunCompletes`).

## Model

| member | source | states |
|---|---|---|
| Paths.LastDot | codec_convert.py:131 | the index of the name's last dot, or -1; no dot follows it |
| Paths.WithSuffix | codec_convert.py:131 | `with_suffix`: the name with its suffix (if any) replaced by the given one; its properties are stated by `TempNameParts` and `TempNameWithSuffix` |
| Paths.Suffix | codec_convert.py:131 | the suffix is non-empty iff the last dot is neither first nor last in the name; then it is a dot-started tail of the name with no further dot |
| Paths.Stem | codec_convert.py:131 | the stem followed by the suffix is the name; with a suffix the stem is non-empty |
| Paths.TempName | codec_convert.py:129-131 | the temporary name is four characters longer than the name, so it always differs from it |
| Paths.TempPath | codec_convert.py:129-131 | the temporary path exists iff the path has a non-empty final name, else `EmptyName` (with_suffix's ValueError); it keeps the parent directory and differs from the output |
| Paths.TempNameParts | codec_convert.py:129-131 | with a suffix, ".tmp" ends the new stem and the suffix is kept; without one, ".tmp" becomes the suffix |
| Paths.TempNameWithSuffix | codec_convert.py:129-131 | a name stem + suffix becomes stem + ".tmp" + suffix |
| Paths.TempPathOfName | codec_convert.py:129-131 | the temporary path of dir/name is dir/TempName(name): same directory |
| Paths.TempNameInjective | codec_convert.py:129-131 | different names never share a temporary name |
| Paths.TempPathInjective | codec_convert.py:129-131 | different outputs never share a temporary path |
| Paths.RelativeTo | codec_convert.py:122 | succeeds iff the root is a prefix of the file, and then root + result == file; otherwise `NotUnderRoot` |
| Paths.OutputPath | codec_convert.py:121-124 | the output is the output root joined with the file's parts below the input root; it fails iff the file is not under the input root |
| Paths.OutputPathInjective | codec_convert.py:121-124 | two files mapped to the same output are the same file |
| Paths.GenerateOutputPaths | codec_convert.py:118-126 | succeeds iff every file maps; then one pair per file, in order, input first and its output second; otherwise the error names the first file that does not map |
| Paths.GeneratedOutputsDistinct | codec_convert.py:118-126 | distinct input files get distinct output paths |
| Sequences.Filter | codec_convert.py:77 | Python's `filter`: the kept elements are elements of the input that satisfy the predicate, every satisfying element is kept, in the input's order |
| Sequences.FilterMultiset | codec_convert.py:77 | `filter` keeps every occurrence of an accepted element and none of a rejected one |
| Discovery.GetFiles | codec_convert.py:57-66 | every yielded path lies strictly below the directory |
| Discovery.EntryFiles | codec_convert.py:60-63 | a listed file yields itself and a subdirectory yields the files below it, all under directory/name |
| Discovery.GetFilesExactly | codec_convert.py:57-66 | a path is yielded iff it lies below the directory and names a file of the tree (both directions) |
| Discovery.GetFilesNamed | codec_convert.py:57-66 | on a listing with non-empty names, every yielded path ends in a non-empty name |
| Discovery.GetFilesDistinct | codec_convert.py:57-66 | on a listing with unique names per directory, no path is yielded twice |
| Discovery.IsVideoMimetype | codec_convert.py:74-75 | a guessed mimetype is a video type iff it is present and starts with "video/" (an empty string is not) |
| Discovery.FilterVideoFiles | codec_convert.py:69-77 | keeps a path iff it exists and its guessed mimetype is present and starts with "video/"; each kept path occurs as often as in the input, in the input's order |
| Discovery.FilterExisting | codec_convert.py:80-87 | keeps exactly the pairs whose output does not exist, each as often as in the input, in their original order |
| Discovery.IsSourceStream | codec_convert.py:102 | a stream is in the source codec iff its `codec_type` is present and is "video" and its `codec_name` is present and is the source codec; a missing key (`s.get` giving None) never matches |
| Discovery.AnySourceStream | codec_convert.py:101-104 | true iff some stream has codec_type "video" and codec_name equal to the source codec |
| Discovery.IsSourceEncoded | codec_convert.py:98-113 | a probe error gives false; otherwise true iff some stream is a video stream in the source codec |
| Discovery.FilterBySourceCodec | codec_convert.py:90-115 | keeps exactly the pairs whose input is source-encoded, each as often as in the input, in their original order |
| Discovery.FilterKeepsOutputsDistinct | codec_convert.py:80-87 | filtering keeps outputs pairwise distinct |
| Discovery.FilterKeepsSound | codec_convert.py:80-115 | the filters keep the pairs sound: distinct inputs and outputs, each output mirroring its input and having a temporary path |
| Discovery.DiscoveredFileMapped | codec_convert.py:57-66 | every discovered file maps to an output path that has a temporary path, and to one with a directory part whenever the output root is not the empty path |
| Discovery.DiscoveredTasksSound | codec_convert.py:118-126 | path mapping never fails on discovered files, and the pairs it builds from distinct files are sound |
| Discovery.CandidateTasks | codec_convert.py:365-378 | the `__main__` block's pipeline: discover, keep videos, map paths, and drop existing outputs in resume mode; `PipelineSound` states what it yields |
| Discovery.PipelineSound | codec_convert.py:365-378 | the `__main__` block's pipeline (discover, keep videos, map paths, drop existing in resume mode) never hits the mapping ValueError and yields sound pairs |
| Batching.Batched | codec_convert.py:194 | the chunks concatenate to the input; each holds 1 to n pairs; all but the last hold exactly n; their count is ceil(\|s\| / n) |
| Batching.PlannedBatchCount | codec_convert.py:195 | the announced count c is the least with c * n >= total (0 for no files) |
| Batching.BatchCountWithinPlan | codec_convert.py:194-195 | the number of batches is the announced count when nothing was filtered after counting, and at most that count otherwise |
| Scheduler.FileSystem.Exists | codec_convert.py:206 | `path.exists`: true iff the path is one of the existing files (also used at line 254) |
| Scheduler.FileSystem.Remove | codec_convert.py:254-255 | `os.remove` deletes exactly that file |
| Scheduler.FileSystem.Rename | codec_convert.py:259 | `os.rename` moves the source onto the destination, replacing it; it fails and changes nothing iff the source is missing |
| Scheduler.FileSystem.ProcessExited | codec_convert.py:247 | after the process exits, the temporary path exists iff the process left a file there; nothing else changes |
| Scheduler.SetAside | codec_convert.py:206-209 | resume mode skips a pair exactly when its output exists |
| Scheduler.Dispatch | codec_convert.py:201-244 | the dispatch loop: per pair, the temporary path (or with_suffix's error), the resume skip, `makedirs` of the output's directory (or its error for an output without one), then one job; `DispatchOk`, `DispatchJobs` and `DispatchError` state its properties |
| Scheduler.ReconcileJob | codec_convert.py:247-259 | waiting for one job, then counting it and deleting (failure) or renaming (success) its temporary file; `JobEffects` states its effect |
| Scheduler.Reconcile | codec_convert.py:246-259 | the reconcile loop over a batch's jobs, stopping at the first exception; `ReconcileCounts` and `ReconcileSole` state its effect |
| Scheduler.RunBatch | codec_convert.py:200-259 | one batch: dispatch, then reconcile, or the dispatch's exception; `RunBatchCounts` and `RunBatchSole` state its effect |
| Scheduler.RunBatches | codec_convert.py:197-259 | the batch loop, stopping at the first exception; `RunBatchesCounts` and `RunBatchesFate` state its effect |
| Scheduler.Run | codec_convert.py:184-278 | all of `transcode`: batching (or its ValueError), then the batches; `RunCounts`, `RunCompletes` and `TaskFate` state its effect |
| Scheduler.VerdictOf | codec_convert.py:273-278 | `transcode` returns false iff a failure was counted, unless an exception ended the run; `NoFailures` and `RunCounts` relate it to the transcoders' exit statuses |
| Scheduler.DispatchStops | codec_convert.py:202-212 | once the dispatch loop raises (with_suffix or makedirs), the batch's dispatch ends with that exception |
| Scheduler.ReconcileStops | codec_convert.py:259 | once a rename raises, no later job of the batch is reconciled |
| Scheduler.RunBatchesStops | codec_convert.py:197-259 | once a batch raises, no later batch runs |
| Scheduler.SpawnBatch | codec_convert.py:201-244 | the spawn loop yields exactly the jobs `Dispatch` specifies, or the exception it specifies (with_suffix's, or makedirs' for an output without a directory part) |
| Scheduler.ReconcileBatch | codec_convert.py:246-259 | the reconcile loop leaves the files, counters and exception exactly as `Reconcile` specifies |
| Scheduler.TranscodeBatch | codec_convert.py:197-259 | one batch iteration leaves the files, counters and exception (including makedirs') as `RunBatch` specifies |
| Scheduler.TranscodeBatches | codec_convert.py:197-259 | the batch loop leaves the files, counters and exception (including makedirs') as `RunBatches` specifies |
| Scheduler.Transcode | codec_convert.py:184-278 | the files end as `Run` specifies; the result is true iff no job failed, unless an exception ended the run |
| SchedulerFacts.DispatchOk | codec_convert.py:201-212 | a batch's dispatch succeeds iff every pair has a file name (including the pairs resume mode would set aside) and every pair not set aside has a directory part |
| SchedulerFacts.DispatchJobs | codec_convert.py:201-244 | one job per pair not set aside, in batch order, carrying that pair's output and temporary path |
| SchedulerFacts.DispatchError | codec_convert.py:202-212 | a failing dispatch names the first pair it cannot get past: with_suffix's error for one without a file name, else makedirs' error for one not set aside without a directory part |
| SchedulerFacts.DispatchAll | codec_convert.py:201-244 | without resume mode, pairs with file names and directory parts give one job per pair, in order |
| SchedulerFacts.JobsFromBatch | codec_convert.py:201-244 | every job belongs to a pair of the batch that was not set aside |
| SchedulerFacts.PendingAll | codec_convert.py:206-209 | without resume mode no pair is set aside |
| SchedulerFacts.ReconcileHalted | codec_convert.py:259 | after an exception, reconciling changes nothing |
| SchedulerFacts.ReconcileAppend | codec_convert.py:246 | reconciling a + b is reconciling a, then b |
| SchedulerFacts.ReconcileOthers | codec_convert.py:246-259 | jobs whose output and temporary path differ from p leave p as it was |
| SchedulerFacts.JobEffects | codec_convert.py:246-259 | on a nonzero exit the temporary file is gone, the output unchanged, and one more failure is counted; on exit 0 the output exists, the temporary file is gone, and one more success is counted, or the rename raises; no other file changes |
| SchedulerFacts.ReconcileCounts | codec_convert.py:246-259 | reconciling without an exception counts each job exactly once |
| SchedulerFacts.ReconcileFailures | codec_convert.py:248-249 | the failures counted are exactly the jobs with a nonzero exit |
| SchedulerFacts.ReconcileNoHalt | codec_convert.py:254-259 | reconciling raises nothing when every successful job left its temporary file |
| SchedulerFacts.ReconcileHaltsAt | codec_convert.py:259 | a successful job without a temporary file makes reconciliation raise |
| SchedulerFacts.ReconcileSole | codec_convert.py:246-259 | for a job that shares no file with the others, its temporary file is gone, and its output exists iff it existed before or the job succeeded |
| SchedulerFacts.RunBatchesHalted | codec_convert.py:197 | after an exception no batch changes anything |
| SchedulerFacts.RunBatchesAppend | codec_convert.py:197 | running batches a + b is running a, then b |
| SchedulerFacts.RunBatchOthers | codec_convert.py:201-259 | a batch whose pairs neither write nor rename onto p leaves p as it was |
| SchedulerFacts.RunBatchesOthers | codec_convert.py:197-259 | the same across batches |
| SchedulerFacts.RunFrame | codec_convert.py:184-278 | a path that is no pair's output or temporary path exists after the run iff it existed before, even when the run raises |
| SchedulerFacts.FailedJobsCount | codec_convert.py:248 | jobs fail exactly as the pairs they were spawned for |
| SchedulerFacts.RunBatchCounts | codec_convert.py:201-259 | a batch counts each dispatched pair once, and counts as failures exactly the dispatched pairs whose transcoder failed |
| SchedulerFacts.RunBatchesCounts | codec_convert.py:197-259 | over the batches, at most one count per pair and at most one failure per failing pair; exactly that without resume mode |
| SchedulerFacts.NoFailures | codec_convert.py:273-278 | no failure is counted iff every transcoder exits with 0 |
| SchedulerFacts.RunCounts | codec_convert.py:192-278 | without an exception: at most one count per pair (exactly one without resume mode); the result is true when every transcoder succeeds, and without resume mode only then |
| SchedulerFacts.RunBatchNoHalt | codec_convert.py:201-259 | a batch raises nothing when every pair has a file name and a directory part and every successful transcoder left its temporary file |
| SchedulerFacts.RunBatchesNoHalt | codec_convert.py:197-259 | the same across the batches of a run |
| SchedulerFacts.RunBatchesNameless | codec_convert.py:202-205 | a pair without a file name makes the run raise |
| SchedulerFacts.RunBatchesDirless | codec_convert.py:212 | without resume mode, a pair whose output has no directory part makes the run raise |
| SchedulerFacts.RunBatchesTempMissing | codec_convert.py:259 | without resume mode, a successful transcoder that left no temporary file makes the run raise |
| SchedulerFacts.RunCompletes | codec_convert.py:184-278 | `transcode` returns instead of raising only if the batch size is positive and every output has a file name; it returns when moreover every output has a directory part and successful transcoders leave their temporary files, and without resume mode only then |
| SchedulerFacts.RunAllComplete | codec_convert.py:184-278 | a run with a positive batch size whose pairs all have a file name and a directory part, and whose successful transcoders all leave their temporary files, raises nothing |
| SchedulerFacts.PairCompleted | codec_convert.py:202-259 | in a run that raised nothing, each pair has a file name; without resume mode it also has a directory part, and its transcoder, if successful, left its temporary file |
| SchedulerFacts.Apart | codec_convert.py:201-259 | of independent pairs, none touches another's output or temporary path |
| SchedulerFacts.IndependentParts | codec_convert.py:194 | the pieces of independent pairs are independent |
| SchedulerFacts.DispatchedOthers | codec_convert.py:201-244 | for independent pairs, the jobs of the other pairs avoid a pair's output and temporary path |
| SchedulerFacts.RunBatchSole | codec_convert.py:201-259 | within a batch of independent pairs: the output exists afterwards iff it existed before or the transcoder succeeded; the temporary file remains only when the pair was set aside and the file already existed |
| SchedulerFacts.RunBatchesFate | codec_convert.py:197-259 | the same fate across the batches of a run |
| SchedulerFacts.TaskFate | codec_convert.py:184-278 | for a run of independent pairs without an exception: a pair's output exists iff it existed before or its transcoder succeeded (a failure never deletes an output); no temporary file is left except one that already existed beside an output that resume mode set aside |
| SchedulerFacts.RerunIdle | codec_convert.py:206-209 | resume mode over pairs whose outputs all exist spawns nothing, counts nothing, changes nothing and returns true |
| SchedulerFacts.ResumeAfterSuccess | codec_convert.py:80-87 | after a fully successful run of independent pairs every output exists; the resume filter then keeps nothing, and a resume run over the same pairs changes nothing |
| SchedulerFacts.TempCollision | codec_convert.py:129-131 | the temporary path of dir/stem+suffix is dir/stem.tmp+suffix, which has its own temporary path |
| SchedulerFacts.CollisionReconcile | codec_convert.py:246-259 | when a second successful job renames onto the first job's output, only the second output remains, with two successes counted |
| SchedulerFacts.RunOfTwo | codec_convert.py:194-259 | two pairs with file names and directory parts in one batch of two, without resume mode, reconcile their two jobs in order |
| SchedulerFacts.CollisionLosesOutput | codec_convert.py:201-259 | when a later pair's temporary path is an earlier pair's output (which has a directory part), the run reports two successes but the earlier output is gone |

## Left out

- `ffmpeg`, `ffprobe` and `Popen.communicate` are foreign process calls.
  - A transcoder's effect is given per pair as an exit status and whether
    it leaves a file at the temporary path.
  - A probe result is given per file.
  - The GPU branch (`spawn_ffmpeg_gpu`) is dead code, since `use_gpu` is
    fixed to `False`.
- Processes are modelled as taking effect when they are waited for.
  - Their concurrency is not modelled.
  - Neither is their real completion order.
  - Neither are files they write elsewhere.
- Scheduler.Dispatch: `makedirs` of an output's directory is modelled only
  by its error for an output without a directory part. The directories it
  creates are left out, because the file system is the set of regular files
  only. So is its `FileExistsError` or `NotADirectoryError` when a regular
  file sits where a directory of the output should be.
- Scheduler.TranscodeBatch: does not raise that `FileExistsError` or
  `NotADirectoryError` either; it raises only makedirs' error for an output
  without a directory part.
- Scheduler.TranscodeBatches: the same, across the batches.
- Scheduler.ReconcileJob: the transcoder's captured `stderr` and `stdout`
  are assumed to decode as UTF-8. In the source an undecodable one makes
  the error message raise `UnicodeDecodeError` after the failure is counted
  and before the temporary file is removed, aborting the run. So
  `JobEffects` and `TaskFate` state the effect of a failed job as if its
  output decoded.
- Wall-clock timing, ETA arithmetic and the printed batch line are left
  out; they use floats and only affect printed text.
- Coloured logging, `verbose` and `inspect_iter` are left out; they only
  print.
- `parse_command_line`, `makedirs` of the output root and the
  `KeyboardInterrupt` handler in the `__main__` block are left out.
  - So is the exit status, which is 0 whether or not files failed.
  - The `__main__` block's pipeline is modelled as `CandidateTasks`.
- `get_valid_files` (codec_convert.py:334-344) is left out: it repeats the
  `__main__` block's pipeline and is never called.
- The iterator chain is modelled as materialised sequences, not lazily.
  - Interleaving stages changes only when probes and existence checks
    happen, which the model takes as fixed inputs.
- The string form of paths (parsing, separators, `.` and `..`) is left out:
  a path is the sequence of its parts.
- Paths.TempPath: a path whose only part is its anchor (`/`) is not
  modelled. pathlib gives it an empty name, so `with_suffix` raises
  ValueError, but the model treats the anchor as a name. Such a path is
  never a file below the input root.
- Scheduler.FileSystem.Rename: the file system is POSIX only. `os.rename`
  replaces an existing destination, as on POSIX; on Windows it would raise
  `FileExistsError` instead.
- Discovery.GetFiles: the directory tree is taken as a finite, acyclic,
  readable listing. The exceptions that end the `__main__` block while
  listing it are left out: `listdir` of a missing or non-directory input
  root (`FileNotFoundError`, `NotADirectoryError`), `listdir` of an
  unreadable subdirectory (`PermissionError`), and the `RecursionError` or
  `OSError` of a directory symlink that points back up the tree.
- A `KeyError` when the probe result has no `"streams"` key is left out: a
  probe gives a stream list or an error.
- `os.remove` or `os.rename` failing for reasons other than a missing
  source (permissions, a full disk) is left out.
- Scheduler.Transcode: an exception ends the run as a `Halt`. The processes
  already spawned for the batch keep running in the source; the model
  drops them.
- SchedulerFacts.RunBatchesCounts: in resume mode the counts are stated as
  bounds, because which pairs are set aside depends on files that earlier
  batches create.
- SchedulerFacts.TaskFate: stated only for `Independent` pairs. Without
  independence the fate does not hold, as `CollisionLosesOutput` shows.
