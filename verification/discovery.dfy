/** Discovery and filtering stages of the converter, in pipeline order:
    get_files -> filter_video_files -> generate_output_path -> filter_existing
    (resume mode) -> filter_by_source_codec. Each stage is modelled over a
    materialised sequence; the file system, the mimetype database and the media
    probe are inputs (a directory listing, a set of existing paths, a function
    from path to guessed type, a function from path to probe result). */
module Discovery {
  import opened Results
  import opened Paths
  import opened Sequences

  /** One entry of a directory listing, in the order `listdir` returns it. */
  datatype Entry = File(name: string) | Dir(name: string, entries: seq<Entry>)

  /** `get_files`: every non-directory entry below `directory`, depth first:
      the entries in listing order, a subdirectory's files in place of the
      subdirectory. */
  function GetFiles(directory: Path, listing: seq<Entry>): (r: seq<Path>)
    ensures forall i :: 0 <= i < |r| ==> |r[i]| > |directory| && r[i][..|directory|] == directory
    decreases listing
  {
    if |listing| == 0 then [] else EntryFiles(directory, listing[0]) + GetFiles(directory, listing[1..])
  }

  /** What one listed entry contributes to `get_files`: itself when it is not
      a directory (`path.isdir` is false), otherwise the files below it. */
  function EntryFiles(directory: Path, e: Entry): (r: seq<Path>)
    ensures forall i :: 0 <= i < |r| ==> |r[i]| > |directory| && r[i][..|directory| + 1] == directory + [e.name]
    decreases e
  {
    match e
    case File(n) => [directory + [n]]
    case Dir(n, entries) =>
      var r := GetFiles(directory + [n], entries);
      assert forall i :: 0 <= i < |r| ==> r[i][..|directory| + 1] == (r[i][..|directory + [n]|]);
      r
  }

  /** Independent description of the tree: `rel` names a file reached from
      `listing` by following directory names. */
  predicate FileAt(listing: seq<Entry>, rel: Path)
    decreases listing
  {
    exists i :: 0 <= i < |listing| && EntryHas(listing[i], rel)
  }

  /** `rel` names the entry `e` itself, when it is a file, or a file below it. */
  predicate EntryHas(e: Entry, rel: Path)
    decreases e
  {
    |rel| > 0 && rel[0] == e.name &&
    match e
    case File(_) => |rel| == 1
    case Dir(_, entries) => FileAt(entries, rel[1..])
  }

  /** `get_files` yields exactly the files of the tree: a path is produced iff
      it lies under the directory and names a file there. */
  lemma {:induction false} GetFilesExactly(directory: Path, listing: seq<Entry>, p: Path)
    ensures p in GetFiles(directory, listing) <==>
      |p| > |directory| && p[..|directory|] == directory && FileAt(listing, p[|directory|..])
    decreases listing
  {
    if |listing| > 0 && |p| > |directory| {
      var rel := p[|directory|..];
      EntryFilesExactly(directory, listing[0], p);
      GetFilesExactly(directory, listing[1..], p);
      if |p| > |directory| && FileAt(listing, rel) {
        var i :| 0 <= i < |listing| && EntryHas(listing[i], rel);
        if i > 0 {
          assert listing[1..][i - 1] == listing[i];
        }
      }
      if |p| > |directory| && FileAt(listing[1..], rel) {
        var i :| 0 <= i < |listing[1..]| && EntryHas(listing[1..][i], rel);
        assert listing[i + 1] == listing[1..][i];
      }
    }
  }

  /** The entry-level half of GetFilesExactly. */
  lemma {:induction false} EntryFilesExactly(directory: Path, e: Entry, p: Path)
    ensures p in EntryFiles(directory, e) <==>
      |p| > |directory| && p[..|directory|] == directory && EntryHas(e, p[|directory|..])
    decreases e
  {
    if |p| > |directory| {
      var rel := p[|directory|..];
      match e
      case File(n) =>
        if p == directory + [n] {
          assert rel == [n];
        }
        if p[..|directory|] == directory && EntryHas(e, rel) {
          assert p == p[..|directory|] + rel && rel == [n];
        }
      case Dir(n, entries) =>
        GetFilesExactly(directory + [n], entries, p);
        if |p| > |directory| + 1 && p[..|directory| + 1] == directory + [n] {
          assert p[..|directory|] == p[..|directory| + 1][..|directory|];
          assert rel[1..] == p[|directory + [n]|..];
        }
        if p[..|directory|] == directory && EntryHas(e, rel) {
          assert FileAt(entries, rel[1..]);
          assert |rel| > 1;
          assert p[..|directory| + 1] == p[..|directory|] + [rel[0]];
          assert rel[1..] == p[|directory + [n]|..];
          assert p in GetFiles(directory + [n], entries);
        }
    }
  }

  /** A listing as `listdir` gives it: non-empty names, each once per directory. */
  predicate WellFormedListing(listing: seq<Entry>)
    decreases listing
  {
    (forall i :: 0 <= i < |listing| ==> WellFormedEntry(listing[i])) &&
    (forall i, j :: 0 <= i < j < |listing| ==> listing[i].name != listing[j].name)
  }

  predicate WellFormedEntry(e: Entry)
    decreases e
  {
    e.name != "" && (e.Dir? ==> WellFormedListing(e.entries))
  }

  /** In a well-formed tree every file's name is non-empty. */
  lemma {:induction false} FileAtNamed(listing: seq<Entry>, rel: Path)
    requires WellFormedListing(listing) && FileAt(listing, rel)
    ensures |rel| > 0 && rel[|rel| - 1] != ""
    decreases listing
  {
    var i :| 0 <= i < |listing| && EntryHas(listing[i], rel);
    EntryHasNamed(listing[i], rel);
  }

  lemma {:induction false} EntryHasNamed(e: Entry, rel: Path)
    requires WellFormedEntry(e) && EntryHas(e, rel)
    ensures |rel| > 0 && rel[|rel| - 1] != ""
    decreases e
  {
    match e
    case File(_) =>
    case Dir(_, entries) =>
      FileAtNamed(entries, rel[1..]);
      assert rel[|rel| - 1] == rel[1..][|rel[1..]| - 1];
  }

  /** Every path `get_files` yields on a well-formed listing ends in a
      non-empty name, so it has a temporary path. */
  lemma GetFilesNamed(directory: Path, listing: seq<Entry>, p: Path)
    requires WellFormedListing(listing)
    requires p in GetFiles(directory, listing)
    ensures p[|p| - 1] != ""
  {
    GetFilesExactly(directory, listing, p);
    FileAtNamed(listing, p[|directory|..]);
  }

  /** On a well-formed listing `get_files` yields every file once. */
  lemma {:induction false} GetFilesDistinct(directory: Path, listing: seq<Entry>)
    requires WellFormedListing(listing)
    ensures Distinct(GetFiles(directory, listing))
    decreases listing
  {
    if |listing| > 0 {
      var first := EntryFiles(directory, listing[0]);
      var rest := GetFiles(directory, listing[1..]);
      assert WellFormedListing(listing[1..]);
      EntryFilesDistinct(directory, listing[0]);
      GetFilesDistinct(directory, listing[1..]);
      forall p | p in first
        ensures p !in rest
      {
        GetFilesExactly(directory, listing[1..], p);
        assert p[|directory|..][0] == listing[0].name;
      }
      DistinctAppend(first, rest);
    }
  }

  lemma {:induction false} EntryFilesDistinct(directory: Path, e: Entry)
    requires WellFormedEntry(e)
    ensures Distinct(EntryFiles(directory, e))
    decreases e
  {
    match e
    case File(_) =>
    case Dir(n, entries) =>
      GetFilesDistinct(directory + [n], entries);
  }

  /** The part of `filter_video_files` that looks at a guessed mimetype: present,
      non-empty and of the top-level type "video". */
  predicate IsVideoMimetype(mimetype: Option<string>)
  {
    mimetype.Some? && "video/" <= mimetype.value
  }

  /** `filter_video_files`: keeps a path iff it exists and its guessed mimetype
      starts with "video/"; a missing path is dropped, not an error. */
  function FilterVideoFiles(files: seq<Path>, existing: set<Path>, guessType: Path -> Option<string>): (r: seq<Path>)
    ensures forall i :: 0 <= i < |r| ==> r[i] in files && r[i] in existing && IsVideoMimetype(guessType(r[i]))
    ensures forall i :: 0 <= i < |files| && files[i] in existing && IsVideoMimetype(guessType(files[i])) ==> files[i] in r
    ensures IsSubsequence(r, files)
    ensures forall f :: multiset(r)[f] == if f in existing && IsVideoMimetype(guessType(f)) then multiset(files)[f] else 0
  {
    FilterMultiset(files, f => f in existing && IsVideoMimetype(guessType(f)));
    Filter(files, f => f in existing && IsVideoMimetype(guessType(f)))
  }

  /** `filter_existing`: keeps exactly the pairs whose output path does not
      exist yet, in their original order. */
  function FilterExisting(tasks: seq<Task>, existing: set<Path>): (r: seq<Task>)
    ensures forall i :: 0 <= i < |r| ==> r[i] in tasks && r[i].output !in existing
    ensures forall i :: 0 <= i < |tasks| && tasks[i].output !in existing ==> tasks[i] in r
    ensures IsSubsequence(r, tasks)
    ensures forall t :: multiset(r)[t] == if t.output !in existing then multiset(tasks)[t] else 0
  {
    FilterMultiset(tasks, (t: Task) => t.output !in existing);
    Filter(tasks, (t: Task) => t.output !in existing)
  }

  /** One stream descriptor from ffprobe; `get` on a missing key is None. */
  datatype Stream = Stream(codecType: Option<string>, codecName: Option<string>)

  /** What probing a file gives: its stream list, or an ffmpeg.Error. */
  datatype Probe = Streams(streams: seq<Stream>) | ProbeError(stderr: string)

  /** One stream's test inside `any(...)`: a missing key reads as None and
      never matches. */
  predicate IsSourceStream(s: Stream, sourceCodec: string)
  {
    s.codecType == Some("video") && s.codecName == Some(sourceCodec)
  }

  /** The `any(...)` of `is_h264`, left to right. */
  function AnySourceStream(streams: seq<Stream>, sourceCodec: string): (b: bool)
    ensures b <==> exists i :: 0 <= i < |streams| && IsSourceStream(streams[i], sourceCodec)
  {
    if |streams| == 0 then false
    else IsSourceStream(streams[0], sourceCodec) || AnySourceStream(streams[1..], sourceCodec)
  }

  /** `is_h264`: a probe error rejects the file instead of aborting the run. */
  function IsSourceEncoded(probe: Probe, sourceCodec: string): (b: bool)
    ensures b <==> (probe.Streams? &&
      exists i :: 0 <= i < |probe.streams| && IsSourceStream(probe.streams[i], sourceCodec))
  {
    match probe
    case ProbeError(_) => false
    case Streams(streams) => AnySourceStream(streams, sourceCodec)
  }

  /** `filter_by_source_codec`: keeps the pairs whose input file has a video
      stream encoded with the source codec, in their original order. */
  function FilterBySourceCodec(sourceCodec: string, tasks: seq<Task>, probe: Path -> Probe): (r: seq<Task>)
    ensures forall i :: 0 <= i < |r| ==> r[i] in tasks && IsSourceEncoded(probe(r[i].input), sourceCodec)
    ensures forall i :: 0 <= i < |tasks| && IsSourceEncoded(probe(tasks[i].input), sourceCodec) ==> tasks[i] in r
    ensures IsSubsequence(r, tasks)
    ensures forall t :: multiset(r)[t] == if IsSourceEncoded(probe(t.input), sourceCodec) then multiset(tasks)[t] else 0
  {
    FilterMultiset(tasks, (t: Task) => IsSourceEncoded(probe(t.input), sourceCodec));
    Filter(tasks, (t: Task) => IsSourceEncoded(probe(t.input), sourceCodec))
  }

  /** The pairs the main block hands to the scheduler, before the codec filter
      (which runs lazily inside the scheduler's batching): discovered video
      files with their output paths, without those whose output exists when
      resume mode is on. */
  function CandidateTasks(inputRoot: Path, outputDir: Path, listing: seq<Entry>, existing: set<Path>,
                          guessType: Path -> Option<string>, skipExisting: bool): Result<seq<Task>, PathError>
  {
    var videos := FilterVideoFiles(GetFiles(inputRoot, listing), existing, guessType);
    match GenerateOutputPaths(inputRoot, outputDir, videos)
    case Err(e) => Err(e)
    case Ok(tasks) => Ok(if skipExisting then FilterExisting(tasks, existing) else tasks)
  }

  predicate DistinctOutputs(tasks: seq<Task>)
  {
    forall i, j :: 0 <= i < j < |tasks| ==> tasks[i].output != tasks[j].output
  }

  /** Dropping tasks keeps the remaining outputs distinct. */
  lemma {:induction false} FilterKeepsOutputsDistinct(tasks: seq<Task>, p: Task -> bool)
    requires DistinctOutputs(tasks)
    ensures DistinctOutputs(Filter(tasks, p))
  {
    if |tasks| > 0 {
      FilterKeepsOutputsDistinct(tasks[1..], p);
      if p(tasks[0]) {
        HeadOutputUnique(tasks);
        ConsOutputsDistinct(tasks[0], Filter(tasks[1..], p));
      }
    }
  }

  /** The first task's output is no later task's output. */
  lemma HeadOutputUnique(tasks: seq<Task>)
    requires DistinctOutputs(tasks) && |tasks| > 0
    ensures DistinctOutputs(tasks[1..])
    ensures forall t :: t in tasks[1..] ==> t.output != tasks[0].output
  {
    forall t | t in tasks[1..]
      ensures t.output != tasks[0].output
    {
      var k :| 0 <= k < |tasks[1..]| && tasks[1..][k] == t;
      assert tasks[k + 1] == t;
    }
  }

  /** A task whose output no other task has can go in front. */
  lemma ConsOutputsDistinct(t: Task, rest: seq<Task>)
    requires DistinctOutputs(rest)
    requires forall u :: u in rest ==> u.output != t.output
    ensures DistinctOutputs([t] + rest)
  {
    var r := [t] + rest;
    forall i, j | 0 <= i < j < |r|
      ensures r[i].output != r[j].output
    {
      assert r[j] == rest[j - 1];
      if i > 0 {
        assert r[i] == rest[i - 1];
      }
    }
  }

  /** What the scheduler may rely on about the pairs the main block builds
      from the files `found` by discovery: each input occurs once and was
      found, each output occurs once, is the output root joined with the
      input's path below the input root, and has a temporary path. */
  predicate SoundTasks(inputRoot: Path, outputDir: Path, found: seq<Path>, tasks: seq<Task>)
  {
    && DistinctOutputs(tasks)
    && (forall i, j :: 0 <= i < j < |tasks| ==> tasks[i].input != tasks[j].input)
    && (forall i :: 0 <= i < |tasks| ==>
          && tasks[i].input in found
          && |tasks[i].input| > |inputRoot| && tasks[i].input[..|inputRoot|] == inputRoot
          && tasks[i].output == outputDir + tasks[i].input[|inputRoot|..]
          && TempPath(tasks[i].output).Ok?)
  }

  /** Dropping tasks keeps them sound. */
  lemma FilterKeepsSound(inputRoot: Path, outputDir: Path, found: seq<Path>, tasks: seq<Task>, p: Task -> bool)
    requires SoundTasks(inputRoot, outputDir, found, tasks)
    ensures SoundTasks(inputRoot, outputDir, found, Filter(tasks, p))
  {
    var r := Filter(tasks, p);
    FilterKeepsOutputsDistinct(tasks, p);
    forall i, j | 0 <= i < j < |r|
      ensures r[i].input != r[j].input
    {
      // equal inputs would give equal outputs
      assert r[i].output == outputDir + r[i].input[|inputRoot|..];
      assert r[j].output == outputDir + r[j].input[|inputRoot|..];
    }
  }

  /** A discovered file has an output path, and that output path has a
      temporary path; it has a directory part whenever the output root is
      not the empty path (as `.` is). */
  lemma DiscoveredFileMapped(inputRoot: Path, outputDir: Path, listing: seq<Entry>, f: Path)
    requires WellFormedListing(listing)
    requires f in GetFiles(inputRoot, listing)
    ensures OutputPath(inputRoot, outputDir, f).Ok?
    ensures TempPath(OutputPath(inputRoot, outputDir, f).value).Ok?
    ensures |outputDir| > 0 ==> |OutputPath(inputRoot, outputDir, f).value| >= 2
  {
    GetFilesNamed(inputRoot, listing, f);
    var found := GetFiles(inputRoot, listing);
    var k :| 0 <= k < |found| && found[k] == f;
    assert |f| > |inputRoot| && f[..|inputRoot|] == inputRoot;
    var o := outputDir + f[|inputRoot|..];
    assert o[|o| - 1] == f[|f| - 1];
  }

  /** Path mapping never fails on what discovery yields, and its pairs are sound. */
  lemma DiscoveredTasksSound(inputRoot: Path, outputDir: Path, listing: seq<Entry>, videos: seq<Path>)
    requires WellFormedListing(listing)
    requires Distinct(videos)
    requires forall i :: 0 <= i < |videos| ==> videos[i] in GetFiles(inputRoot, listing)
    ensures GenerateOutputPaths(inputRoot, outputDir, videos).Ok?
    ensures SoundTasks(inputRoot, outputDir, GetFiles(inputRoot, listing), GenerateOutputPaths(inputRoot, outputDir, videos).value)
  {
    forall i | 0 <= i < |videos|
      ensures OutputPath(inputRoot, outputDir, videos[i]).Ok?
      ensures TempPath(OutputPath(inputRoot, outputDir, videos[i]).value).Ok?
    {
      DiscoveredFileMapped(inputRoot, outputDir, listing, videos[i]);
    }
    var all := GenerateOutputPaths(inputRoot, outputDir, videos).value;
    GeneratedOutputsDistinct(inputRoot, outputDir, videos);
    forall i, j | 0 <= i < j < |all|
      ensures all[i].input != all[j].input
    {
      assert all[i].input == videos[i] && all[j].input == videos[j];
    }
  }

  /** The main block's pipeline never hits the path-mapping ValueError, since
      discovery only yields files under the input root, and on a well-formed
      listing the pairs it hands on are sound. */
  lemma PipelineSound(inputRoot: Path, outputDir: Path, listing: seq<Entry>, existing: set<Path>,
                      guessType: Path -> Option<string>, skipExisting: bool)
    requires WellFormedListing(listing)
    ensures CandidateTasks(inputRoot, outputDir, listing, existing, guessType, skipExisting).Ok?
    ensures SoundTasks(inputRoot, outputDir, GetFiles(inputRoot, listing),
                       CandidateTasks(inputRoot, outputDir, listing, existing, guessType, skipExisting).value)
  {
    var found := GetFiles(inputRoot, listing);
    var videos := FilterVideoFiles(found, existing, guessType);
    GetFilesDistinct(inputRoot, listing);
    FilterDistinct(found, f => f in existing && IsVideoMimetype(guessType(f)));
    DiscoveredTasksSound(inputRoot, outputDir, listing, videos);
    var all := GenerateOutputPaths(inputRoot, outputDir, videos).value;
    if skipExisting {
      FilterKeepsSound(inputRoot, outputDir, found, all, (t: Task) => t.output !in existing);
    }
  }
}
