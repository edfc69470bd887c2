/** Output path mapping of the converter: an input file under the input root is
    mirrored under the output root, and every output has a temporary sibling
    (`clip.mp4` -> `clip.tmp.mp4`) that the transcoder writes first.

    A path is the sequence of its parts, as pathlib normalises it; parsing path
    strings is not part of this model. File names follow pathlib's (Python 3.12)
    reading of a suffix: the name's last '.'-part, provided that dot neither
    starts nor ends the name. */
module Paths {
  import opened Results

  type Path = seq<string>

  /** The pairs that flow from the output path mapper to the scheduler:
      `(input_file, output_file)`. */
  datatype Task = Task(input: Path, output: Path)

  datatype PathError =
    | NotUnderRoot(file: Path, root: Path)   // ValueError from relative_to
    | EmptyName(path: Path)                  // ValueError from with_suffix

  /** No character of `s` is a dot. */
  predicate NoDot(s: string)
  {
    forall k :: 0 <= k < |s| ==> s[k] != '.'
  }

  /** `str.rfind('.')`: the index of the last dot of `name`, or -1. */
  function LastDot(name: string): (i: int)
    ensures -1 <= i < |name|
    ensures i >= 0 ==> name[i] == '.'
    ensures NoDot(name[i + 1..])
  {
    if |name| == 0 then -1
    else if name[|name| - 1] == '.' then |name| - 1
    else LastDot(name[..|name| - 1])
  }

  /** The dot at `j` is the last one, so `rfind` finds it. */
  lemma LastDotAt(name: string, j: int)
    requires 0 <= j < |name| && name[j] == '.'
    requires NoDot(name[j + 1..])
    ensures LastDot(name) == j
  {
  }

  /** `PurePath.suffix` of a name: its final '.'-part, or "" when the name has
      no dot, or its last dot is the first or the last character. */
  function Suffix(name: string): (s: string)
    ensures s != "" <==> 0 < LastDot(name) < |name| - 1
    ensures s != "" ==> 2 <= |s| < |name| && s[0] == '.' && name[|name| - |s|..] == s
    ensures s != "" ==> NoDot(s[1..])
  {
    var i := LastDot(name);
    if 0 < i < |name| - 1 then name[i..] else ""
  }

  /** `PurePath.with_suffix` applied to a final name: the old suffix, if there
      is one, is replaced by `suffix`; otherwise `suffix` is appended. */
  function WithSuffix(name: string, suffix: string): string
  {
    var oldSuffix := Suffix(name);
    if oldSuffix == "" then name + suffix else name[..|name| - |oldSuffix|] + suffix
  }

  /** The file name written by the transcoder: the marker ".tmp" goes before the
      suffix (codec_convert.py, generate_output_path_tmp). */
  function TempName(name: string): (t: string)
    ensures |t| == |name| + 4
    ensures t != name
  {
    WithSuffix(name, ".tmp" + Suffix(name))
  }

  /** `generate_output_path_tmp`: the temporary sibling of an output path. It
      fails, as with_suffix does, when the path has no final name. */
  function TempPath(output: Path): (r: Result<Path, PathError>)
    ensures r.Ok? <==> |output| > 0 && output[|output| - 1] != ""
    ensures r.Err? ==> r.error == EmptyName(output)
    ensures r.Ok? ==> |r.value| == |output| && r.value[..|output| - 1] == output[..|output| - 1]
    ensures r.Ok? ==> r.value[|output| - 1] != output[|output| - 1] && r.value != output
  {
    if |output| == 0 || output[|output| - 1] == "" then Err(EmptyName(output))
    else Ok(output[..|output| - 1] + [TempName(output[|output| - 1])])
  }

  /** Appending a well-formed suffix (a dot and no further dots) to a non-empty
      stem makes exactly that suffix the name's suffix. */
  lemma SuffixOfAppended(stem: string, s: string)
    requires |stem| >= 1 && |s| >= 2 && s[0] == '.'
    requires NoDot(s[1..])
    ensures Suffix(stem + s) == s
  {
    var name := stem + s;
    assert name[|stem|] == '.';
    assert name[|stem| + 1..] == s[1..];
    LastDotAt(name, |stem|);
    assert name[|stem|..] == s;
  }

  /** `PurePath.stem` of a name: the name without its suffix. */
  function Stem(name: string): (stem: string)
    ensures stem + Suffix(name) == name
    ensures Suffix(name) != "" ==> |stem| >= 1
  {
    name[..|name| - |Suffix(name)|]
  }

  /** The stem and suffix of a temporary name: with a suffix, ".tmp" ends the
      stem and the suffix is kept; without one, ".tmp" becomes the suffix. */
  lemma TempNameParts(name: string)
    requires name != ""
    ensures Suffix(name) != "" ==> Suffix(TempName(name)) == Suffix(name) && Stem(TempName(name)) == Stem(name) + ".tmp"
    ensures Suffix(name) == "" ==> Suffix(TempName(name)) == ".tmp" && Stem(TempName(name)) == name
  {
    var s := Suffix(name);
    var t := TempName(name);
    if s != "" {
      assert t == (Stem(name) + ".tmp") + s;
      SuffixOfAppended(Stem(name) + ".tmp", s);
      assert Stem(t) == t[..|t| - |s|];
    } else {
      assert t == name + ".tmp";
      SuffixOfAppended(name, ".tmp");
      assert Stem(t) == t[..|t| - 4];
    }
  }

  /** Two different names never share a temporary name: tasks with different
      outputs in one directory never write to the same temporary file. */
  lemma TempNameInjective(a: string, b: string)
    requires a != "" && b != ""
    requires TempName(a) == TempName(b)
    ensures a == b
  {
    TempNameParts(a);
    TempNameParts(b);
    var sa, sb := Suffix(a), Suffix(b);
    if sa != "" && sb != "" {
      TmpMarkerCancels(Stem(a), Stem(b));
    } else if sa == "" && sb != "" {
      // a is then stem(b) + ".tmp", whose suffix is ".tmp", not ""
      SuffixOfAppended(Stem(b), ".tmp");
    } else if sa != "" && sb == "" {
      SuffixOfAppended(Stem(a), ".tmp");
    }
  }

  /** A name with a suffix gets ".tmp" inserted just before that suffix. */
  lemma TempNameWithSuffix(stem: string, s: string)
    requires |stem| >= 1 && |s| >= 2 && s[0] == '.'
    requires NoDot(s[1..])
    ensures TempName(stem + s) == stem + ".tmp" + s
  {
    SuffixOfAppended(stem, s);
    var name := stem + s;
    assert name[..|name| - |s|] == stem;
  }

  /** The temporary path of a file in directory `dir` is the file's temporary
      name in the same directory. */
  lemma TempPathOfName(dir: Path, name: string)
    requires name != ""
    ensures TempPath(dir + [name]) == Ok(dir + [TempName(name)])
  {
    var p := dir + [name];
    assert p[..|p| - 1] == dir && p[|p| - 1] == name;
  }

  /** Stems that agree once ".tmp" is appended to both are equal. */
  lemma TmpMarkerCancels(x: string, y: string)
    requires x + ".tmp" == y + ".tmp"
    ensures x == y
  {
    assert x == (x + ".tmp")[..|x|];
    assert y == (y + ".tmp")[..|y|];
  }

  /** Different output paths have different temporary paths. */
  lemma TempPathInjective(p: Path, q: Path)
    requires TempPath(p).Ok? && TempPath(q).Ok?
    requires TempPath(p).value == TempPath(q).value
    ensures p == q
  {
    TempPathLast(p);
    TempPathLast(q);
    TempNameInjective(p[|p| - 1], q[|q| - 1]);
    SameFrontSameLast(p, q);
  }

  /** Two paths of one length that agree on the directory and on the final
      name are equal. */
  lemma SameFrontSameLast(p: Path, q: Path)
    requires |p| == |q| > 0 && p[..|p| - 1] == q[..|q| - 1] && p[|p| - 1] == q[|q| - 1]
    ensures p == q
  {
    assert p == p[..|p| - 1] + [p[|p| - 1]];
  }

  /** A temporary path is its output's directory followed by the temporary
      name of its final name. */
  lemma TempPathLast(p: Path)
    requires TempPath(p).Ok?
    ensures |TempPath(p).value| == |p| > 0 && p[|p| - 1] != ""
    ensures TempPath(p).value[|p| - 1] == TempName(p[|p| - 1])
  {
  }

  /** `Path.relative_to(root)`: the parts of `file` after `root`, or a failure
      when `root` is not a leading part of `file`. */
  function RelativeTo(file: Path, root: Path): (r: Result<Path, PathError>)
    ensures r.Ok? <==> |root| <= |file| && file[..|root|] == root
    ensures r.Ok? ==> root + r.value == file
    ensures r.Err? ==> r.error == NotUnderRoot(file, root)
  {
    if |root| <= |file| && file[..|root|] == root then Ok(file[|root|..])
    else Err(NotUnderRoot(file, root))
  }

  /** The inner `output_path` of generate_output_path: the output root joined
      with the file's path relative to the input root. */
  function OutputPath(inputRoot: Path, outputDir: Path, file: Path): (r: Result<Path, PathError>)
    ensures r.Ok? <==> |inputRoot| <= |file| && file[..|inputRoot|] == inputRoot
    ensures r.Err? ==> r.error == NotUnderRoot(file, inputRoot)
    ensures r.Ok? ==> r.value == outputDir + file[|inputRoot|..]
  {
    match RelativeTo(file, inputRoot)
    case Err(e) => Err(e)
    case Ok(rel) => Ok(outputDir + rel)
  }

  /** Two files under the input root are mapped to the same output path only
      if they are the same file. */
  lemma OutputPathInjective(inputRoot: Path, outputDir: Path, f: Path, g: Path)
    requires OutputPath(inputRoot, outputDir, f).Ok? && OutputPath(inputRoot, outputDir, g).Ok?
    requires OutputPath(inputRoot, outputDir, f).value == OutputPath(inputRoot, outputDir, g).value
    ensures f == g
  {
    var o := OutputPath(inputRoot, outputDir, f).value;
    assert f[|inputRoot|..] == o[|outputDir|..] == g[|inputRoot|..];
    assert f == inputRoot + f[|inputRoot|..] && g == inputRoot + g[|inputRoot|..];
  }

  /** `generate_output_path`: pairs every file with its output path, keeping the
      order. Materialised, the map stops at the first file that is not under
      the input root. */
  function GenerateOutputPaths(inputRoot: Path, outputDir: Path, files: seq<Path>): (r: Result<seq<Task>, PathError>)
    ensures r.Ok? <==> forall i :: 0 <= i < |files| ==> OutputPath(inputRoot, outputDir, files[i]).Ok?
    ensures r.Ok? ==> |r.value| == |files|
    ensures r.Ok? ==> forall i :: 0 <= i < |files| ==>
      r.value[i].input == files[i] && OutputPath(inputRoot, outputDir, files[i]) == Ok(r.value[i].output)
    ensures r.Err? ==> exists i :: (0 <= i < |files| && r.error == NotUnderRoot(files[i], inputRoot)
      && OutputPath(inputRoot, outputDir, files[i]).Err?
      && forall j :: 0 <= j < i ==> OutputPath(inputRoot, outputDir, files[j]).Ok?)
  {
    if |files| == 0 then Ok([])
    else match OutputPath(inputRoot, outputDir, files[0])
      case Err(e) => Err(e)
      case Ok(o) =>
        match GenerateOutputPaths(inputRoot, outputDir, files[1..])
        case Err(e) => Err(e)
        case Ok(rest) => Ok([Task(files[0], o)] + rest)
  }

  /** Distinct input files get distinct output paths. */
  lemma GeneratedOutputsDistinct(inputRoot: Path, outputDir: Path, files: seq<Path>)
    requires forall i, j :: 0 <= i < j < |files| ==> files[i] != files[j]
    requires GenerateOutputPaths(inputRoot, outputDir, files).Ok?
    ensures var ts := GenerateOutputPaths(inputRoot, outputDir, files).value;
      forall i, j :: 0 <= i < j < |ts| ==> ts[i].output != ts[j].output
  {
    var ts := GenerateOutputPaths(inputRoot, outputDir, files).value;
    forall i, j | 0 <= i < j < |ts|
      ensures ts[i].output != ts[j].output
    {
      if ts[i].output == ts[j].output {
        OutputPathInjective(inputRoot, outputDir, files[i], files[j]);
      }
    }
  }
}
