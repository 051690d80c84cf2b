/**
 The run launcher `sophia.py`: find the run's SampleSheet, read the
 experiment name and BDS identifier from its `Experiment Name` row, build the
 upload command for the wrapper, and start it under `nohup` (or only show it,
 on a dry run).

 The filesystem is an input (`Env`: which directories exist and the already
 tokenised CSV rows of each file), paths are taken as already resolved, and
 starting the process is an input too (`Spawn`).
 */
module Sophia {
  import opened Common
  import opened Text

  /** An absolute, resolved path, as its components below `/`. */
  datatype Path = Path(parts: seq<string>) {

    /** `self / name` for a name without a slash. */
    function Join(name: string): Path {
      Path(parts + [name])
    }

    /** `Path.name`: the last component, `""` for `/`. */
    function Name(): string {
      if parts == [] then "" else parts[|parts| - 1]
    }

    /** `Path.parent`; `/` is its own parent. */
    function Parent(): Path {
      if parts == [] then this else Path(parts[..|parts| - 1])
    }
  }

  /** `"/a/b"` for the components `a`, `b`. */
  function Slashed(parts: seq<string>): string {
    if parts == [] then "" else "/" + parts[0] + Slashed(parts[1..])
  }

  /** `str(path)`. */
  function PathText(p: Path): (r: string)
    ensures |r| >= 1 && r[0] == '/'
  {
    if p.parts == [] then "/" else Slashed(p.parts)
  }

  const SampleSheetSuffix: string := "_SampleSheet.csv"

  /** `locate_samplesheet`'s candidate: `root / (run_name + "_SampleSheet.csv")`. */
  function SampleSheetPath(runName: string, root: Path): Path {
    root.Join(runName + SampleSheetSuffix)
  }

  /** The SampleSheet sits directly in the root, and its file name is the run name followed by the fixed suffix. */
  lemma SampleSheetPathShape(runName: string, root: Path)
    ensures SampleSheetPath(runName, root).Parent() == root
    ensures var name := SampleSheetPath(runName, root).Name();
      && |name| == |runName| + |SampleSheetSuffix|
      && name[..|runName|] == runName
      && name[|runName|..] == SampleSheetSuffix
  {
    assert root.parts + [runName + SampleSheetSuffix] == SampleSheetPath(runName, root).parts;
    assert (root.parts + [runName + SampleSheetSuffix])[..|root.parts|] == root.parts;
  }

  /** One CSV row, already split into cells. */
  type Row = seq<string>

  /** `(experiment_name, bds_identifier, raw_value)`. */
  datatype Details = Details(experimentName: string, bdsIdentifier: string, rawValue: string)

  /** The two `ValueError`s of `extract_experiment_details`. */
  datatype ExtractError =
    | EntryNotFound                      // no `Experiment Name` row, or its value cell missing or blank
    | MissingBdsComponent(rawValue: string)

  /** A row whose first cell is the label, ignoring surrounding whitespace and case. */
  predicate IsLabelRow(row: Row) {
    row != [] && Lower(Strip(row[0])) == "experiment name"
  }

  /** `raw.partition("_")`, requiring a separator and both sides non-empty. */
  function SplitExperiment(raw: string): Result<Details, ExtractError> {
    var parts := Partition(raw, '_');
    if parts.sep == [] || parts.head == [] || parts.tail == [] then Err(MissingBdsComponent(raw))
    else Ok(Details(parts.head, parts.tail, raw))
  }

  /** `raw`'s first underscore is at index `k`, with at least one character on each side. */
  predicate SplitsAt(raw: string, k: int) {
    && 0 < k < |raw| - 1
    && raw[k] == '_'
    && forall i :: 0 <= i < k ==> raw[i] != '_'
  }

  /** A successful split is `prefix + "_" + suffix` with both sides non-empty and no `_` in the prefix. */
  lemma SplitExperimentSound(raw: string)
    ensures SplitExperiment(raw).Ok? ==>
      var d := SplitExperiment(raw).value;
      && d.experimentName + "_" + d.bdsIdentifier == raw
      && d.rawValue == raw
      && d.experimentName != [] && d.bdsIdentifier != []
      && '_' !in d.experimentName
  {
  }

  /** Any non-empty underscore-free prefix and non-empty suffix joined by `_` split back into themselves. */
  lemma SplitExperimentComplete(prefix: string, suffix: string)
    requires prefix != [] && suffix != [] && '_' !in prefix
    ensures SplitExperiment(prefix + "_" + suffix) == Ok(Details(prefix, suffix, prefix + "_" + suffix))
  {
    var raw := prefix + "_" + suffix;
    var parts := Partition(raw, '_');
    assert raw[|prefix|] == '_';
    assert parts.sep == "_";
    assert raw[|parts.head|] == '_';
    assert forall i :: 0 <= i < |prefix| ==> raw[i] == prefix[i];
    assert forall i :: 0 <= i < |parts.head| ==> raw[i] == parts.head[i];
    assert |parts.head| == |prefix|;
    assert parts.head == prefix;
    assert parts.tail == suffix;
  }

  /** The split succeeds exactly when the first underscore has characters on both sides. */
  lemma SplitExperimentIff(raw: string)
    ensures SplitExperiment(raw).Ok? <==> exists k :: SplitsAt(raw, k)
  {
    var parts := Partition(raw, '_');
    if SplitExperiment(raw).Ok? {
      var k := |parts.head|;
      assert raw[k] == '_';
      assert forall i :: 0 <= i < k ==> raw[i] == parts.head[i];
      assert SplitsAt(raw, k);
    }
    if k :| SplitsAt(raw, k) {
      assert '_' !in raw[..k];
      SplitExperimentComplete(raw[..k], raw[k + 1..]);
      assert raw[..k] + "_" + raw[k + 1..] == raw;
    }
  }

  /** `"X"`, `"_X"` and `"X_"` lack one of the two components. */
  lemma MalformedValuesRejected()
    ensures SplitExperiment("X") == Err(MissingBdsComponent("X"))
    ensures SplitExperiment("_X") == Err(MissingBdsComponent("_X"))
    ensures SplitExperiment("X_") == Err(MissingBdsComponent("X_"))
  {
    SplitExperimentIff("X");
    SplitExperimentIff("_X");
    SplitExperimentIff("X_");
  }

  /** What the first label row's value cell decides. */
  function ValueCellVerdict(row: Row): Result<Details, ExtractError> {
    if |row| < 2 || Strip(row[1]) == [] then Err(EntryNotFound) else SplitExperiment(Strip(row[1]))
  }

  /** `extract_experiment_details` over the sheet's rows: only the first label row is considered. */
  function ExtractExperimentDetails(rows: seq<Row>): Result<Details, ExtractError> {
    if rows == [] then Err(EntryNotFound)
    else if IsLabelRow(rows[0]) then ValueCellVerdict(rows[0])
    else ExtractExperimentDetails(rows[1..])
  }

  /** Row `j` is the first label row. */
  predicate FirstLabelRowAt(rows: seq<Row>, j: int) {
    && 0 <= j < |rows|
    && IsLabelRow(rows[j])
    && forall i :: 0 <= i < j ==> !IsLabelRow(rows[i])
  }

  /** The outcome is decided by the first label row alone: its stripped value cell, or not found when that is missing or blank. */
  lemma {:induction false} ExtractUsesFirstLabelRow(rows: seq<Row>, j: int)
    requires FirstLabelRowAt(rows, j)
    ensures ExtractExperimentDetails(rows) == ValueCellVerdict(rows[j])
  {
    if j > 0 {
      assert !IsLabelRow(rows[0]);
      assert FirstLabelRowAt(rows[1..], j - 1);
      ExtractUsesFirstLabelRow(rows[1..], j - 1);
    }
  }

  /** Without a label row the entry is not found. */
  lemma {:induction false} ExtractWithoutLabelRow(rows: seq<Row>)
    requires forall i :: 0 <= i < |rows| ==> !IsLabelRow(rows[i])
    ensures ExtractExperimentDetails(rows) == Err(EntryNotFound)
  {
    if rows != [] {
      ExtractWithoutLabelRow(rows[1..]);
    }
  }

  /** A first label row with a missing or blank value cell means not found, whatever rows follow it. */
  lemma BlankValueNotFound(rows: seq<Row>, j: int)
    requires FirstLabelRowAt(rows, j)
    requires |rows[j]| < 2 || Strip(rows[j][1]) == []
    ensures ExtractExperimentDetails(rows) == Err(EntryNotFound)
  {
    ExtractUsesFirstLabelRow(rows, j);
  }

  /** Rows after the first label row never change the outcome, even when they would be valid. */
  lemma ExtractIgnoresLaterRows(rows: seq<Row>, j: int, later: seq<Row>)
    requires FirstLabelRowAt(rows, j)
    ensures ExtractExperimentDetails(rows[..j + 1] + later) == ExtractExperimentDetails(rows)
  {
    var r := rows[..j + 1] + later;
    assert FirstLabelRowAt(r, j) by {
      assert forall i :: 0 <= i <= j ==> r[i] == rows[i];
    }
    ExtractUsesFirstLabelRow(r, j);
    ExtractUsesFirstLabelRow(rows, j);
  }

  /** A successful extraction comes from the first label row and its stripped value, split at its first underscore. */
  lemma ExtractOkMeans(rows: seq<Row>)
    ensures ExtractExperimentDetails(rows).Ok? ==>
      var d := ExtractExperimentDetails(rows).value;
      exists j :: FirstLabelRowAt(rows, j) && |rows[j]| >= 2 && d.rawValue == Strip(rows[j][1])
        && d.experimentName + "_" + d.bdsIdentifier == d.rawValue
        && d.experimentName != [] && d.bdsIdentifier != [] && '_' !in d.experimentName
  {
    if ExtractExperimentDetails(rows).Ok? {
      var j := FirstLabelIndex(rows);
      ExtractUsesFirstLabelRow(rows, j);
      SplitExperimentSound(Strip(rows[j][1]));
    }
  }

  /** The index of the first label row of a sheet whose extraction succeeded. */
  function FirstLabelIndex(rows: seq<Row>): (j: nat)
    requires ExtractExperimentDetails(rows).Ok?
    ensures FirstLabelRowAt(rows, j)
  {
    if IsLabelRow(rows[0]) then 0
    else
      assert ExtractExperimentDetails(rows[1..]) == ExtractExperimentDetails(rows);
      var j' := FirstLabelIndex(rows[1..]);
      assert FirstLabelRowAt(rows, j' + 1) by {
        assert rows[j' + 1] == rows[1..][j'];
        assert forall i :: 1 <= i <= j' ==> rows[i] == rows[1..][i - 1];
      }
      j' + 1
  }

  /**
   A row is a label row exactly when its first cell is, up to surrounding
   whitespace, some string that lower-cases to `experiment name`.
   */
  lemma IsLabelRowIff(row: Row)
    requires row != []
    ensures IsLabelRow(row) <==>
      exists i, x :: PaddedAt(row[0], i, x) && IsStripped(x) && Lower(x) == "experiment name"
  {
    StripIsPadded(row[0]);
    if i, x :| PaddedAt(row[0], i, x) && IsStripped(x) && Lower(x) == "experiment name" {
      StripUnique(row[0], i, x);
    }
  }

  /** The label cell, unpadded and in the sheet's own capitalisation, is recognised. */
  lemma LabelCellRecognised(row: Row)
    requires row != [] && row[0] == "Experiment Name"
    ensures IsLabelRow(row)
  {
    LabelStripped();
    StripPadded([], "Experiment Name", []);
    assert [] + "Experiment Name" + [] == "Experiment Name";
    LabelLowered();
  }

  /** The label as the sheet writes it has no surrounding whitespace. */
  lemma LabelStripped()
    ensures IsStripped("Experiment Name")
  {
  }

  /** The label as the sheet writes it lower-cases to the text `main` compares against. */
  lemma LabelLowered()
    ensures Lower("Experiment Name") == "experiment name"
  {
  }

  /** An unpadded value cell `prefix_suffix` yields exactly that prefix and suffix. */
  lemma ValueCellSplits(row: Row, prefix: string, suffix: string)
    requires |row| >= 2 && row[1] == prefix + "_" + suffix && IsStripped(row[1])
    requires prefix != [] && suffix != [] && '_' !in prefix
    ensures ValueCellVerdict(row) == Ok(Details(prefix, suffix, row[1]))
  {
    var v := row[1];
    assert Strip(v) == v by {
      StripPadded([], v, []);
      assert [] + v + [] == v;
    }
    assert v != [];
    SplitExperimentComplete(prefix, suffix);
  }

  /** After rows without the label, a label row decides the outcome by its value cell. */
  lemma ExtractAfterHeader(header: seq<Row>, row: Row)
    requires forall i :: 0 <= i < |header| ==> !IsLabelRow(header[i])
    requires IsLabelRow(row)
    ensures ExtractExperimentDetails(header + [row]) == ValueCellVerdict(row)
  {
    var rows := header + [row];
    assert FirstLabelRowAt(rows, |header|) by {
      assert forall i :: 0 <= i < |header| ==> rows[i] == header[i];
    }
    ExtractUsesFirstLabelRow(rows, |header|);
  }

  /** The value cell `RUN42_BDS007` yields experiment `RUN42` and identifier `BDS007`. */
  lemma Run42Value(row: Row)
    requires |row| == 2 && row[1] == "RUN42_BDS007"
    ensures ValueCellVerdict(row) == Ok(Details("RUN42", "BDS007", "RUN42_BDS007"))
  {
    assert "RUN42_BDS007" == "RUN42" + "_" + "BDS007";
    ValueCellSplits(row, "RUN42", "BDS007");
  }

  /** A sheet whose first label row is `Experiment Name,RUN42_BDS007` yields experiment `RUN42` and identifier `BDS007`. */
  lemma Run42Example(header: seq<Row>, row: Row)
    requires forall i :: 0 <= i < |header| ==> !IsLabelRow(header[i])
    requires |row| == 2 && row[0] == "Experiment Name" && row[1] == "RUN42_BDS007"
    ensures ExtractExperimentDetails(header + [row]) == Ok(Details("RUN42", "BDS007", "RUN42_BDS007"))
  {
    LabelCellRecognised(row);
    ExtractAfterHeader(header, row);
    Run42Value(row);
  }

  /** Which directories exist, and the rows of each existing file. */
  datatype Env = Env(dirs: set<Path>, files: map<Path, seq<Row>>) {

    predicate IsDir(p: Path) {
      p in dirs
    }

    /** `Path.exists()`: a file or a directory. */
    predicate Exists(p: Path) {
      p in dirs || p in files
    }
  }

  const WrapperScriptName: string := "sg-upload-v2-wrapper.py"

  function BaseCallsPath(runFolder: Path): Path {
    runFolder.Join("Data").Join("Intensities").Join("BaseCalls")
  }

  /** Every failure before a launch; all of them end the process with status 1. */
  datatype PrepError =
    | RunFolderMissing(path: Path)
    | SheetRootMissing(path: Path)
    | SheetMissing(path: Path)
    | SheetIsDirectory(path: Path)   // `open()` raises an error `main` does not catch
    | BadSheet(error: ExtractError)
    | BaseCallsMissing(path: Path)
    | WrapperMissing(path: Path)

  /** The value following the first occurrence of `flag`, as a command-line parser reads it. */
  function FlagValue(cmd: seq<string>, flag: string): Option<string> {
    if |cmd| < 2 then None
    else if cmd[0] == flag then Some(cmd[1])
    else FlagValue(cmd[1..], flag)
  }

  /** `build_upload_command`; `scriptDir` is the directory holding `sophia.py`. */
  function BuildUploadCommand(env: Env, runFolder: Path, scriptDir: Path, experimentName: string, pipelineId: string)
    : (r: Result<seq<string>, PrepError>)
    ensures r.Ok? <==> env.IsDir(BaseCallsPath(runFolder)) && env.Exists(scriptDir.Join(WrapperScriptName))
    ensures !env.IsDir(BaseCallsPath(runFolder)) ==> r == Err(BaseCallsMissing(BaseCallsPath(runFolder)))
    ensures env.IsDir(BaseCallsPath(runFolder)) && !env.Exists(scriptDir.Join(WrapperScriptName))
      ==> r == Err(WrapperMissing(scriptDir.Join(WrapperScriptName)))
    ensures r.Ok? ==> r.value == [
      "python3", PathText(scriptDir.Join(WrapperScriptName)), "new",
      "--folder", PathText(BaseCallsPath(runFolder)),
      "--ref", experimentName,
      "--pipeline", pipelineId,
      "--upload"]
  {
    var basecalls := BaseCallsPath(runFolder);
    var wrapper := scriptDir.Join(WrapperScriptName);
    if !env.IsDir(basecalls) then Err(BaseCallsMissing(basecalls))
    else if !env.Exists(wrapper) then Err(WrapperMissing(wrapper))
    else Ok(["python3", PathText(wrapper), "new",
             "--folder", PathText(basecalls),
             "--ref", experimentName,
             "--pipeline", pipelineId,
             "--upload"])
  }

  /** The uploader reading the command back finds the BaseCalls folder after `--folder` and the experiment name after `--ref`. */
  lemma UploadCommandReadBack(env: Env, runFolder: Path, scriptDir: Path, experimentName: string, pipelineId: string)
    requires BuildUploadCommand(env, runFolder, scriptDir, experimentName, pipelineId).Ok?
    ensures var cmd := BuildUploadCommand(env, runFolder, scriptDir, experimentName, pipelineId).value;
      && FlagValue(cmd, "--folder") == Some(PathText(BaseCallsPath(runFolder)))
      && FlagValue(cmd, "--ref") == Some(experimentName)
      && (experimentName != "--pipeline" ==> FlagValue(cmd, "--pipeline") == Some(pipelineId))
  {
    var cmd := BuildUploadCommand(env, runFolder, scriptDir, experimentName, pipelineId).value;
    var wrapper := PathText(scriptDir.Join(WrapperScriptName));
    var basecalls := PathText(BaseCallsPath(runFolder));
    assert wrapper != "--folder" && wrapper != "--ref" && wrapper != "--pipeline" by { assert wrapper[0] == '/'; }
    assert basecalls != "--ref" && basecalls != "--pipeline" by { assert basecalls[0] == '/'; }
    FlagValueSkip(cmd, "--folder", 3);
    FlagValueSkip(cmd, "--ref", 5);
    if experimentName != "--pipeline" {
      FlagValueSkip(cmd, "--pipeline", 7);
    }
  }

  /** Elements before the first occurrence of the flag do not affect the value read. */
  lemma {:induction false} FlagValueSkip(cmd: seq<string>, flag: string, n: nat)
    requires n + 2 <= |cmd|
    requires forall i :: 0 <= i < n ==> cmd[i] != flag
    ensures FlagValue(cmd, flag) == FlagValue(cmd[n..], flag)
  {
    if n > 0 {
      FlagValueSkip(cmd[1..], flag, n - 1);
      assert cmd[1..][n - 1..] == cmd[n..];
    }
  }

  /** `launch_nohup`'s command line. */
  function NohupCommand(command: seq<string>): seq<string> {
    ["nohup"] + command
  }

  /** The command-line options of `sophia.py`, paths already resolved. */
  datatype Args = Args(runFolder: Path, dryRun: bool, sheetRoot: Path, nohupLog: Option<Path>)

  /** Whether starting the detached process (with its log redirection) succeeded, and its PID. */
  datatype Spawn = Spawned(pid: int) | SpawnFailed

  /** What preparation produces: the SampleSheet used, its details, and the upload command. */
  datatype Prepared = Prepared(sheet: Path, details: Details, command: seq<string>)

  /** The `try` block of `main` and the two directory checks before it. */
  function Prepare(env: Env, args: Args, scriptDir: Path, pipelineId: string): Result<Prepared, PrepError> {
    if !env.IsDir(args.runFolder) then Err(RunFolderMissing(args.runFolder))
    else if !env.IsDir(args.sheetRoot) then Err(SheetRootMissing(args.sheetRoot))
    else
      var sheet := SampleSheetPath(args.runFolder.Name(), args.sheetRoot);
      if !env.Exists(sheet) then Err(SheetMissing(sheet))
      else if sheet !in env.files then Err(SheetIsDirectory(sheet))
      else match ExtractExperimentDetails(env.files[sheet])
        case Err(e) => Err(BadSheet(e))
        case Ok(details) =>
          match BuildUploadCommand(env, args.runFolder, scriptDir, details.experimentName, pipelineId)
          case Err(e) => Err(e)
          case Ok(command) => Ok(Prepared(sheet, details, command))
  }

  /**
   Preparation succeeds exactly when the run folder, the SampleSheet root,
   the SampleSheet file, a parsable experiment entry, the BaseCalls directory
   and the wrapper script are all there; it then carries that sheet, its
   details and the upload command for the extracted experiment name.
   */
  lemma PrepareSucceeds(env: Env, args: Args, scriptDir: Path, pipelineId: string)
    ensures var sheet := SampleSheetPath(args.runFolder.Name(), args.sheetRoot);
      Prepare(env, args, scriptDir, pipelineId).Ok? <==>
        && env.IsDir(args.runFolder)
        && env.IsDir(args.sheetRoot)
        && sheet in env.files
        && ExtractExperimentDetails(env.files[sheet]).Ok?
        && env.IsDir(BaseCallsPath(args.runFolder))
        && env.Exists(scriptDir.Join(WrapperScriptName))
    ensures var sheet := SampleSheetPath(args.runFolder.Name(), args.sheetRoot);
      Prepare(env, args, scriptDir, pipelineId).Ok? ==>
        var d := ExtractExperimentDetails(env.files[sheet]).value;
        Prepare(env, args, scriptDir, pipelineId).value
          == Prepared(sheet, d, BuildUploadCommand(env, args.runFolder, scriptDir, d.experimentName, pipelineId).value)
  {
  }

  /**
   The steps of preparation fail in a fixed order: run folder, SampleSheet
   root, SampleSheet, its experiment entry, BaseCalls, wrapper script. The
   error reported is the first failing step's.
   */
  lemma PrepareErrorOrder(env: Env, args: Args, scriptDir: Path, pipelineId: string)
    ensures var r := Prepare(env, args, scriptDir, pipelineId);
      var sheet := SampleSheetPath(args.runFolder.Name(), args.sheetRoot);
      var basecalls := BaseCallsPath(args.runFolder);
      var wrapper := scriptDir.Join(WrapperScriptName);
      var dirsOk := env.IsDir(args.runFolder) && env.IsDir(args.sheetRoot);
      var parsed := dirsOk && sheet in env.files && ExtractExperimentDetails(env.files[sheet]).Ok?;
      && (!env.IsDir(args.runFolder) ==> r == Err(RunFolderMissing(args.runFolder)))
      && (env.IsDir(args.runFolder) && !env.IsDir(args.sheetRoot) ==> r == Err(SheetRootMissing(args.sheetRoot)))
      && (dirsOk && !env.Exists(sheet) ==> r == Err(SheetMissing(sheet)))
      && (dirsOk && env.Exists(sheet) && sheet !in env.files ==> r == Err(SheetIsDirectory(sheet)))
      && (dirsOk && sheet in env.files && !parsed ==> r == Err(BadSheet(ExtractExperimentDetails(env.files[sheet]).error)))
      && (parsed && !env.IsDir(basecalls) ==> r == Err(BaseCallsMissing(basecalls)))
      && (parsed && env.IsDir(basecalls) && !env.Exists(wrapper) ==> r == Err(WrapperMissing(wrapper)))
  {
  }

  /** How one invocation of `main` ends. */
  datatype Ending =
    | PrepFailed(error: PrepError)
    | DryRun(prepared: Prepared)
    | LaunchFailed(prepared: Prepared, command: seq<string>)
    | Launched(prepared: Prepared, command: seq<string>, cwd: Path, log: Option<Path>, pid: int)

  function ExitCode(o: Ending): int {
    if o.PrepFailed? || o.LaunchFailed? then 1 else 0
  }

  /** `main`: prepare, then stop on an error, stop after showing the command on a dry run, or launch. */
  function Execute(env: Env, args: Args, scriptDir: Path, pipelineId: string, spawn: Spawn): Ending {
    match Prepare(env, args, scriptDir, pipelineId)
    case Err(e) => PrepFailed(e)
    case Ok(p) =>
      if args.dryRun then DryRun(p)
      else
        var command := NohupCommand(p.command);
        match spawn
        case SpawnFailed => LaunchFailed(p, command)
        case Spawned(pid) => Launched(p, command, args.runFolder, args.nohupLog, pid)
  }

  /** Any preparation error ends with status 1 and nothing is launched, whatever the flags. */
  lemma PrepErrorExitsBeforeLaunch(env: Env, args: Args, scriptDir: Path, pipelineId: string, spawn: Spawn)
    requires Prepare(env, args, scriptDir, pipelineId).Err?
    ensures var o := Execute(env, args, scriptDir, pipelineId, spawn);
      o == PrepFailed(Prepare(env, args, scriptDir, pipelineId).error) && ExitCode(o) == 1
  {
  }

  /** A dry run never starts a process: the outcome does not depend on the spawn and is never a launch. */
  lemma DryRunNeverLaunches(env: Env, args: Args, scriptDir: Path, pipelineId: string, spawn: Spawn, other: Spawn)
    requires args.dryRun
    ensures var o := Execute(env, args, scriptDir, pipelineId, spawn);
      && o == Execute(env, args, scriptDir, pipelineId, other)
      && !o.Launched? && !o.LaunchFailed?
  {
  }

  /**
   Without the BaseCalls directory nothing is launched; when the earlier steps
   succeed, the error reported is the missing BaseCalls directory.
   */
  lemma MissingBaseCallsStops(env: Env, args: Args, scriptDir: Path, pipelineId: string, spawn: Spawn)
    requires !env.IsDir(BaseCallsPath(args.runFolder))
    ensures Execute(env, args, scriptDir, pipelineId, spawn).PrepFailed?
    ensures var sheet := SampleSheetPath(args.runFolder.Name(), args.sheetRoot);
      env.IsDir(args.runFolder) && env.IsDir(args.sheetRoot) && sheet in env.files
      && ExtractExperimentDetails(env.files[sheet]).Ok?
      ==> Execute(env, args, scriptDir, pipelineId, spawn).error == BaseCallsMissing(BaseCallsPath(args.runFolder))
  {
  }

  /**
   After a successful preparation without `--dry-run`, `nohup` + the upload
   command is started: a started process ends the run with status 0, a failed
   start with status 1.
   */
  lemma PreparedLaunches(env: Env, args: Args, scriptDir: Path, pipelineId: string, spawn: Spawn)
    requires Prepare(env, args, scriptDir, pipelineId).Ok? && !args.dryRun
    ensures var p := Prepare(env, args, scriptDir, pipelineId).value;
      var o := Execute(env, args, scriptDir, pipelineId, spawn);
      && (spawn.Spawned? ==> o == Launched(p, NohupCommand(p.command), args.runFolder, args.nohupLog, spawn.pid) && ExitCode(o) == 0)
      && (spawn.SpawnFailed? ==> o == LaunchFailed(p, NohupCommand(p.command)) && ExitCode(o) == 1)
  {
  }

  /** A dry run after a successful preparation shows the prepared command and exits 0. */
  lemma DryRunShowsCommand(env: Env, args: Args, scriptDir: Path, pipelineId: string, spawn: Spawn)
    requires Prepare(env, args, scriptDir, pipelineId).Ok? && args.dryRun
    ensures var o := Execute(env, args, scriptDir, pipelineId, spawn);
      o == DryRun(Prepare(env, args, scriptDir, pipelineId).value) && ExitCode(o) == 0
  {
  }

  /**
   A launch runs `nohup` followed by the upload command, in the run folder,
   with the requested log; that command names the BaseCalls folder and the
   experiment name read from the run's SampleSheet.
   */
  lemma LaunchedCommand(env: Env, args: Args, scriptDir: Path, pipelineId: string, spawn: Spawn)
    requires Execute(env, args, scriptDir, pipelineId, spawn).Launched?
    ensures var o := Execute(env, args, scriptDir, pipelineId, spawn);
      var sheet := SampleSheetPath(args.runFolder.Name(), args.sheetRoot);
      && o.command[0] == "nohup"
      && o.command[1..] == o.prepared.command
      && o.cwd == args.runFolder
      && o.log == args.nohupLog
      && o.prepared.sheet == sheet
      && sheet in env.files
      && ExtractExperimentDetails(env.files[sheet]) == Ok(o.prepared.details)
      && FlagValue(o.prepared.command, "--ref") == Some(o.prepared.details.experimentName)
      && FlagValue(o.prepared.command, "--folder") == Some(PathText(BaseCallsPath(args.runFolder)))
      && ExitCode(o) == 0
  {
    var o := Execute(env, args, scriptDir, pipelineId, spawn);
    var d := o.prepared.details;
    UploadCommandReadBack(env, args.runFolder, scriptDir, d.experimentName, pipelineId);
  }
}
