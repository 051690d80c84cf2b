/**
 The daily validator `validate.py`: four checks against the wrapper CLI
 (IAM login, recent runs listed, pipeline available, FASTQ error handling),
 run in that order, the first failure ending the run with status 1.

 The CLI is an input: a total function from a command line to what
 `subprocess.run` captured. The YAML configuration is an input too.
 */
module Validator {
  import opened Common
  import opened Text

  /** What `subprocess.run(..., capture_output=True, text=True)` captured. */
  datatype Completed = Completed(returnCode: int, stdout: Option<string>, stderr: Option<string>)

  /** The streams that are present and non-empty (`filter(None, ...)`). */
  function Present(streams: seq<Option<string>>): seq<string> {
    if streams == [] then []
    else (if streams[0].Some? && streams[0].value != "" then [streams[0].value] else []) + Present(streams[1..])
  }

  /** `"".join(parts)`. */
  function Concat(parts: seq<string>): string {
    if parts == [] then "" else parts[0] + Concat(parts[1..])
  }

  /** `run_command`'s combined output: standard output followed by standard error, absent streams contributing nothing. */
  function CombinedOutput(stdout: Option<string>, stderr: Option<string>): (r: string)
    ensures r == stdout.GetOr("") + stderr.GetOr("")
  {
    JoinPresentStreams(stdout, stderr);
    Concat(Present([stdout, stderr]))
  }

  lemma JoinPresentStreams(a: Option<string>, b: Option<string>)
    ensures Concat(Present([a, b])) == a.GetOr("") + b.GetOr("")
  {
    var streams := [a, b];
    assert streams[1..] == [b];
    assert streams[1..][1..] == [];
    var pa := if a.Some? && a.value != "" then [a.value] else [];
    var pb := if b.Some? && b.value != "" then [b.value] else [];
    assert Present(streams[1..][1..]) == [];
    assert Present(streams[1..]) == pb + [];
    assert Present(streams) == pa + pb;
    if pa == [] {
      assert pa + pb == pb;
      if pb != [] { assert Concat(pb) == b.value + Concat([]); }
    } else {
      assert (pa + pb)[1..] == pb;
      if pb != [] { assert Concat(pb) == b.value + Concat([]); }
    }
  }

  /** `run_command`'s result: the exit code and the combined output. */
  datatype CommandResult = CommandResult(exitCode: int, output: string)

  /** The wrapper CLI: what running a command line would capture. */
  type Cli = seq<string> -> Completed

  function RunCommand(cli: Cli, command: seq<string>): CommandResult {
    var c := cli(command);
    CommandResult(c.returnCode, CombinedOutput(c.stdout, c.stderr))
  }

  /** A FASTQ test case as loaded from YAML: a mapping, or anything else. */
  datatype TestCase = Mapping(entries: map<string, string>) | NotMapping

  /** The validation configuration. */
  datatype Config = Config(
    loginMessage: string,
    recentRuns: int,
    pipelineId: string,
    referenceName: string,
    fastqTests: seq<TestCase>)

  const WrapperScript: string := "sg-upload-v2-wrapper.py"

  const LoginCommand: seq<string> := ["python3", WrapperScript, "login-iam"]

  function StatusCommand(recentRuns: int): seq<string> {
    ["python3", WrapperScript, "status", "-l", IntToDecimal(recentRuns)]
  }

  const PipelineCommand: seq<string> := ["python3", WrapperScript, "pipeline", "--list"]

  /** The upload-preparation command of one FASTQ case. */
  function FastqCommand(folder: string, referenceName: string, pipelineId: string): seq<string> {
    ["python3", WrapperScript, "new", "--folder", folder, "--ref", referenceName, "--pipeline", pipelineId]
  }

  /** The `RuntimeError`s the checks raise. */
  datatype Failure =
    | CommandExited(command: seq<string>, exitCode: int, output: string)
    | LoginMessageMissing(expected: string, output: string)
    | TooFewRuns(wanted: int, found: nat, output: string)
    | PipelineMissing(pipelineId: string, output: string)
    | CaseNotMapping(index: nat)
    | CaseMissingKey(index: nat, key: string)
    | ExpectedErrorMissing(caseLabel: string, expected: string, output: string)
    | ExitedZero(caseLabel: string, output: string)

  /** `validate_login_iam`. */
  function CheckLogin(r: CommandResult, expected: string): Outcome<Failure> {
    if r.exitCode != 0 then Fail(CommandExited(LoginCommand, r.exitCode, r.output))
    else if !Contains(r.output, expected) then Fail(LoginMessageMissing(expected, r.output))
    else Pass
  }

  /** The login check passes exactly when the CLI exits with 0 and the message occurs somewhere in its output. */
  lemma CheckLoginPassIff(r: CommandResult, expected: string)
    ensures CheckLogin(r, expected).Pass? <==> r.exitCode == 0 && exists k :: OccursAt(r.output, expected, k)
  {
    ContainsIffOccurs(r.output, expected);
  }

  // ---- The status-line pattern `^\s*\d+:\s+\S+` ----

  /** End of the run of whitespace starting at `from`. */
  function SpaceRunEnd(s: string, from: nat): (k: nat)
    requires from <= |s|
    ensures from <= k <= |s|
    ensures forall m :: from <= m < k ==> IsSpace(s[m])
    ensures k < |s| ==> !IsSpace(s[k])
    decreases |s| - from
  {
    if from == |s| || !IsSpace(s[from]) then from else SpaceRunEnd(s, from + 1)
  }

  /** End of the run of digits starting at `from`. */
  function DigitRunEnd(s: string, from: nat): (k: nat)
    requires from <= |s|
    ensures from <= k <= |s|
    ensures forall m :: from <= m < k ==> IsDigit(s[m])
    ensures k < |s| ==> !IsDigit(s[k])
    decreases |s| - from
  {
    if from == |s| || !IsDigit(s[from]) then from else DigitRunEnd(s, from + 1)
  }

  /** `re.match(r"^\s*\d+:\s+\S+", line)` succeeds, decided by one left-to-right scan. */
  predicate MatchesRunLine(line: string) {
    var i := SpaceRunEnd(line, 0);
    var j := DigitRunEnd(line, i);
    && i < j < |line|
    && line[j] == ':'
    && var k := SpaceRunEnd(line, j + 1);
    && j + 1 < k < |line|
  }

  /**
   The pattern read literally: whitespace up to `i`, digits from `i` to `j`,
   a colon at `j`, whitespace from `j + 1` to `k`, a non-space at `k`.
   */
  predicate RunLineAt(line: string, i: int, j: int, k: int) {
    && 0 <= i < j < k < |line|
    && (forall m :: 0 <= m < i ==> IsSpace(line[m]))
    && (forall m :: i <= m < j ==> IsDigit(line[m]))
    && line[j] == ':'
    && j + 1 < k
    && (forall m :: j + 1 <= m < k ==> IsSpace(line[m]))
    && !IsSpace(line[k])
  }

  /** The scan accepts a line exactly when the pattern can match at its start. */
  lemma MatchesRunLineIff(line: string)
    ensures MatchesRunLine(line) <==> exists i, j, k :: RunLineAt(line, i, j, k)
  {
    var i := SpaceRunEnd(line, 0);
    var j := DigitRunEnd(line, i);
    if MatchesRunLine(line) {
      var k := SpaceRunEnd(line, j + 1);
      assert RunLineAt(line, i, j, k);
    }
    if i', j', k' :| RunLineAt(line, i', j', k') {
      assert !IsSpace(line[i']) by { assert IsDigit(line[i']); }
      assert i == i';
      assert !IsDigit(line[j']);
      assert j == j';
      assert SpaceRunEnd(line, j + 1) == k';
    }
  }

  /** The pattern as a property of a line. */
  ghost predicate IsRunLine(line: string) {
    exists i, j, k :: RunLineAt(line, i, j, k)
  }

  /** Number of lines the scan accepts. */
  function RunLineCount(lines: seq<string>): nat {
    if lines == [] then 0 else (if MatchesRunLine(lines[0]) then 1 else 0) + RunLineCount(lines[1..])
  }

  /** Number of lines the pattern matches. */
  ghost function PatternCount(lines: seq<string>): nat {
    if lines == [] then 0 else (if IsRunLine(lines[0]) then 1 else 0) + PatternCount(lines[1..])
  }

  lemma {:induction false} RunLineCountIsPatternCount(lines: seq<string>)
    ensures RunLineCount(lines) == PatternCount(lines)
  {
    if lines != [] {
      MatchesRunLineIff(lines[0]);
      RunLineCountIsPatternCount(lines[1..]);
    }
  }

  /** A line `"<number>: <status>"` as the CLI prints it. */
  lemma StatusLineMatches(digits: string, status: string)
    requires digits != [] && AllDigits(digits)
    requires status != [] && !IsSpace(status[0])
    ensures IsRunLine(digits + ": " + status)
  {
    var line := digits + ": " + status;
    assert RunLineAt(line, 0, |digits|, |digits| + 2) by {
      assert forall m :: 0 <= m < |digits| ==> line[m] == digits[m];
      assert line[|digits| + 2] == status[0];
    }
  }

  /** `validate_recent_runs_listed`. */
  function CheckRecentRuns(r: CommandResult, recentRuns: int): Outcome<Failure> {
    if r.exitCode != 0 then Fail(CommandExited(StatusCommand(recentRuns), r.exitCode, r.output))
    else
      var found := RunLineCount(SplitLines(r.output));
      if found < recentRuns then Fail(TooFewRuns(recentRuns, found, r.output))
      else Pass
  }

  /** The recent-runs check passes exactly when the CLI exits with 0 and at least the configured number of output lines match the pattern. */
  lemma CheckRecentRunsPassIff(r: CommandResult, recentRuns: int)
    ensures CheckRecentRuns(r, recentRuns).Pass?
        <==> r.exitCode == 0 && PatternCount(SplitLines(r.output)) >= recentRuns
  {
    RunLineCountIsPatternCount(SplitLines(r.output));
  }

  /** `validate_pipeline_available`. */
  function CheckPipeline(r: CommandResult, pipelineId: string): Outcome<Failure> {
    if r.exitCode != 0 then Fail(CommandExited(PipelineCommand, r.exitCode, r.output))
    else if !Contains(r.output, pipelineId) then Fail(PipelineMissing(pipelineId, r.output))
    else Pass
  }

  /** The pipeline check passes exactly when the CLI exits with 0 and the pipeline id occurs verbatim in its output. */
  lemma CheckPipelinePassIff(r: CommandResult, pipelineId: string)
    ensures CheckPipeline(r, pipelineId).Pass? <==> r.exitCode == 0 && exists k :: OccursAt(r.output, pipelineId, k)
  {
    ContainsIffOccurs(r.output, pipelineId);
  }

  // ---- FASTQ error cases ----

  /** The keys every case must have, in the order they are checked. */
  const RequiredKeys: seq<string> := ["label", "folder", "expected_error"]

  /** Position in `keys` of the first key `m` lacks. */
  function FirstMissingKey(m: map<string, string>, keys: seq<string>): (r: Option<nat>)
    ensures r.Some? ==> r.value < |keys| && keys[r.value] !in m && forall u :: 0 <= u < r.value ==> keys[u] in m
    ensures r.None? <==> forall u :: 0 <= u < |keys| ==> keys[u] in m
  {
    if keys == [] then None
    else if keys[0] !in m then Some(0)
    else match FirstMissingKey(m, keys[1..])
      case None => None
      case Some(u) => Some(u + 1)
  }

  /** What one case ran, and how it ended. */
  datatype CaseReport = CaseReport(ran: seq<seq<string>>, outcome: Outcome<Failure>)

  /** One iteration of `validate_fastq_errors`'s loop; `index` is the 1-based position of the case. */
  function CheckCase(c: TestCase, index: nat, cli: Cli, referenceName: string, pipelineId: string): (r: CaseReport)
    ensures c.NotMapping? ==> r == CaseReport([], Fail(CaseNotMapping(index)))
    ensures r.outcome.Fail? && (r.outcome.error.CaseNotMapping? || r.outcome.error.CaseMissingKey?) ==> r.ran == []
  {
    match c
    case NotMapping => CaseReport([], Fail(CaseNotMapping(index)))
    case Mapping(m) =>
      match FirstMissingKey(m, RequiredKeys)
      case Some(u) => CaseReport([], Fail(CaseMissingKey(index, RequiredKeys[u])))
      case None =>
        assert RequiredKeys[0] in m && RequiredKeys[1] in m && RequiredKeys[2] in m;
        var caseLabel := m["label"];
        var expected := m["expected_error"];
        var command := FastqCommand(m["folder"], referenceName, pipelineId);
        var r := RunCommand(cli, command);
        if !Contains(r.output, expected) then CaseReport([command], Fail(ExpectedErrorMissing(caseLabel, expected, r.output)))
        else if r.exitCode == 0 then CaseReport([command], Fail(ExitedZero(caseLabel, r.output)))
        else CaseReport([command], Pass)
  }

  /**
   A mapping case is rejected for a missing key exactly when one of the three
   required keys is absent, and the key reported is the first absent one in
   the order label, folder, expected_error; nothing is run for it.
   */
  lemma CheckCaseMissingKey(c: TestCase, index: nat, cli: Cli, referenceName: string, pipelineId: string)
    ensures var r := CheckCase(c, index, cli, referenceName, pipelineId);
      && (r.outcome.Fail? && r.outcome.error.CaseMissingKey? <==>
          c.Mapping? && exists u :: 0 <= u < |RequiredKeys| && RequiredKeys[u] !in c.entries)
      && (r.outcome.Fail? && r.outcome.error.CaseMissingKey? ==>
          && r.ran == [] && r.outcome.error.index == index
          && exists u :: 0 <= u < |RequiredKeys| && r.outcome.error.key == RequiredKeys[u]
               && RequiredKeys[u] !in c.entries && forall v :: 0 <= v < u ==> RequiredKeys[v] in c.entries)
  {
  }

  /** A case with all keys present. */
  predicate WellFormed(c: TestCase) {
    c.Mapping? && "label" in c.entries && "folder" in c.entries && "expected_error" in c.entries
  }

  /**
   A case passes exactly when it is a complete mapping, its expected error
   occurs in the CLI's output and the CLI exits non-zero; a missing error text
   is the failure reported even when the exit code is 0.
   */
  lemma CheckCasePassIff(c: TestCase, index: nat, cli: Cli, referenceName: string, pipelineId: string)
    ensures var report := CheckCase(c, index, cli, referenceName, pipelineId);
      && (report.outcome.Pass? <==>
          && WellFormed(c)
          && var r := RunCommand(cli, FastqCommand(c.entries["folder"], referenceName, pipelineId));
          && (exists k :: OccursAt(r.output, c.entries["expected_error"], k))
          && r.exitCode != 0)
      && (WellFormed(c) ==>
          var r := RunCommand(cli, FastqCommand(c.entries["folder"], referenceName, pipelineId));
          && report.ran == [FastqCommand(c.entries["folder"], referenceName, pipelineId)]
          && (!Contains(r.output, c.entries["expected_error"]) ==>
               report.outcome == Fail(ExpectedErrorMissing(c.entries["label"], c.entries["expected_error"], r.output))))
  {
    if c.Mapping? {
      var m := c.entries;
      var first := FirstMissingKey(m, RequiredKeys);
      assert RequiredKeys[0] == "label" && RequiredKeys[1] == "folder" && RequiredKeys[2] == "expected_error";
      if WellFormed(c) {
        assert forall u :: 0 <= u < |RequiredKeys| ==> RequiredKeys[u] in m;
        var r := RunCommand(cli, FastqCommand(m["folder"], referenceName, pipelineId));
        ContainsIffOccurs(r.output, m["expected_error"]);
      }
    }
  }

  /** The report of every case, each checked with its 1-based index. */
  function CaseReports(cases: seq<TestCase>, cli: Cli, referenceName: string, pipelineId: string): (rs: seq<CaseReport>)
    ensures |rs| == |cases|
    ensures forall k :: 0 <= k < |cases| ==> rs[k] == CheckCase(cases[k], k + 1, cli, referenceName, pipelineId)
  {
    seq(|cases|, k requires 0 <= k < |cases| => CheckCase(cases[k], k + 1, cli, referenceName, pipelineId))
  }

  /** `validate_fastq_errors`'s loop over the cases' reports: the first failure ends it. */
  function RunUntilFailure(rs: seq<CaseReport>): CaseReport {
    if rs == [] then CaseReport([], Pass)
    else if rs[0].outcome.Fail? then rs[0]
    else
      var rest := RunUntilFailure(rs[1..]);
      CaseReport(rs[0].ran + rest.ran, rest.outcome)
  }

  /** The commands of all the given reports, in order. */
  function AllRan(rs: seq<CaseReport>): seq<seq<string>> {
    if rs == [] then [] else rs[0].ran + AllRan(rs[1..])
  }

  predicate AllPass(rs: seq<CaseReport>) {
    forall k :: 0 <= k < |rs| ==> rs[k].outcome.Pass?
  }

  /** The loop passes exactly when every case passes, and then every case has run. */
  lemma {:induction false} RunUntilFailurePassIff(rs: seq<CaseReport>)
    ensures RunUntilFailure(rs).outcome.Pass? <==> AllPass(rs)
    ensures AllPass(rs) ==> RunUntilFailure(rs).ran == AllRan(rs)
  {
    if rs != [] {
      RunUntilFailurePassIff(rs[1..]);
      assert forall k :: 1 <= k < |rs| ==> rs[k] == rs[1..][k - 1];
    }
  }

  /** On failure at `j`, the reported failure is case `j`'s, and no case after it ran. */
  lemma {:induction false} RunUntilFailureStops(rs: seq<CaseReport>, j: nat)
    requires j < |rs| && rs[j].outcome.Fail? && AllPass(rs[..j])
    ensures RunUntilFailure(rs).outcome == rs[j].outcome
    ensures RunUntilFailure(rs).ran == AllRan(rs[..j + 1])
  {
    if j == 0 {
      assert rs[..1][1..] == [];
    } else {
      assert rs[..j][0] == rs[0];
      var tl := rs[1..];
      assert tl[j - 1] == rs[j];
      var before := tl[..j - 1];
      assert forall k :: 0 <= k < |before| ==> before[k] == rs[..j][k + 1];
      RunUntilFailureStops(tl, j - 1);
      assert rs[..j + 1][0] == rs[0];
      assert rs[..j + 1][1..] == tl[..j];
    }
  }

  /** Case `j` is the first that fails. */
  predicate FirstFailingCase(cases: seq<TestCase>, j: int, cli: Cli, referenceName: string, pipelineId: string) {
    && 0 <= j < |cases|
    && CheckCase(cases[j], j + 1, cli, referenceName, pipelineId).outcome.Fail?
    && forall k :: 0 <= k < j ==> CheckCase(cases[k], k + 1, cli, referenceName, pipelineId).outcome.Pass?
  }

  // ---- The whole run ----

  /** The commands run, in order, and the overall outcome. */
  datatype Report = Report(ran: seq<seq<string>>, outcome: Outcome<Failure>)

  /** The four checks of `main`, each on what the CLI returns for its command. */
  function LoginCheck(cfg: Config, cli: Cli): Outcome<Failure> {
    CheckLogin(RunCommand(cli, LoginCommand), cfg.loginMessage)
  }

  function RecentRunsCheck(cfg: Config, cli: Cli): Outcome<Failure> {
    CheckRecentRuns(RunCommand(cli, StatusCommand(cfg.recentRuns)), cfg.recentRuns)
  }

  function PipelineCheck(cfg: Config, cli: Cli): Outcome<Failure> {
    CheckPipeline(RunCommand(cli, PipelineCommand), cfg.pipelineId)
  }

  function FastqCheck(cfg: Config, cli: Cli): CaseReport {
    RunUntilFailure(CaseReports(cfg.fastqTests, cli, cfg.referenceName, cfg.pipelineId))
  }

  /** `main`: the four checks in order; the first failure ends the run. */
  function Validate(cfg: Config, cli: Cli): Report {
    var status := StatusCommand(cfg.recentRuns);
    match LoginCheck(cfg, cli)
    case Fail(e) => Report([LoginCommand], Fail(e))
    case Pass =>
      match RecentRunsCheck(cfg, cli)
      case Fail(e) => Report([LoginCommand, status], Fail(e))
      case Pass =>
        match PipelineCheck(cfg, cli)
        case Fail(e) => Report([LoginCommand, status, PipelineCommand], Fail(e))
        case Pass =>
          var fastq := FastqCheck(cfg, cli);
          Report([LoginCommand, status, PipelineCommand] + fastq.ran, fastq.outcome)
  }

  /** The process exit status: 0 after the success line, 1 after any failure. */
  function ExitCode(report: Report): int {
    ExitStatus(report.outcome)
  }

  /** The run passes exactly when all four checks and every FASTQ case pass. */
  lemma ValidatePassIff(cfg: Config, cli: Cli)
    ensures var report := Validate(cfg, cli);
      && (report.outcome.Pass? <==>
          && LoginCheck(cfg, cli).Pass?
          && RecentRunsCheck(cfg, cli).Pass?
          && PipelineCheck(cfg, cli).Pass?
          && forall k :: 0 <= k < |cfg.fastqTests| ==>
               CheckCase(cfg.fastqTests[k], k + 1, cli, cfg.referenceName, cfg.pipelineId).outcome.Pass?)
  {
    RunUntilFailurePassIff(CaseReports(cfg.fastqTests, cli, cfg.referenceName, cfg.pipelineId));
  }

  /** The process exits with 0 exactly when the run passes, and with 1 otherwise. */
  lemma ExitCodeIff(report: Report)
    ensures ExitCode(report) == 0 <==> report.outcome.Pass?
    ensures ExitCode(report) == 0 || ExitCode(report) == 1
  {
  }

  /**
   Checks run in the order login, recent runs, pipeline, FASTQ cases; a failing
   check is the one reported, and nothing after it runs.
   */
  lemma ValidateStopsAtFirstFailure(cfg: Config, cli: Cli)
    ensures var report := Validate(cfg, cli);
      var login := LoginCheck(cfg, cli);
      var status := RecentRunsCheck(cfg, cli);
      var pipeline := PipelineCheck(cfg, cli);
      && report.ran[0] == LoginCommand
      && (login.Fail? ==> report == Report([LoginCommand], login))
      && (login.Pass? && status.Fail? ==> report == Report([LoginCommand, StatusCommand(cfg.recentRuns)], status))
      && (login.Pass? && status.Pass? && pipeline.Fail? ==>
            report == Report([LoginCommand, StatusCommand(cfg.recentRuns), PipelineCommand], pipeline))
      && (login.Pass? && status.Pass? && pipeline.Pass? ==>
            report == Report([LoginCommand, StatusCommand(cfg.recentRuns), PipelineCommand] + FastqCheck(cfg, cli).ran,
                             FastqCheck(cfg, cli).outcome))
  {
  }

  /** When the FASTQ check fails first at case `j`, that case's failure is reported and no later case ran. */
  lemma FastqStopsAtFirstFailure(cfg: Config, cli: Cli, j: int)
    ensures FirstFailingCase(cfg.fastqTests, j, cli, cfg.referenceName, cfg.pipelineId) ==>
      && FastqCheck(cfg, cli).outcome == CheckCase(cfg.fastqTests[j], j + 1, cli, cfg.referenceName, cfg.pipelineId).outcome
      && FastqCheck(cfg, cli).ran == AllRan(CaseReports(cfg.fastqTests[..j + 1], cli, cfg.referenceName, cfg.pipelineId))
  {
    if FirstFailingCase(cfg.fastqTests, j, cli, cfg.referenceName, cfg.pipelineId) {
      var rs := CaseReports(cfg.fastqTests, cli, cfg.referenceName, cfg.pipelineId);
      assert rs[..j + 1] == CaseReports(cfg.fastqTests[..j + 1], cli, cfg.referenceName, cfg.pipelineId);
      RunUntilFailureStops(rs, j);
    }
  }

  /** Exit code 0 with the expected login message missing fails the run at the login check, and nothing else runs. */
  lemma LoginMessageMissingScenario(cfg: Config, cli: Cli)
    requires cli(LoginCommand).returnCode == 0
    requires !Contains(RunCommand(cli, LoginCommand).output, cfg.loginMessage)
    ensures Validate(cfg, cli)
         == Report([LoginCommand], Fail(LoginMessageMissing(cfg.loginMessage, RunCommand(cli, LoginCommand).output)))
  {
  }

  /** A rejected-input case whose CLI prints the expected error but exits with 0 fails as "did not return an error exit code". */
  lemma ExitedZeroScenario(m: map<string, string>, index: nat, cli: Cli, referenceName: string, pipelineId: string)
    requires "label" in m && "folder" in m && "expected_error" in m
    requires m["expected_error"] == "No FASTQ files found"
    requires var c := cli(FastqCommand(m["folder"], referenceName, pipelineId));
      c.returnCode == 0 && c.stdout == Some("Error: No FASTQ files found\n") && c.stderr == None
    ensures CheckCase(Mapping(m), index, cli, referenceName, pipelineId).outcome
         == Fail(ExitedZero(m["label"], "Error: No FASTQ files found\n"))
  {
    assert FirstMissingKey(m, RequiredKeys).None? by {
      assert RequiredKeys[0] == "label" && RequiredKeys[1] == "folder" && RequiredKeys[2] == "expected_error";
      assert forall u :: 0 <= u < |RequiredKeys| ==> RequiredKeys[u] in m;
    }
    var r := RunCommand(cli, FastqCommand(m["folder"], referenceName, pipelineId));
    assert r.output == "Error: No FASTQ files found\n" by {
      assert "Error: No FASTQ files found\n" + "" == "Error: No FASTQ files found\n";
    }
    NoFastqMessageContained();
  }

  lemma NoFastqMessageContained()
    ensures Contains("Error: No FASTQ files found\n", "No FASTQ files found")
  {
    assert "Error: No FASTQ files found\n" == "Error: " + "No FASTQ files found" + "\n";
    ContainsInfix("Error: ", "No FASTQ files found", "\n");
  }
}
