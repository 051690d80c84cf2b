# SOPHiA CLI helper scripts, modelled in Dafny

Three small Python scripts sit around the SOPHiA Genetics upload CLI:

- `sophia.py` launches an upload for one sequencing run. It finds the run's
  SampleSheet and reads the experiment name and BDS identifier from its
  `Experiment Name` row. It then builds the wrapper's `new ... --upload`
  command and starts that command detached under `nohup`. On a dry run it
  only shows the command.
- `validate.py` is the daily validator. It runs four checks against the
  wrapper CLI in a fixed order: IAM login, recent runs listed, pipeline
  available, and the FASTQ error cases. The first failure ends the run with
  status 1.
- `sg-upload-v2-wrapper.py` keeps the uploader jar current by comparing MD5
  checksums. It then runs `java` on the jar, with the `-D` arguments placed
  before `-jar` and the other arguments after it. It exits with the JVM's
  return code.

Each script's logic is written here as pure Dafny functions over strings
and sequences, with no effects. Lemmas state what each script promises: what
gets downloaded, run or launched, what each check accepts, and which status
the script exits with. Everything the scripts get from outside becomes a
plain input:

- the network answer (`Updater.Fetch`);
- the jar's digest (`Option<string>`);
- whether the download completed;
- the JVM's return code;
- the filesystem (`Sophia.Env`: the directories that exist and the already
  tokenised rows of each file);
- whether spawning the detached process worked (`Sophia.Spawn`);
- what the CLI prints and returns for a command line (`Validator.Cli`);
- the YAML configuration (`Validator.Config`).

Files:

| file | module | contents |
|---|---|---|
| `common.dfy` | `Common` | `Option`, `Result` and `Outcome` datatypes, and the 0/1 exit convention |
| `text.dfy` | `Text` | the Python `str` operations the scripts use: `strip()`, `lower()`, `startswith()`, `in`, `partition()`, `splitlines()` and `str()` of an integer. Each comes with lemmas that say what its result is without repeating how it is computed |
| `sophia.dfy` | `Sophia` | SampleSheet location and parsing, the upload command, and the control flow of `main` |
| `validate.dfy` | `Validator` | combined output, the four checks, and their sequencing |
| `wrapper.dfy` | `Updater` | the update decision, `build_command`, and the run trace of `main` |

## Model

| member | source | states |
|---|---|---|
| Text.StripIsPadded | sophia.py:105-108 | `strip()` leaves no whitespace at either end. The result sits inside the input with only whitespace before and after it. |
| Text.StripUnique | sophia.py:105-108 | Any whitespace-free-ended string that sits inside `s` with only whitespace around it is `strip(s)`. With `StripIsPadded`, this characterises `strip()` completely. |
| Text.StripPadded | sg-upload-v2-wrapper.py:78-79 | Stripping whitespace + `x` + whitespace, for a stripped `x`, gives back exactly `x`. |
| Text.LowerMeans | sophia.py:105 | `lower()` keeps the length and leaves no capital `A`-`Z`. It keeps every other character, and turns each capital into the small letter at the same place in the alphabet. |
| Text.LowerIdempotent | sophia.py:105 | Lower-casing twice gives the same as lower-casing once. |
| Text.StartsWithIff | sg-upload-v2-wrapper.py:60-61 | `s.startswith(p)` holds exactly when `s` is `p` followed by some rest. |
| Text.StripIdempotent | sg-upload-v2-wrapper.py:78-80 | Stripping an already stripped checksum changes nothing. |
| Text.ContainsIffOccurs | validate.py:121 | The scan behind `needle in hay` answers true exactly when `needle` occurs at some index of `hay`, in both directions. |
| Text.ContainsInfix | validate.py:184 | A string is always found in a text that has it as an infix. |
| Text.Partition | sophia.py:109 | `partition("_")` returns head + separator + tail equal to the input. The head has no `_`. The separator is empty or `_`, and an empty separator means `_` does not occur and the tail is empty. |
| Text.SplitLines | validate.py:141 | No line produced by `splitlines()` contains a line boundary. |
| Text.SplitJoinLines | validate.py:141 | `splitlines()` of newline-terminated, boundary-free lines gives back exactly those lines. |
| Text.SplitEndedLines | validate.py:141 | Lines laid out each with its own boundary (`"\r\n"` or any single boundary character), followed by an unterminated rest, split back into exactly those lines. The rest becomes a last line when it is not empty. A lone `"\r"` before an empty line ended by `"\n"` is excluded, because the two read as one `"\r\n"`. |
| Text.SplitUnterminatedLast | validate.py:141 | A last line without a newline is still a line of its own. |
| Text.SplitCrlfLines | validate.py:141 | Lines ended by `"\r\n"` split back to themselves: the pair is a single boundary. |
| Text.SplitLinesCovers | validate.py:141 | Every text is exactly its `splitlines()` lines, each followed by the boundary that ended it, then the unterminated rest. Nothing is lost or added. |
| Text.NatToDecimal | validate.py:131 | `str(n)` for `n >= 0` is a non-empty string of digits with no leading zero unless `n == 0`. |
| Text.DecimalRoundTrip | validate.py:131 | Reading the digits `str(n)` prints gives back `n`. |
| Text.IntToDecimalRoundTrip | validate.py:131 | `str(i)` starts with `-` exactly when `i < 0`. The rest is digits whose value is `abs(i)`. |
| Updater.FilterIsSubsequence | sg-upload-v2-wrapper.py:60-61 | A list comprehension with a condition yields an order-preserving subsequence of its input. |
| Updater.FilterMultiplicity | sg-upload-v2-wrapper.py:60-61 | It keeps every copy of each accepted element and no copy of any other. |
| Updater.FilterKeeps | sg-upload-v2-wrapper.py:60 | Every element it yields satisfies the condition. |
| Updater.BuildCommandParses | sg-upload-v2-wrapper.py:57-63 | Reading the built command as a JVM does gives `java`, then exactly the `-D` arguments as properties, then `-jar sg-upload-v2-latest.jar`, then exactly the remaining arguments. |
| Updater.PartitionPreservesArguments | sg-upload-v2-wrapper.py:60-61 | The `-D` arguments and the other arguments are each order-preserving subsequences of `argv`. Each argument's copies all land on the side its kind decides. Only the non-`-D` copies of `argv[0]` are lost. |
| Updater.BuildCommandLength | sg-upload-v2-wrapper.py:59-62 | The command has 3 fixed words plus every argument except the dropped non-`-D` copies of `argv[0]`. |
| Updater.SameChecksumNoDownload | sg-upload-v2-wrapper.py:78-86 | Equal checksums never cause a download. |
| Updater.DifferentChecksumDownloads | sg-upload-v2-wrapper.py:73-83 | A non-empty remote checksum that differs from the local one after stripping causes a download. |
| Updater.TrailingNewlineUpToDate | sg-upload-v2-wrapper.py:78-86 | A remote checksum file ending in a newline still matches the jar's bare digest, so there is no download. |
| Updater.ExecuteTrace | sg-upload-v2-wrapper.py:66-95 | One invocation downloads at most once and runs at most one command. That command is always the built one, and it comes after any download. |
| Updater.ExecuteExitCode | sg-upload-v2-wrapper.py:88-95 | The exit status is the JVM's return code whenever the command ran, and 1 whenever it did not. |
| Updater.ExecuteRuns | sg-upload-v2-wrapper.py:66-95 | Once a checksum text is in hand and any download it calls for completes, the built command runs, after the download if there was one. The JVM's return code is then the exit status. |
| Updater.UpToDateRunsExisting | sg-upload-v2-wrapper.py:78-95 | When the 200 answer matches the jar's digest, nothing is downloaded. The existing jar runs, and its return code is the exit status. |
| Updater.FailedDownloadStops | sg-upload-v2-wrapper.py:70-83 | A download that raises ends the process with status 1, and nothing runs. |
| Updater.ExecuteDownloadsIff | sg-upload-v2-wrapper.py:68-86 | Unless the server answers with a success status other than 200, a download happens exactly when the remote checksum is non-empty and the local one is empty or differs after stripping. |
| Updater.ConnectionErrorFailsOpen | sg-upload-v2-wrapper.py:27-34 | A failed connection gives an empty remote checksum. There is then no download, and the existing jar runs with the caller's arguments. |
| Updater.HttpErrorFailsOpen | sg-upload-v2-wrapper.py:20-34 | A status outside 200-299 makes `urlopen` raise. That is handled like a failed connection: no update happens, and the existing jar runs. |
| Updater.StatusNotOkStops | sg-upload-v2-wrapper.py:20-24 | A 2xx status other than 200 ends with status 1 before anything is downloaded or run. |
| Updater.MissingJarDownloads | sg-upload-v2-wrapper.py:73-76 | Without a local jar, a non-empty remote checksum forces a download before the run. |
| Sophia.SampleSheetPathShape | sophia.py:89 | The SampleSheet candidate lies directly in the root. Its name is the run folder's name followed by `_SampleSheet.csv`. |
| Sophia.IsLabelRowIff | sophia.py:105 | A row is the label row exactly when its first cell is, up to surrounding whitespace, a string that lower-cases to `experiment name`. |
| Sophia.SplitExperimentSound | sophia.py:108-116 | On success, experiment name + `_` + BDS identifier is the raw value. Both parts are non-empty, and the name has no `_`. |
| Sophia.SplitExperimentComplete | sophia.py:109-116 | Every `prefix_suffix` with a non-empty, underscore-free prefix and a non-empty suffix splits into exactly that prefix and suffix. The suffix may itself contain `_`. |
| Sophia.SplitExperimentIff | sophia.py:109-113 | The split succeeds exactly when the first `_` has at least one character on each side. |
| Sophia.MalformedValuesRejected | sophia.py:110-113 | `X`, `_X` and `X_` are rejected as lacking the BDS component. |
| Sophia.ExtractUsesFirstLabelRow | sophia.py:104-116 | The first label row alone decides the outcome: its stripped value cell, or not found when that cell is missing or blank. |
| Sophia.BlankValueNotFound | sophia.py:106-107 | A first label row with a missing or blank value cell means not found, whatever rows follow. |
| Sophia.ExtractWithoutLabelRow | sophia.py:118-120 | A sheet without a label row gives the not-found error. |
| Sophia.ExtractIgnoresLaterRows | sophia.py:104-107 | Rows after the first label row never change the outcome. |
| Sophia.ExtractOkMeans | sophia.py:105-116 | A successful extraction comes from the first label row. Its raw value is that row's stripped second cell, and the value is split at its first `_` into two non-empty parts. |
| Sophia.LabelCellRecognised | sophia.py:105 | The cell `Experiment Name`, as the sheet writes it, is recognised as the label. |
| Sophia.ValueCellSplits | sophia.py:108-116 | An unpadded value cell `prefix_suffix` yields that prefix, that suffix and that raw value. |
| Sophia.ExtractAfterHeader | sophia.py:104-107 | After rows that are not label rows, a label row decides the outcome by its value cell. |
| Sophia.Run42Value | sophia.py:108-116 | The value `RUN42_BDS007` yields experiment `RUN42` and identifier `BDS007`. |
| Sophia.Run42Example | sophia.py:97-120 | A sheet whose first label row is `Experiment Name,RUN42_BDS007` yields `("RUN42", "BDS007", "RUN42_BDS007")`. |
| Sophia.BuildUploadCommand | sophia.py:123-146 | The command is built exactly when the BaseCalls directory exists and the wrapper script exists. A missing BaseCalls directory is reported first, then a missing wrapper. The command is then the exact 10-word vector. |
| Sophia.UploadCommandReadBack | sophia.py:135-146 | Reading the command back finds the BaseCalls folder after `--folder` and the experiment name after `--ref`. It finds the pipeline id after `--pipeline` unless the experiment name is itself `--pipeline`. |
| Sophia.PrepareSucceeds | sophia.py:212-235 | Preparation succeeds exactly when these all hold: the run folder and the SampleSheet root are directories, the SampleSheet is a file, its experiment entry parses, BaseCalls is a directory and the wrapper exists. The result then carries that sheet, its details and the upload command for the extracted name. |
| Sophia.PrepareErrorOrder | sophia.py:212-235 | Preparation checks in a fixed order: run folder, SampleSheet root, SampleSheet, experiment entry, BaseCalls, wrapper. The error reported is that of the first failing step. |
| Sophia.PrepErrorExitsBeforeLaunch | sophia.py:228-235 | Any preparation error ends with status 1 and launches nothing. |
| Sophia.DryRunNeverLaunches | sophia.py:245-246 | A dry run never launches. Its outcome does not depend on what spawning would do. |
| Sophia.PreparedLaunches | sophia.py:245-262 | After a successful preparation without `--dry-run`, `nohup` plus the upload command is started in the run folder with the requested log. A started process exits 0. A failed start exits 1. |
| Sophia.DryRunShowsCommand | sophia.py:237-246 | A dry run after a successful preparation ends with the prepared command shown and status 0. |
| Sophia.MissingBaseCallsStops | sophia.py:124-128 | Without the BaseCalls directory nothing is launched. When the earlier steps succeed, the error is the missing BaseCalls directory. |
| Sophia.LaunchedCommand | sophia.py:149-166 | A launch runs `nohup` followed by the upload command, in the run folder, with the requested log. It exits 0. The command names the BaseCalls folder and the experiment name extracted from the run's SampleSheet. |
| Validator.CombinedOutput | validate.py:75 | Combined output is standard output followed by standard error. A missing stream contributes nothing. |
| Validator.CheckLoginPassIff | validate.py:113-126 | The login check passes exactly when the exit code is 0 and the expected message occurs in the output. |
| Validator.MatchesRunLineIff | validate.py:142 | The one-pass line scan accepts exactly the lines that `^\s*\d+:\s+\S+` matches at their start: optional whitespace, digits, a colon, whitespace, then a non-space. |
| Validator.RunLineCountIsPatternCount | validate.py:139-143 | The number of lines counted equals the number of lines the pattern matches. |
| Validator.StatusLineMatches | validate.py:138-142 | A line `<number>: <status>` matches the pattern. |
| Validator.CheckRecentRunsPassIff | validate.py:129-150 | The recent-runs check passes exactly when the exit code is 0 and at least the configured number of output lines match the pattern. |
| Validator.CheckPipelinePassIff | validate.py:197-210 | The pipeline check passes exactly when the exit code is 0 and the pipeline id occurs in the output. |
| Validator.FirstMissingKey | validate.py:163-167 | Finds the first key, in checking order, that the mapping lacks. Every key before it is present. No key is reported exactly when all are present. |
| Validator.CheckCase | validate.py:157-161 | A case that is not a mapping fails with its 1-based index and runs nothing. |
| Validator.CheckCaseMissingKey | validate.py:163-167 | A mapping fails for a missing key exactly when one of `label`, `folder`, `expected_error` is absent. The key reported is the first absent one in that order, and nothing runs. |
| Validator.CheckCasePassIff | validate.py:169-194 | A well-formed case runs exactly the one FASTQ command. It passes exactly when the expected error occurs in the output and the exit code is non-zero. A missing error text is the failure reported, even when the exit code is 0. |
| Validator.RunUntilFailurePassIff | validate.py:157-194 | The FASTQ loop passes exactly when every case passes, and then every case's command has run, in list order. |
| Validator.RunUntilFailureStops | validate.py:157-194 | When case `j` is the first to fail, its failure is reported and only cases `0..j` ran. |
| Validator.ValidatePassIff | validate.py:213-226 | The run passes exactly when all of these pass: login, recent runs, pipeline, and every FASTQ case. |
| Validator.ExitCodeIff | validate.py:219-222 | The process exits with 0 exactly when the run passed, and with 1 otherwise. |
| Validator.ValidateStopsAtFirstFailure | validate.py:213-222 | Checks run in the order login, recent runs, pipeline, FASTQ. The first failing check is the one reported, and nothing after it runs. |
| Validator.FastqStopsAtFirstFailure | validate.py:157-194 | When case `j` is the first failing case, the FASTQ check reports that case's failure, and only the commands of cases up to `j` ran. |
| Validator.LoginMessageMissingScenario | validate.py:121-126 | If the login command exits 0 without the expected message, the run fails at the login check after running only the login command. |
| Validator.ExitedZeroScenario | validate.py:184-194 | If a case prints its expected error but exits 0, it fails as "did not return an error exit code". |

## Left out

- Network I/O: the HTTPS fetch, the TLS context override and the jar download. The fetch is an input (`Updater.Fetch`).
- HTTP redirects. `urlopen` follows them, and `Response(status, ...)` carries the final status only.
- Why a download fails. Only whether it completes is an input (`Updater.Execute`'s `downloadCompletes`). An exception in `download_latest_uploader` is not caught, so a failed download is fatal: the process ends with status 1 and the JVM never runs.
- MD5 hashing and reading the jar. The local digest is an opaque input, absent when the jar file is missing.
- Processes: `subprocess.run` and `Popen`, `nohup` detaching, opening log files and creating their parent directories, and PIDs. Their outcomes are inputs. A missing `java` binary is not modelled: it would raise in `subprocess.run`, and the wrapper does not catch that.
- Exit status. The model records the argument given to `sys.exit`. The operating system's truncation of that value to 8 bits is not modelled.
- `sys.argv`. It always has at least one element, so `Updater.Execute` requires `|argv| >= 1`.
- CSV tokenisation, quoting and decoding. SampleSheet rows arrive already split into cells. A `csv.Error` or a decoding error is not modelled.
- Opening a SampleSheet path that is a directory. `open()` raises an error that `main` does not catch. It is modelled as the preparation error `SheetIsDirectory`, because the status is 1 either way.
- Path handling: `expanduser`, `resolve` and symlinks. Paths arrive resolved, as component sequences, and `str(path)` is the components joined by `/`.
- argparse, and YAML loading with its type checks (`load_config`, the configuration keys, `int(...)` and `str(...)` of configuration values). The configuration arrives typed. FASTQ case values are strings.
- Syslog loggers, `log_error`, `log_validation_failure` and all `print` output.
- The general `re` engine. The one pattern `^\s*\d+:\s+\S+` is written out by hand.
- Text.Lower: ASCII letters only. Python's `lower()` also folds non-ASCII letters.
- Validator.MatchesRunLine: `\d` is ASCII digits only. Python's `\d` also matches other Unicode decimal digits. `\s` and `strip()` use Python's full whitespace set.
