/**
 The self-updating launcher `sg-upload-v2-wrapper.py`: fetch the remote
 checksum, download the uploader jar when it is missing or differs, then run
 `java` on it with the caller's arguments and exit with its return code.

 The network, the MD5 of the local jar and the wrapped process are inputs:
 the fetch outcome, the jar's digest (absent when there is no file), whether
 the download completes, and the return code of `java`.
 */
module Updater {
  import opened Common
  import opened Text

  const UploaderFilename: string := "sg-upload-v2-latest.jar"

  /** The elements of `xs` that satisfy `keep`, in order (a Python list comprehension with a condition). */
  function Filter<T>(xs: seq<T>, keep: T -> bool): seq<T> {
    if xs == [] then [] else (if keep(xs[0]) then [xs[0]] else []) + Filter(xs[1..], keep)
  }

  /** `idx` lists, in increasing order, the positions of `ys` at which the elements of `xs` appear. */
  ghost predicate EmbeddedAt<T>(xs: seq<T>, ys: seq<T>, idx: seq<nat>) {
    && |idx| == |xs|
    && (forall i :: 0 <= i < |idx| ==> idx[i] < |ys| && ys[idx[i]] == xs[i])
    && (forall i, j :: 0 <= i < j < |idx| ==> idx[i] < idx[j])
  }

  /** `xs` is `ys` with some elements left out and the rest in their original order. */
  ghost predicate IsSubsequence<T>(xs: seq<T>, ys: seq<T>) {
    exists idx :: EmbeddedAt(xs, ys, idx)
  }

  /** Filtering keeps the surviving elements in their original order. */
  lemma {:induction false} FilterIsSubsequence<T>(xs: seq<T>, keep: T -> bool)
    ensures IsSubsequence(Filter(xs, keep), xs)
  {
    if xs == [] {
      assert EmbeddedAt<T>([], xs, []);
    } else {
      FilterIsSubsequence(xs[1..], keep);
      var rest := Filter(xs[1..], keep);
      var idx :| EmbeddedAt(rest, xs[1..], idx);
      assert [xs[0]] + xs[1..] == xs;
      EmbedBehind(rest, xs[0], xs[1..], idx);
      if keep(xs[0]) {
        assert Filter(xs, keep) == [xs[0]] + rest;
      } else {
        assert Filter(xs, keep) == rest;
      }
    }
  }

  /** An embedding into `ys` moves one place along in `[y] + ys`. */
  lemma EmbedBehind<T>(xs: seq<T>, y: T, ys: seq<T>, idx: seq<nat>)
    requires EmbeddedAt(xs, ys, idx)
    ensures EmbeddedAt(xs, [y] + ys, Shifted(idx))
    ensures EmbeddedAt([y] + xs, [y] + ys, [0] + Shifted(idx))
  {
    var sh := Shifted(idx);
    assert forall i :: 0 <= i < |sh| ==> ([y] + ys)[sh[i]] == ys[idx[i]];
    EmbedInFront(xs, y, [y] + ys, sh);
  }

  /** An embedding that avoids position 0 of `ys` extends to one of `[ys[0]] + xs`. */
  lemma EmbedInFront<T>(xs: seq<T>, y: T, ys: seq<T>, idx: seq<nat>)
    requires EmbeddedAt(xs, ys, idx) && ys != [] && ys[0] == y
    requires forall i :: 0 <= i < |idx| ==> 0 < idx[i]
    ensures EmbeddedAt([y] + xs, ys, [0] + idx)
  {
    var full := [0] + idx;
    assert forall i :: 0 < i < |full| ==> full[i] == idx[i - 1];
  }

  function Shifted(idx: seq<nat>): (r: seq<nat>)
    ensures |r| == |idx| && forall i :: 0 <= i < |idx| ==> r[i] == idx[i] + 1
  {
    seq(|idx|, i requires 0 <= i < |idx| => idx[i] + 1)
  }

  /** Filtering keeps every copy of each element `keep` accepts and no copy of any other. */
  lemma {:induction false} FilterMultiplicity<T>(xs: seq<T>, keep: T -> bool, x: T)
    ensures multiset(Filter(xs, keep))[x] == if keep(x) then multiset(xs)[x] else 0
  {
    if xs != [] {
      FilterMultiplicity(xs[1..], keep, x);
      assert xs == [xs[0]] + xs[1..];
    }
  }

  /** An argument meant for the JVM itself: a `-D` system property. */
  predicate IsJavaOpt(arg: string) {
    StartsWith(arg, "-D")
  }

  /** The arguments placed before `-jar`. */
  function JavaOpts(args: seq<string>): seq<string> {
    Filter(args, IsJavaOpt)
  }

  /** The arguments placed after the jar: everything that is not a `-D` option and not the script's own name. */
  function OtherArgs(args: seq<string>, self: string): seq<string> {
    Filter(args, (a: string) => !IsJavaOpt(a) && a != self)
  }

  /** `build_command(args)` with `self` standing for `sys.argv[0]`. */
  function BuildCommand(args: seq<string>, self: string): seq<string> {
    ["java"] + JavaOpts(args) + ["-jar", UploaderFilename] + OtherArgs(args, self)
  }

  /** How many arguments `BuildCommand` drops: the non-`-D` copies of the script's own name. */
  function DroppedCount(args: seq<string>, self: string): nat {
    if IsJavaOpt(self) then 0 else multiset(args)[self]
  }

  /** What the JVM makes of a command line: leading system properties, the jar after `-jar`, the application's arguments. */
  datatype JvmLine = JvmLine(properties: seq<string>, jar: string, appArgs: seq<string>)

  /** Length of the run of `-D` options `opts` starts with. */
  function OptionRun(opts: seq<string>): (k: nat)
    ensures k <= |opts|
    ensures forall i :: 0 <= i < k ==> IsJavaOpt(opts[i])
    ensures k < |opts| ==> !IsJavaOpt(opts[k])
  {
    if opts == [] || !IsJavaOpt(opts[0]) then 0 else 1 + OptionRun(opts[1..])
  }

  /** Reads a `java [-Dk=v ...] -jar <jar> <args...>` command line back into its parts. */
  function ParseJavaLine(cmd: seq<string>): Option<JvmLine> {
    if cmd == [] || cmd[0] != "java" then None
    else
      var opts := cmd[1..];
      var k := OptionRun(opts);
      if k + 2 <= |opts| && opts[k] == "-jar" then Some(JvmLine(opts[..k], opts[k + 1], opts[k + 2..]))
      else None
  }

  /**
   The JVM reading the built command sees exactly the `-D` arguments as system
   properties, the uploader jar, and the remaining arguments for the uploader.
   */
  lemma BuildCommandParses(args: seq<string>, self: string)
    ensures ParseJavaLine(BuildCommand(args, self))
         == Some(JvmLine(JavaOpts(args), UploaderFilename, OtherArgs(args, self)))
  {
    var d := JavaOpts(args);
    var o := OtherArgs(args, self);
    var cmd := BuildCommand(args, self);
    var opts := cmd[1..];
    assert opts == d + ["-jar", UploaderFilename] + o;
    forall i | 0 <= i < |d| ensures IsJavaOpt(opts[i]) {
      assert opts[i] == d[i];
      FilterKeeps(args, IsJavaOpt, i);
    }
    assert opts[|d|] == "-jar";
    assert "-jar"[..2] != "-D" by { assert "-jar"[1] == 'j'; }
    assert OptionRun(opts) == |d|;
    assert opts[..|d|] == d;
    assert opts[|d| + 2..] == o;
  }

  /** Every element `Filter` returns satisfies `keep`. */
  lemma {:induction false} FilterKeeps<T>(xs: seq<T>, keep: T -> bool, i: nat)
    requires i < |Filter(xs, keep)|
    ensures keep(Filter(xs, keep)[i])
  {
    if keep(xs[0]) && i == 0 {
    } else {
      var j := if keep(xs[0]) then i - 1 else i;
      assert Filter(xs, keep)[i] == Filter(xs[1..], keep)[j];
      FilterKeeps(xs[1..], keep, j);
    }
  }

  /**
   `-D` arguments and uploader arguments are each the input in its original
   order, and together hold every copy of every argument except the dropped
   copies of the script's own name.
   */
  lemma PartitionPreservesArguments(args: seq<string>, self: string, x: string)
    ensures IsSubsequence(JavaOpts(args), args)
    ensures IsSubsequence(OtherArgs(args, self), args)
    ensures multiset(JavaOpts(args))[x] == if IsJavaOpt(x) then multiset(args)[x] else 0
    ensures multiset(OtherArgs(args, self))[x] == if IsJavaOpt(x) || x == self then 0 else multiset(args)[x]
  {
    FilterIsSubsequence(args, IsJavaOpt);
    FilterIsSubsequence(args, (a: string) => !IsJavaOpt(a) && a != self);
    FilterMultiplicity(args, IsJavaOpt, x);
    FilterMultiplicity(args, (a: string) => !IsJavaOpt(a) && a != self, x);
  }

  /** The built command has the three fixed words plus every argument except the dropped ones. */
  lemma {:induction false} BuildCommandLength(args: seq<string>, self: string)
    ensures |BuildCommand(args, self)| == 3 + |args| - DroppedCount(args, self)
  {
    PartitionCount(args, self);
  }

  lemma {:induction false} PartitionCount(args: seq<string>, self: string)
    ensures |JavaOpts(args)| + |OtherArgs(args, self)| + DroppedCount(args, self) == |args|
  {
    if args != [] {
      PartitionCount(args[1..], self);
      assert args == [args[0]] + args[1..];
      assert multiset(args)[self] == multiset(args[1..])[self] + (if args[0] == self then 1 else 0);
    }
  }

  /** The outcome of fetching the remote checksum file. */
  datatype Fetch =
    | Response(status: int, body: string)  // the server answered; `body` already decoded
    | ConnectionError                      // any exception while connecting, reading or decoding

  /** What `get_remote_checksum` hands back: a checksum text, or the process stops with status 1. */
  datatype Remote = Checksum(text: string) | StatusNotOk

  /**
   `urlopen` itself raises for a final status outside 200-299, and that lands
   in the same handler as a failed connection; a 2xx other than 200 is
   returned and then rejected by the status test.
   */
  predicate RaisesHttpError(status: int) {
    !(200 <= status < 300)
  }

  function RemoteChecksum(f: Fetch): Remote {
    match f
    case ConnectionError => Checksum("")
    case Response(status, body) =>
      if RaisesHttpError(status) then Checksum("")
      else if status != 200 then StatusNotOk
      else Checksum(body)
  }

  /** `get_current_checksum`: the jar's digest, or `""` when the file is absent. */
  function CurrentChecksum(jar: Option<string>): string {
    jar.GetOr("")
  }

  /** The four branches of the update step in `main`. */
  datatype Action = NoRemoteVersion | DownloadMissing | DownloadChanged | UpToDate

  function Decide(remote: string, current: string): Action {
    if remote == "" then NoRemoteVersion
    else if current == "" then DownloadMissing
    else if Strip(remote) != Strip(current) then DownloadChanged
    else UpToDate
  }

  predicate Downloads(a: Action) {
    a.DownloadMissing? || a.DownloadChanged?
  }

  /** Equal checksums never trigger a download, whatever they are. */
  lemma SameChecksumNoDownload(checksum: string)
    ensures !Downloads(Decide(checksum, checksum))
  {
  }

  /** Checksums that differ after stripping trigger a download when the remote one is present. */
  lemma DifferentChecksumDownloads(remote: string, current: string)
    requires remote != "" && Strip(remote) != Strip(current)
    ensures Downloads(Decide(remote, current))
  {
  }

  /** A checksum file ending in a newline still matches the jar's bare digest. */
  lemma TrailingNewlineUpToDate(digest: string)
    requires digest != "" && IsStripped(digest)
    ensures Decide(digest + "\n", digest) == UpToDate
  {
    assert Strip(digest + "\n") == digest by {
      assert AllSpace("\n");
      StripPadded([], digest, "\n");
      assert [] + digest + "\n" == digest + "\n";
    }
    assert Strip(digest) == digest by {
      StripPadded([], digest, []);
      assert [] + digest + [] == digest;
    }
    assert digest + "\n" != "";
  }

  /** What the wrapper does, in order. */
  datatype Event = Download | Run(command: seq<string>)

  /** The events of one invocation and the status it exits with. */
  datatype Trace = Trace(events: seq<Event>, exitCode: int)

  /**
   `main`: `argv` is `sys.argv`, `jar` the local jar's digest, `downloadCompletes`
   whether `download_latest_uploader` returns normally (an exception there is not
   caught and ends the process with status 1), and `returnCode` what `java` returns.
   */
  function Execute(fetch: Fetch, jar: Option<string>, downloadCompletes: bool, argv: seq<string>, returnCode: int): Trace
    requires |argv| >= 1
  {
    match RemoteChecksum(fetch)
    case StatusNotOk => Trace([], 1)
    case Checksum(remote) =>
      var action := Decide(remote, CurrentChecksum(jar));
      if Downloads(action) && !downloadCompletes then Trace([Download], 1)
      else
        var update := if Downloads(action) then [Download] else [];
        Trace(update + [Run(BuildCommand(argv, argv[0]))], returnCode)
  }

  /** Number of downloads in a trace. */
  function DownloadCount(events: seq<Event>): nat {
    if events == [] then 0 else (if events[0] == Download then 1 else 0) + DownloadCount(events[1..])
  }

  /**
   One invocation downloads at most once and runs at most one command, always
   the built one and only after any download.
   */
  lemma ExecuteTrace(fetch: Fetch, jar: Option<string>, downloadCompletes: bool, argv: seq<string>, returnCode: int)
    requires |argv| >= 1
    ensures var t := Execute(fetch, jar, downloadCompletes, argv, returnCode);
      && DownloadCount(t.events) <= 1
      && (forall i, j :: 0 <= i < |t.events| && 0 <= j < |t.events| && t.events[i].Run? && t.events[j].Run? ==> i == j)
      && (forall i, j :: 0 <= i < |t.events| && 0 <= j < |t.events| && t.events[i] == Download && t.events[j].Run? ==> i < j)
      && (forall i :: 0 <= i < |t.events| && t.events[i].Run? ==> t.events[i].command == BuildCommand(argv, argv[0]))
  {
    var t := Execute(fetch, jar, downloadCompletes, argv, returnCode);
    var run := Run(BuildCommand(argv, argv[0]));
    if t.events == [Download, run] {
      assert DownloadCount(t.events) == 1 + DownloadCount([run]);
    } else if t.events == [run] {
      assert DownloadCount(t.events) == DownloadCount([]);
    } else if t.events == [Download] {
      assert DownloadCount(t.events) == 1 + DownloadCount([]);
    } else {
      assert t.events == [];
    }
  }

  /** Exit status is the wrapped command's return code whenever the command ran, and 1 otherwise. */
  lemma ExecuteExitCode(fetch: Fetch, jar: Option<string>, downloadCompletes: bool, argv: seq<string>, returnCode: int)
    requires |argv| >= 1
    ensures var t := Execute(fetch, jar, downloadCompletes, argv, returnCode);
      && ((exists i :: 0 <= i < |t.events| && t.events[i].Run?) ==> t.exitCode == returnCode)
      && ((forall i :: 0 <= i < |t.events| ==> !t.events[i].Run?) ==> t.exitCode == 1)
  {
    var t := Execute(fetch, jar, downloadCompletes, argv, returnCode);
    var run := Run(BuildCommand(argv, argv[0]));
    if t.events == [Download, run] {
      assert t.events[1].Run?;
    } else if t.events == [run] {
      assert t.events[0].Run?;
    } else {
      assert t.events == [] || t.events == [Download];
    }
  }

  /**
   Once a checksum text is in hand and any download it calls for completes,
   the built command runs (after the download, if there was one) and its
   return code is the exit status.
   */
  lemma ExecuteRuns(fetch: Fetch, jar: Option<string>, downloadCompletes: bool, argv: seq<string>, returnCode: int)
    requires |argv| >= 1
    requires RemoteChecksum(fetch).Checksum?
    requires !Downloads(Decide(RemoteChecksum(fetch).text, CurrentChecksum(jar))) || downloadCompletes
    ensures var update := if Downloads(Decide(RemoteChecksum(fetch).text, CurrentChecksum(jar))) then [Download] else [];
      Execute(fetch, jar, downloadCompletes, argv, returnCode) == Trace(update + [Run(BuildCommand(argv, argv[0]))], returnCode)
  {
  }

  /** An up-to-date jar is run as it is, and the JVM's return code is the exit status. */
  lemma UpToDateRunsExisting(body: string, digest: string, downloadCompletes: bool, argv: seq<string>, returnCode: int)
    requires |argv| >= 1
    requires Decide(body, digest) == UpToDate
    ensures Execute(Response(200, body), Some(digest), downloadCompletes, argv, returnCode)
         == Trace([Run(BuildCommand(argv, argv[0]))], returnCode)
  {
  }

  /** A download that raises ends the process with status 1 before anything runs. */
  lemma FailedDownloadStops(fetch: Fetch, jar: Option<string>, argv: seq<string>, returnCode: int)
    requires |argv| >= 1
    requires RemoteChecksum(fetch).Checksum?
    requires Downloads(Decide(RemoteChecksum(fetch).text, CurrentChecksum(jar)))
    ensures Execute(fetch, jar, false, argv, returnCode) == Trace([Download], 1)
  {
  }

  /**
   Unless the server answers with a success status other than 200, a download happens exactly
   when the remote checksum is non-empty and the local one is empty or differs
   after stripping.
   */
  lemma ExecuteDownloadsIff(fetch: Fetch, jar: Option<string>, downloadCompletes: bool, argv: seq<string>, returnCode: int)
    requires |argv| >= 1
    requires RemoteChecksum(fetch).Checksum?
    ensures var remote := RemoteChecksum(fetch).text;
      var local := CurrentChecksum(jar);
      (Download in Execute(fetch, jar, downloadCompletes, argv, returnCode).events
       <==> remote != "" && (local == "" || Strip(remote) != Strip(local)))
  {
  }

  /** A failed connection skips the update and still runs the existing jar with the caller's arguments. */
  lemma ConnectionErrorFailsOpen(jar: Option<string>, downloadCompletes: bool, argv: seq<string>, returnCode: int)
    requires |argv| >= 1
    ensures Execute(ConnectionError, jar, downloadCompletes, argv, returnCode)
         == Trace([Run(BuildCommand(argv, argv[0]))], returnCode)
  {
  }

  /** An error status is handled like a failed connection: the existing jar runs without an update. */
  lemma HttpErrorFailsOpen(status: int, body: string, jar: Option<string>, downloadCompletes: bool, argv: seq<string>, returnCode: int)
    requires |argv| >= 1 && !(200 <= status < 300)
    ensures Execute(Response(status, body), jar, downloadCompletes, argv, returnCode)
         == Execute(ConnectionError, jar, downloadCompletes, argv, returnCode)
         == Trace([Run(BuildCommand(argv, argv[0]))], returnCode)
  {
  }

  /** A success status other than 200 stops with status 1 before anything is downloaded or run. */
  lemma StatusNotOkStops(status: int, body: string, jar: Option<string>, downloadCompletes: bool, argv: seq<string>, returnCode: int)
    requires |argv| >= 1 && 200 < status < 300
    ensures Execute(Response(status, body), jar, downloadCompletes, argv, returnCode) == Trace([], 1)
  {
  }

  /** Without a local jar, any non-empty remote checksum forces a download before the run. */
  lemma MissingJarDownloads(body: string, argv: seq<string>, returnCode: int)
    requires |argv| >= 1 && body != ""
    ensures Execute(Response(200, body), None, true, argv, returnCode).events
         == [Download, Run(BuildCommand(argv, argv[0]))]
  {
  }
}
