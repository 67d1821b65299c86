/** The scan-bcl entry point: `switch:value` argument parsing, and the gating
    by which `Run` exports the diff of two library scans. Spawning the
    external scanner, the filesystem and path resolution are parameters. */
module ScanBcl {
  import opened Wrappers
  import opened Store
  import opened Ordering
  import opened CsvDiff

  const OutputDirSwitch := "-out"
  const ThreeBclSwitch := "-tbcl"
  const FiveBclSwitch := "-fbcl"

  /** The pieces of `s` between occurrences of `sep`, empty pieces included
      (the behaviour of `string.Split` with a single separator). */
  function Split(s: string, sep: char): (r: seq<string>)
    ensures |r| >= 1
    ensures forall i :: 0 <= i < |r| ==> sep !in r[i]
    ensures Join(r, sep) == s
    decreases |s|
  {
    if |s| == 0 then
      [""]
    else
      var rest := Split(s[1..], sep);
      if s[0] == sep then
        assert s == [sep] + s[1..];
        [""] + rest
      else
        var r := [[s[0]] + rest[0]] + rest[1..];
        assert r[1..] == rest[1..];
        assert s == [s[0]] + s[1..];
        r
  }

  /** The pieces joined back with the separator between them. */
  function Join(parts: seq<string>, sep: char): string
    requires |parts| >= 1
    decreases |parts|
  {
    if |parts| == 1 then parts[0] else parts[0] + [sep] + Join(parts[1..], sep)
  }

  /** The number of pieces is one more than the number of separators. */
  lemma {:induction false} SplitCount(s: string, sep: char)
    ensures |Split(s, sep)| == Occurrences(s, sep) + 1
    decreases |s|
  {
    if |s| > 0 {
      SplitCount(s[1..], sep);
    }
  }

  /** Occurrences of a character, counted left to right. */
  function Occurrences(s: string, c: char): nat
    decreases |s|
  {
    if |s| == 0 then 0 else (if s[0] == c then 1 else 0) + Occurrences(s[1..], c)
  }

  /** `char.IsWhiteSpace`: the Unicode space separators, line and paragraph
      separators, and the control characters U+0009-U+000D and U+0085. */
  predicate IsWhiteSpace(c: char)
  {
    || c == ' ' || ('\t' <= c <= '\r') || c == '\U{0085}' || c == '\U{00A0}' || c == '\U{1680}'
    || ('\U{2000}' <= c <= '\U{200A}') || c == '\U{2028}' || c == '\U{2029}' || c == '\U{202F}'
    || c == '\U{205F}' || c == '\U{3000}'
  }

  /** `string.IsNullOrWhiteSpace`. */
  predicate IsNullOrWhiteSpace(s: Option<string>)
  {
    s.None? || forall i :: 0 <= i < |s.value| ==> IsWhiteSpace(s.value[i])
  }

  /** An argument of the form `switch:value` with a known switch and exactly
      one colon. */
  predicate WellFormed(arg: string)
  {
    var tokens := Split(arg, ':');
    |tokens| == 2 && tokens[0] in {OutputDirSwitch, ThreeBclSwitch, FiveBclSwitch}
  }

  /** An argument is well formed exactly when it holds one colon and the text
      before it is a known switch; so a value with a drive letter, such as
      `-out:C:\x`, is rejected. */
  lemma WellFormedOneColon(arg: string)
    ensures WellFormed(arg) <==>
      Occurrences(arg, ':') == 1 && Split(arg, ':')[0] in {OutputDirSwitch, ThreeBclSwitch, FiveBclSwitch}
  {
    SplitCount(arg, ':');
  }

  lemma DriveLetterRejected()
    ensures !WellFormed("-out:C:\\x")
  {
    SplitCount("-out:C:\\x", ':');
  }

  /** The value of the last argument that sets the switch. */
  function LastValue(args: seq<string>, switch: string): Option<string>
    decreases |args|
  {
    if |args| == 0 then None
    else
      var tokens := Split(args[|args| - 1], ':');
      if |tokens| == 2 && tokens[0] == switch then Some(tokens[1])
      else LastValue(args[..|args| - 1], switch)
  }

  /** An optional path run through the path resolver. */
  function Resolve(p: Option<string>, fullPath: string -> string): Option<string>
  {
    if p.Some? then Some(fullPath(p.value)) else None
  }

  /** The three paths a successful parse yields; the BCL paths may be unset. */
  datatype Paths = Paths(three: Option<string>, five: Option<string>, output: string)

  /** `TryParseArguments`: one to three `switch:value` arguments; a repeated
      switch keeps its last value; the output path must be set and not
      blank. `fullPath` stands for `Path.GetFullPath`. */
  method TryParseArguments(args: seq<string>, fullPath: string -> string) returns (r: Option<Paths>)
    ensures r.Some? <==>
      && 1 <= |args| <= 3
      && (forall i :: 0 <= i < |args| ==> WellFormed(args[i]))
      && !IsNullOrWhiteSpace(Resolve(LastValue(args, OutputDirSwitch), fullPath))
    ensures r.Some? ==>
      && Some(r.value.output) == Resolve(LastValue(args, OutputDirSwitch), fullPath)
      && r.value.three == Resolve(LastValue(args, ThreeBclSwitch), fullPath)
      && r.value.five == Resolve(LastValue(args, FiveBclSwitch), fullPath)
  {
    if |args| < 1 || |args| > 3 {
      return None;
    }
    var three, five, output := None, None, None;
    var i := 0;
    while i < |args|
      invariant 0 <= i <= |args|
      invariant forall j :: 0 <= j < i ==> WellFormed(args[j])
      invariant output == Resolve(LastValue(args[..i], OutputDirSwitch), fullPath)
      invariant three == Resolve(LastValue(args[..i], ThreeBclSwitch), fullPath)
      invariant five == Resolve(LastValue(args[..i], FiveBclSwitch), fullPath)
    {
      var tokens := Split(args[i], ':');
      if |tokens| != 2 {
        return None;
      }
      var full := fullPath(tokens[1]);
      assert args[..i + 1][..i] == args[..i];
      if tokens[0] == OutputDirSwitch {
        output := Some(full);
      } else if tokens[0] == ThreeBclSwitch {
        three := Some(full);
      } else if tokens[0] == FiveBclSwitch {
        five := Some(full);
      } else {
        return None;
      }
      i := i + 1;
    }
    assert args[..i] == args;
    if IsNullOrWhiteSpace(output) {
      return None;
    }
    return Some(Paths(three, five, output.value));
  }

  /** What `Run` sees of the machine: whether the scanner executable exists,
      which directories exist, whether each spawned scan exits with 0, and
      the rows of the two reports those scans write. */
  datatype Host = Host(
    scannerExists: bool,
    directoryExists: string -> bool,
    threeScanOk: bool,
    fiveScanOk: bool,
    threeReport: seq<Row>,
    fiveReport: seq<Row>)

  /** The exceptions `Run` lets escape. */
  datatype Fault = ScannerMissing | BclMissing(path: Option<string>) | Duplicate(error: Error)

  /** `Run` either raises or finishes, having exported a diff or not. */
  datatype RunOutcome = Threw(fault: Fault) | Finished(diff: Option<seq<Row>>)

  /** `Directory.Exists`, which is false for a null path. */
  predicate DirectoryExists(host: Host, p: Option<string>)
  {
    p.Some? && host.directoryExists(p.value)
  }

  /** The conditions under which `Run` raises. */
  predicate Raises(three: Option<string>, five: Option<string>, host: Host)
  {
    || !host.scannerExists
    || !DirectoryExists(host, three)
    || !DirectoryExists(host, five)
    || (host.threeScanOk && host.fiveScanOk && Scan(Some(host.threeReport), Some(host.fiveReport)).Failure?)
  }

  /** `Run`: checks the scanner and both BCL directories, runs both scans,
      and diffs and exports the two reports only if both scans succeeded. */
  method Run(paths: Paths, host: Host) returns (o: RunOutcome)
    ensures o.Threw? <==> Raises(paths.three, paths.five, host)
    ensures !host.scannerExists ==> o == Threw(ScannerMissing)
    ensures host.scannerExists && !DirectoryExists(host, paths.three) ==> o == Threw(BclMissing(paths.three))
    ensures host.scannerExists && DirectoryExists(host, paths.three) && !DirectoryExists(host, paths.five) ==>
      o == Threw(BclMissing(paths.five))
    ensures o.Finished? && o.diff.Some? <==>
      && host.scannerExists && DirectoryExists(host, paths.three) && DirectoryExists(host, paths.five)
      && host.threeScanOk && host.fiveScanOk
      && Scan(Some(host.threeReport), Some(host.fiveReport)).Success?
    ensures o.Finished? && o.diff.Some? ==>
      var db := Scan(Some(host.threeReport), Some(host.fiveReport)).value;
      Sorted(o.diff.value) && multiset(o.diff.value) == multiset(Entries(db))
    ensures o.Threw? && o.fault.Duplicate? ==>
      Scan(Some(host.threeReport), Some(host.fiveReport)) == Failure(o.fault.error)
  {
    if !host.scannerExists {
      return Threw(ScannerMissing);
    }
    if !DirectoryExists(host, paths.three) {
      return Threw(BclMissing(paths.three));
    }
    if !DirectoryExists(host, paths.five) {
      return Threw(BclMissing(paths.five));
    }
    if host.threeScanOk && host.fiveScanOk {
      var diff := Scan(Some(host.threeReport), Some(host.fiveReport));
      if diff.Failure? {
        return Threw(Duplicate(diff.error));
      }
      var rows := ExportCsv(diff.value);
      return Finished(Some(rows));
    }
    return Finished(None);
  }

  /** A process exit: a code, or an unhandled exception. */
  datatype Exit = Code(code: int) | Crash

  /** The command line `TryParseArguments` accepts. */
  predicate WellFormedCommandLine(args: seq<string>, fullPath: string -> string)
  {
    && 1 <= |args| <= 3
    && (forall i :: 0 <= i < |args| ==> WellFormed(args[i]))
    && !IsNullOrWhiteSpace(Resolve(LastValue(args, OutputDirSwitch), fullPath))
  }

  /** `Main`, as the exit it produces: a rejected command line exits with 1;
      otherwise `Run` is called, and the process exits with 0 unless `Run`
      raised, which nothing catches. */
  method ExitCode(args: seq<string>, fullPath: string -> string, host: Host) returns (e: Exit)
    ensures e == Code(1) <==> !WellFormedCommandLine(args, fullPath)
    ensures e == Crash <==>
      && WellFormedCommandLine(args, fullPath)
      && Raises(Resolve(LastValue(args, ThreeBclSwitch), fullPath), Resolve(LastValue(args, FiveBclSwitch), fullPath), host)
    ensures e == Code(0) <==>
      && WellFormedCommandLine(args, fullPath)
      && !Raises(Resolve(LastValue(args, ThreeBclSwitch), fullPath), Resolve(LastValue(args, FiveBclSwitch), fullPath), host)
  {
    var paths := TryParseArguments(args, fullPath);
    if paths.None? {
      return Code(1);
    }
    var o := Run(paths.value, host);
    if o.Threw? {
      return Crash;
    }
    return Code(0);
  }
}
