/** The ex-scan entry point: the optional package index that decides which
    assemblies are inbox for a target framework, the filter loop of `Run`,
    and the argument-count and exit-code dispatch of `Main`. Loading
    assemblies, the exception scanner and JSON decoding are parameters. */
module ExScan {
  import opened Wrappers

  /** One package of the index; JSON may leave any member null. */
  datatype Package = Package(
    baselineVersion: Option<string>,
    stableVersions: Option<seq<string>>,
    inboxOn: Option<map<string, string>>)

  /** The package index: an optional map from assembly name to a package,
      where a JSON `null` value leaves the package itself null. */
  datatype PackageIndex = PackageIndex(packages: Option<map<string, Option<Package>>>)

  /** The index `Main` starts with: no packages, so every assembly is inbox. */
  const DefaultIndex := PackageIndex(None)

  /** The target framework `Run` filters on. */
  const Net5 := "net5.0"

  /** The exception `IsInbox` raises when the package found is null. */
  datatype Fault = NullPackage(name: string)

  /** `PackageIndex.IsInbox`: with no package map every assembly is inbox;
      otherwise an assembly is inbox only when its package is listed and its
      `InboxOn` map names the framework. */
  function IsInbox(index: PackageIndex, name: string, tfm: string): (r: Result<bool, Fault>)
    ensures index.packages.None? ==> r == Success(true)
    ensures index.packages.Some? && name !in index.packages.value ==> r == Success(false)
    ensures index.packages.Some? && name in index.packages.value && index.packages.value[name].Some? ==>
      var inboxOn := index.packages.value[name].value.inboxOn;
      r == Success(inboxOn.Some? && tfm in inboxOn.value)
    ensures index.packages.Some? && name in index.packages.value && index.packages.value[name].None? ==>
      r == Failure(NullPackage(name))
  {
    match index.packages
    case None => Success(true)
    case Some(packages) =>
      if name !in packages then
        Success(false)
      else
        match packages[name]
        case None => Failure(NullPackage(name))
        case Some(package) =>
          Success(match package.inboxOn case None => false case Some(m) => tfm in m)
  }

  /** The assembly passes the filter. */
  predicate Inbox(index: PackageIndex, name: string)
  {
    IsInbox(index, name, Net5) == Success(true)
  }

  /** The filter loop of `Run`: the assemblies handed to the scanner, in
      enumeration order; a raising `IsInbox` aborts the loop. */
  function ScanList(index: PackageIndex, assemblies: seq<string>): (r: Result<seq<string>, Fault>)
    ensures r.Success? <==> forall i :: 0 <= i < |assemblies| ==> IsInbox(index, assemblies[i], Net5).Success?
    ensures r.Success? ==> forall a :: a in r.value <==> a in assemblies && Inbox(index, a)
    ensures r.Success? ==> |r.value| <= |assemblies|
    decreases |assemblies|
  {
    if |assemblies| == 0 then
      Success([])
    else
      var a := assemblies[0];
      match IsInbox(index, a, Net5)
      case Failure(f) => Failure(f)
      case Success(inbox) =>
        match ScanList(index, assemblies[1..])
        case Failure(f) =>
          assert forall i :: 1 <= i < |assemblies| ==> assemblies[1..][i - 1] == assemblies[i];
          Failure(f)
        case Success(rest) =>
          assert forall i :: 1 <= i < |assemblies| ==> assemblies[1..][i - 1] == assemblies[i];
          assert assemblies == [a] + assemblies[1..];
          Success(if inbox then [a] + rest else rest)
  }

  /** One step of the filter on a non-empty list whose filtering succeeds. */
  lemma {:induction false} ScanListStep(index: PackageIndex, xs: seq<string>)
    requires |xs| > 0 && ScanList(index, xs[1..]).Success? && IsInbox(index, xs[0], Net5).Success?
    ensures ScanList(index, xs)
         == Success((if IsInbox(index, xs[0], Net5).value then [xs[0]] else []) + ScanList(index, xs[1..]).value)
  {
    if !IsInbox(index, xs[0], Net5).value {
      assert [] + ScanList(index, xs[1..]).value == ScanList(index, xs[1..]).value;
    }
  }

  /** The filter keeps the enumeration order: filtering a concatenation is the
      concatenation of the filtered parts. */
  lemma {:induction false} ScanListConcat(index: PackageIndex, xs: seq<string>, ys: seq<string>)
    requires ScanList(index, xs).Success? && ScanList(index, ys).Success?
    ensures ScanList(index, xs + ys) == Success(ScanList(index, xs).value + ScanList(index, ys).value)
    decreases |xs|
  {
    if |xs| == 0 {
      assert xs + ys == ys;
      assert ScanList(index, xs).value + ScanList(index, ys).value == ScanList(index, ys).value;
    } else {
      var zs := xs + ys;
      assert zs[0] == xs[0] && zs[1..] == xs[1..] + ys;
      assert IsInbox(index, xs[0], Net5).Success?;
      assert ScanList(index, xs[1..]).Success? by {
        assert forall i :: 1 <= i < |xs| ==> xs[1..][i - 1] == xs[i];
      }
      ScanListConcat(index, xs[1..], ys);
      ScanListStep(index, xs);
      ScanListStep(index, zs);
      var head: seq<string> := if IsInbox(index, xs[0], Net5).value then [xs[0]] else [];
      var p, q := ScanList(index, xs[1..]).value, ScanList(index, ys).value;
      assert head + (p + q) == (head + p) + q;
    }
  }

  /** Without a package map every assembly is scanned, in order. */
  lemma {:induction false} DefaultScansAll(assemblies: seq<string>)
    ensures ScanList(DefaultIndex, assemblies) == Success(assemblies)
    decreases |assemblies|
  {
    if |assemblies| > 0 {
      DefaultScansAll(assemblies[1..]);
      assert assemblies == [assemblies[0]] + assemblies[1..];
    }
  }

  /** The outcome of reading and decoding the index file. */
  datatype IndexFile = Parsed(index: PackageIndex) | NullDocument | Unreadable

  /** What `Main` sees of the machine: the index file, whether the input path
      is a file or a directory, the assemblies loaded from it, and whether
      loading, writing or scanning raises. */
  datatype Host = Host(indexFile: IndexFile, isFile: bool, isDirectory: bool, assemblies: seq<string>, ioFault: bool)

  /** A process exit: a code, or an unhandled exception. */
  datatype Exit = Code(code: int) | Crash

  /** The index `Main` uses: the default one unless exactly three arguments
      are given, in which case the file is decoded and its package count
      logged, which raises outside any handler when the document or its
      package map is null. */
  function LoadIndex(args: seq<string>, host: Host): (r: Option<PackageIndex>)
    ensures |args| != 3 ==> r == Some(DefaultIndex)
    ensures |args| == 3 ==> (r.Some? <==> host.indexFile.Parsed? && host.indexFile.index.packages.Some?)
    ensures |args| == 3 && r.Some? ==> r.value == host.indexFile.index
  {
    if |args| == 3 then
      match host.indexFile
      case Parsed(index) => if index.packages.None? then None else Some(index)
      case _ => None
    else
      Some(DefaultIndex)
  }

  /** `Main`, as the exit it produces: fewer than two arguments or an input
      path that is neither a file nor a directory exit with 1; otherwise the
      exit code is 0 exactly when `Run` completes, and 1 when it raises. */
  function ExitCode(args: seq<string>, host: Host): (e: Exit)
    ensures |args| < 2 ==> e == Code(1)
    ensures e == Crash <==> |args| >= 2 && LoadIndex(args, host).None?
    ensures e == Crash ==> |args| == 3
    ensures e.Code? ==> e.code == 0 || e.code == 1
    ensures |args| >= 2 && LoadIndex(args, host).Some? && !host.isFile && !host.isDirectory ==> e == Code(1)
    ensures e == Code(0) <==>
      && |args| >= 2 && LoadIndex(args, host).Some? && (host.isFile || host.isDirectory)
      && !host.ioFault && ScanList(LoadIndex(args, host).value, host.assemblies).Success?
    ensures (&& |args| >= 2 && LoadIndex(args, host).Some? && (host.isFile || host.isDirectory)
             && (host.ioFault || ScanList(LoadIndex(args, host).value, host.assemblies).Failure?))
      ==> e == Code(1)
  {
    if |args| < 2 then
      Code(1)
    else
      match LoadIndex(args, host)
      case None => Crash
      case Some(index) =>
        if !host.isFile && !host.isDirectory then
          Code(1)
        else if host.ioFault || ScanList(index, host.assemblies).Failure? then
          Code(1)
        else
          Code(0)
  }

  /** The index file is read only when exactly three arguments are given. */
  lemma IndexReadOnlyWithThreeArgs(args: seq<string>, host: Host, other: IndexFile)
    requires |args| != 3
    ensures ExitCode(args, host) == ExitCode(args, host.(indexFile := other))
  {
  }
}
