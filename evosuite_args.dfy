/**
 * The argument side of the EvoSuite adapter: the LLM-test options
 * (`EvoSuiteCliParser`), the lookup of the directory of already generated
 * LLM tests, the list of their canonical names, and the EvoSuite command line
 * that `run` hands to the process builder.
 */
module EvoSuiteArgs {
  import opened Wrappers
  import opened Sequences
  import opened KotlinText
  import opened JvmPaths
  import opened FileSystems

  /** Parsed command-line options: each option given, with its values in order. */
  type Options = map<string, seq<string>>

  const LlmTestLocation := "llmTestLocation"
  const LlmTestName := "llmTestName"
  const CliArg := "cliArg"

  predicate HasOption(o: Options, name: string) {
    name in o
  }

  /** `getCmdValue`: the first value of an option, or null. */
  function CmdValue(o: Options, name: string): (r: Option<string>)
    ensures r.Some? <==> name in o && |o[name]| > 0
    ensures r.Some? ==> r.value == o[name][0]
  {
    if name in o && |o[name]| > 0 then Some(o[name][0]) else None
  }

  /** `getCmdValues`: every value of an option, none when it is absent. */
  function CmdValues(o: Options, name: string): seq<string> {
    if name in o then o[name] else []
  }

  /** How a Kotlin string template prints a nullable string. */
  function Template(v: Option<string>): string {
    match v
    case None => "null"
    case Some(s) => s
  }

  /**
   * An exception that leaves `run` before the process is started: a null
   * path name, or a class-path list that cannot be added to (a
   * ClassCastException for a Kotlin read-only list, an
   * UnsupportedOperationException for a fixed-size or unmodifiable Java list).
   */
  datatype RunError = NullPointer | UnsupportedAdd

  /** The run id: the last `-`-separated segment of a directory name. */
  function RunId(name: string): (r: string)
    ensures '-' !in r && EndsWith(name, r)
    ensures r == name || (|r| < |name| && name[|name| - |r| - 1] == '-')
  {
    LastPiece(name, '-');
    var parts := Split(name, "-");
    parts[|parts| - 1]
  }

  /**
   * The directory where the LLM tests for this output directory would be:
   * `llmTestLocation / (llmTestName + "-" + runId) / benchmark`, where the
   * benchmark is the output directory's own name and the run id comes from
   * its parent's name. Absent (a NullPointerException) when the output
   * directory has fewer than two names or the location option has no value.
   */
  function LlmCandidate(o: Options, outputDirectory: Path): (r: Option<Path>)
    ensures r.Some? <==> |outputDirectory.names| >= 2 && CmdValue(o, LlmTestLocation).Some?
  {
    var n := |outputDirectory.names|;
    if n < 2 then None
    else match CmdValue(o, LlmTestLocation)
      case None => None
      case Some(location) =>
        var benchmark := outputDirectory.names[n - 1];
        var run := RunId(outputDirectory.names[n - 2]);
        Some(Get(location, [Template(CmdValue(o, LlmTestName)) + "-" + run, benchmark]))
  }

  /**
   * `EvoSuiteCliParser.getLlmTestClasspath`: nothing when the location
   * option is absent, whatever the output directory; otherwise the candidate
   * directory when it is a directory, and nothing when it is not.
   */
  function GetLlmTestClasspath(o: Options, outputDirectory: Path, d: Disk): (r: Result<Option<Path>, RunError>)
    ensures !HasOption(o, LlmTestLocation) ==> r == Ok(None)
    ensures HasOption(o, LlmTestLocation) ==> (r.Err? <==> LlmCandidate(o, outputDirectory).None?)
    ensures r.Ok? && r.value.Some? <==>
              HasOption(o, LlmTestLocation) && LlmCandidate(o, outputDirectory).Some?
              && IsDirectory(d, LlmCandidate(o, outputDirectory).value)
    ensures r.Ok? && r.value.Some? ==> r.value.value == LlmCandidate(o, outputDirectory).value
  {
    if !HasOption(o, LlmTestLocation) then Ok(None)
    else match LlmCandidate(o, outputDirectory)
      case None => Err(NullPointer)
      case Some(candidate) => if IsDirectory(d, candidate) then Ok(Some(candidate)) else Ok(None)
  }

  /**
   * Where the candidate lies: below the location's names, one directory named
   * after the LLM and the run id, and then the benchmark's own name.
   */
  lemma {:induction false} CandidateNames(o: Options, outputDirectory: Path)
    requires ProperNames(outputDirectory.names)
    requires LlmCandidate(o, outputDirectory).Some?
    ensures var n := |outputDirectory.names|;
      var benchmark := outputDirectory.names[n - 1];
      var dir := Template(CmdValue(o, LlmTestName)) + "-" + RunId(outputDirectory.names[n - 2]);
      && LlmCandidate(o, outputDirectory).value.names
           == Parse(CmdValue(o, LlmTestLocation).value).names + Parse(dir).names + [benchmark]
      && FileName(LlmCandidate(o, outputDirectory).value) == FileName(outputDirectory)
  {
    var n := |outputDirectory.names|;
    var dir := Template(CmdValue(o, LlmTestName)) + "-" + RunId(outputDirectory.names[n - 2]);
    var location := CmdValue(o, LlmTestLocation).value;
    var benchmark := outputDirectory.names[n - 1];
    assert ProperName(benchmark);
    assert LlmCandidate(o, outputDirectory) == Some(Get(location, [dir, benchmark]));
    CandidateLayout(location, dir, benchmark);
  }

  /**
   * The entries named `<name>.exec`, with the extension taken off the end, in
   * listing order (the corrected reading of `findCanonicalLlmTests`).
   */
  function ExecNames(entries: seq<string>): (r: seq<string>)
    ensures |r| <= |entries|
    ensures forall k :: 0 <= k < |r| ==> r[k] + ".exec" in entries
    ensures forall e :: e in entries && EndsWith(e, ".exec") ==> RemoveSuffix(e, ".exec") in r
    ensures r == [] <==> forall e :: e in entries ==> !EndsWith(e, ".exec")
  {
    if |entries| == 0 then []
    else
      var rest := ExecNames(entries[1..]);
      if EndsWith(entries[0], ".exec") then [RemoveSuffix(entries[0], ".exec")] + rest else rest
  }

  /** `findCanonicalLlmTests`, corrected: the `.exec` names without their extension, `:`-joined. */
  function FindCanonicalLlmTests(entries: seq<string>): (r: string)
    ensures (forall e :: e in entries ==> !EndsWith(e, ".exec")) ==> r == ""
  {
    Join(ExecNames(entries), ":")
  }

  /** When no name holds `:`, the selected names can be read back from the option's value. */
  lemma {:induction false} CanonicalNamesRecoverable(entries: seq<string>)
    requires exists e :: e in entries && EndsWith(e, ".exec")
    requires forall e :: e in entries ==> ':' !in e
    ensures Split(FindCanonicalLlmTests(entries), ":") == ExecNames(entries)
  {
    var names := ExecNames(entries);
    forall k | 0 <= k < |names|
      ensures ':' !in names[k]
    {
      assert names[k] + ".exec" in entries;
      assert forall i :: 0 <= i < |names[k]| ==> names[k][i] == (names[k] + ".exec")[i];
    }
    SplitJoin(names, ':');
  }

  /** The entries ending in `.exec`, with every `.exec` in them deleted, as the source writes it. */
  function ExecNamesAsWritten(entries: seq<string>): (r: seq<string>)
    ensures |r| <= |entries|
  {
    if |entries| == 0 then []
    else
      var rest := ExecNamesAsWritten(entries[1..]);
      if EndsWith(entries[0], ".exec") then [ReplaceAll(entries[0], ".exec", "")] + rest else rest
  }

  /** `findCanonicalLlmTests` exactly as written: `replace(".exec", "")` removes every occurrence. */
  function FindCanonicalLlmTestsAsWritten(entries: seq<string>): string {
    Join(ExecNamesAsWritten(entries), ":")
  }

  /** The two readings agree on a name whose only `.exec` is its extension. */
  lemma {:induction false} ReplaceAgreesOnPlainName(e: string)
    requires EndsWith(e, ".exec")
    requires forall j :: 0 <= j < |e| - 5 ==> !MatchesAt(e, ".exec", j)
    ensures ReplaceAll(e, ".exec", "") == RemoveSuffix(e, ".exec")
  {
    assert MatchesAt(e, ".exec", |e| - 5);
    assert IndexOf(e, ".exec", 0) == Some(|e| - 5);
    assert e[|e| - 5 + 5..] == "";
    assert IndexOf("", ".exec", 0) == None;
  }

  /** `.exec` occurs in `e` only as its extension. */
  predicate PlainExecName(e: string) {
    forall j :: 0 <= j < |e| - 5 ==> !MatchesAt(e, ".exec", j)
  }

  /**
   * On a listing whose `.exec` entries hold no inner `.exec`, the source's
   * `replace` reading and the corrected one give the same names and value.
   */
  lemma {:induction false} ReadingsAgreeOnPlainNames(entries: seq<string>)
    requires forall e :: e in entries && EndsWith(e, ".exec") ==> PlainExecName(e)
    ensures ExecNamesAsWritten(entries) == ExecNames(entries)
    ensures FindCanonicalLlmTestsAsWritten(entries) == FindCanonicalLlmTests(entries)
  {
    if |entries| > 0 {
      assert forall e :: e in entries[1..] ==> e in entries;
      ReadingsAgreeOnPlainNames(entries[1..]);
      if EndsWith(entries[0], ".exec") {
        assert entries[0] in entries;
        ReplaceAgreesOnPlainName(entries[0]);
      }
    }
  }

  /**
   * A test class `t` in a package whose last segment is `exec` loses that
   * segment: the source's `replace` deletes the inner `.exec` too
   * (`p.exec.T.exec` is reported as `p.T`). The class name is taken not to
   * start with `e`, so that `.exec` cannot also match at its dot.
   */
  lemma {:induction false} ExecPackageMangled(p: string, t: string)
    requires '.' !in p && '.' !in t
    requires |t| > 0 && t[0] != 'e'
    ensures var entry := p + ".exec" + ("." + t) + ".exec";
      && FindCanonicalLlmTestsAsWritten([entry]) == p + ("." + t)
      && FindCanonicalLlmTests([entry]) == p + ".exec" + ("." + t)
  {
    var m := "." + t;
    var entry := p + ".exec" + m + ".exec";
    ReplaceDeletesInnerExec(p, t);
    assert EndsWith(entry, ".exec") by {
      assert entry[|entry| - 5..] == ".exec";
    }
    SingleExecName(entry);
    assert RemoveSuffix(entry, ".exec") == p + ".exec" + m;
  }

  /** One `.exec` entry on its own gives one name under either reading. */
  lemma {:induction false} SingleExecName(e: string)
    requires EndsWith(e, ".exec")
    ensures FindCanonicalLlmTestsAsWritten([e]) == ReplaceAll(e, ".exec", "")
    ensures FindCanonicalLlmTests([e]) == RemoveSuffix(e, ".exec")
  {
    assert [e][1..] == [];
  }

  /** `replace(".exec", "")` on `p.exec.t.exec` removes both occurrences. */
  lemma {:induction false} ReplaceDeletesInnerExec(p: string, t: string)
    requires '.' !in p && '.' !in t
    requires |t| > 0 && t[0] != 'e'
    ensures ReplaceAll(p + ".exec" + ("." + t) + ".exec", ".exec", "") == p + ("." + t)
  {
    var m := "." + t;
    var entry := p + ".exec" + m + ".exec";
    PackageExecFirst(p, m + ".exec");
    AppendAssoc(p + ".exec", m, ".exec");
    ReplaceAtFirst(entry, ".exec", "", |p|);
    assert entry[..|p|] == p && entry[|p| + 5..] == m + ".exec";
    ReplaceOnlyExtension(t);
    AppendEmpty(p);
  }

  /** In `p.exec...`, with no dot in `p`, the first `.exec` follows `p`. */
  lemma {:induction false} PackageExecFirst(p: string, rest: string)
    requires '.' !in p
    ensures IndexOf(p + ".exec" + rest, ".exec", 0) == Some(|p|)
  {
    var entry := p + ".exec" + rest;
    forall j | 0 <= j < |p| ensures !MatchesAt(entry, ".exec", j) {
      assert entry[j] == p[j];
      Mismatch(entry, ".exec", j, 0);
    }
    assert entry[|p|..|p| + 5] == ".exec";
    FirstMatchIs(entry, ".exec", |p|);
  }

  /** `.t.exec`, for a dot-free `t` not starting with `e`, loses only its extension. */
  lemma {:induction false} ReplaceOnlyExtension(t: string)
    requires '.' !in t
    requires |t| > 0 && t[0] != 'e'
    ensures ReplaceAll("." + t + ".exec", ".exec", "") == "." + t
  {
    var m := "." + t;
    var rest := m + ".exec";
    assert IndexOf(rest, ".exec", 0) == Some(|m|) by {
      forall j | 0 <= j < |m| ensures !MatchesAt(rest, ".exec", j) {
        if j == 0 {
          assert rest[1] == t[0];
          Mismatch(rest, ".exec", 0, 1);
        } else {
          assert rest[j] == t[j - 1];
          Mismatch(rest, ".exec", j, 0);
        }
      }
      assert rest[|m|..|m| + 5] == ".exec";
      FirstMatchIs(rest, ".exec", |m|);
    }
    ReplaceAtFirst(rest, ".exec", "", |m|);
    assert rest[..|m|] == m && rest[|m| + 5..] == "";
    assert ReplaceAll("", ".exec", "") == "" by {
      assert IndexOf("", ".exec", 0) == None;
    }
    AppendEmpty(m);
    AppendEmpty(m + "");
  }

  const EvoSuiteVersion := "master-1.2.1-SNAPSHOT-bugfix"
  /** `File.pathSeparator` on Unix. */
  const PathSeparator := ':'

  /** `TGA_PIPELINE_HOME/lib/evosuite-<version>.jar`. */
  function EvoSuiteJar(home: Path): Path {
    Resolve(home, Path(false, ["lib", "evosuite-" + EvoSuiteVersion + ".jar"]))
  }

  /** `Duration.inWholeSeconds` of a time limit given in milliseconds: truncation toward zero. */
  function WholeSeconds(millis: int): (r: int)
    ensures millis >= 0 ==> 0 <= r && r * 1000 <= millis < r * 1000 + 1000
    ensures millis < 0 ==> r <= 0 && r * 1000 - 1000 < millis <= r * 1000
  {
    if millis >= 0 then millis / 1000 else -((-millis) / 1000)
  }

  function PathStrings(ps: seq<Path>): (r: seq<string>)
    ensures |r| == |ps|
    ensures forall k :: 0 <= k < |ps| ==> r[k] == ToString(ps[k])
  {
    if |ps| == 0 then [] else [ToString(ps[0])] + PathStrings(ps[1..])
  }

  /** `classPath.joinToString(File.pathSeparator)`. */
  function ClassPathString(classPath: seq<Path>): string {
    Join(PathStrings(classPath), [PathSeparator])
  }

  /** The `-projectCP` value lists every class-path entry, in order, when no entry's text holds the separator. */
  lemma {:induction false} ClassPathEntriesRecoverable(classPath: seq<Path>)
    requires |classPath| > 0
    requires forall k :: 0 <= k < |classPath| ==> PathSeparator !in ToString(classPath[k])
    ensures Split(ClassPathString(classPath), [PathSeparator]) == PathStrings(classPath)
  {
    SplitJoin(PathStrings(classPath), PathSeparator);
  }

  /** The fixed part of the EvoSuite invocation, ahead of the user's own arguments. */
  function FixedArguments(javaPath: string, jar: Path, outputDirectory: Path, classPath: seq<Path>,
                          timeLimitMillis: int, target: string): (r: seq<string>)
    ensures |r| == 17
    ensures r[..6] == [javaPath, "-jar", ToString(jar), "-generateMOSuite", "-base_dir", ToString(outputDirectory)]
    ensures r[6] == "-projectCP" && r[7] == ClassPathString(classPath)
    ensures r[9] == "-Dsearch_budget=" + IntToString(WholeSeconds(timeLimitMillis))
    ensures r[10] == "-class" && r[11] == target
  {
    var launch := [javaPath, "-jar", ToString(jar), "-generateMOSuite", "-base_dir", ToString(outputDirectory)];
    var job := ["-projectCP", ClassPathString(classPath), "-Dnew_statistics=false",
                "-Dsearch_budget=" + IntToString(WholeSeconds(timeLimitMillis)), "-class", target];
    assert (launch + job + SearchSettings)[..6] == launch;
    assert (launch + job + SearchSettings)[6..12] == job;
    launch + job + SearchSettings
  }

  /** The search settings `run` always passes. */
  const SearchSettings: seq<string> :=
    ["-Dcatch_undeclared_exceptions=false", "-Dtest_naming_strategy=COVERAGE",
     "-Dalgorithm=DYNAMOSA", "-Dno_runtime_dependency=true",
     "-Dcriterion=LINE:BRANCH:EXCEPTION:WEAKMUTATION:OUTPUT:METHOD:METHODNOEXCEPTION:CBRANCH"]

  /** The process command of `run`: the fixed arguments, then the user's arguments. */
  function EvoSuiteCommand(javaPath: string, jar: Path, outputDirectory: Path, classPath: seq<Path>,
                           timeLimitMillis: int, target: string, userArgs: seq<string>): (r: seq<string>)
    ensures |r| == 17 + |userArgs|
    ensures r[..6] == [javaPath, "-jar", ToString(jar), "-generateMOSuite", "-base_dir", ToString(outputDirectory)]
    ensures r[6] == "-projectCP" && r[7] == ClassPathString(classPath)
    ensures r[9] == "-Dsearch_budget=" + IntToString(WholeSeconds(timeLimitMillis))
    ensures r[10] == "-class" && r[11] == target
    ensures r[17..] == userArgs
  {
    var fixed := FixedArguments(javaPath, jar, outputDirectory, classPath, timeLimitMillis, target);
    assert (fixed + userArgs)[..17] == fixed;
    assert (fixed + userArgs)[..6] == fixed[..6];
    fixed + userArgs
  }

  /** What the LLM directory, when found, adds: one class-path entry and one `-Dselected_junit` argument. */
  datatype Invocation = Invocation(classPath: seq<Path>, userArgs: seq<string>)

  function SelectedJunit(listing: seq<string>): string {
    "-Dselected_junit=" + FindCanonicalLlmTestsAsWritten(listing)
  }

  /**
   * The prefix of `run` that prepares the class path and the user arguments:
   * the `cliArg` values, plus the LLM directory and its test names when the
   * directory was found (`listing` is that directory's entries).
   */
  function PrepareInvocation(o: Options, classPath: seq<Path>, outputDirectory: Path, d: Disk,
                             listing: seq<string>): (r: Result<Invocation, RunError>)
    ensures r.Err? <==> GetLlmTestClasspath(o, outputDirectory, d).Err?
  {
    match GetLlmTestClasspath(o, outputDirectory, d)
    case Err(e) => Err(e)
    case Ok(None) => Ok(Invocation(classPath, CmdValues(o, CliArg)))
    case Ok(Some(dir)) =>
      Ok(Invocation(classPath + [dir], CmdValues(o, CliArg) + [SelectedJunit(listing)]))
  }

  /**
   * A found LLM directory adds exactly one entry at the end of the class path
   * and exactly one argument after the `cliArg` values; otherwise both are
   * left as they were.
   */
  lemma {:induction false} PrepareAppendsOnlyWhenFound(o: Options, classPath: seq<Path>, outputDirectory: Path, d: Disk,
                                    listing: seq<string>)
    requires PrepareInvocation(o, classPath, outputDirectory, d, listing).Ok?
    ensures var inv := PrepareInvocation(o, classPath, outputDirectory, d, listing).value;
      var found := GetLlmTestClasspath(o, outputDirectory, d).value;
      && inv.classPath[..|classPath|] == classPath
      && inv.userArgs[..|CmdValues(o, CliArg)|] == CmdValues(o, CliArg)
      && (found.None? ==> inv == Invocation(classPath, CmdValues(o, CliArg)))
      && (found.Some? ==>
            && |inv.classPath| == |classPath| + 1 && inv.classPath[|classPath|] == found.value
            && |inv.userArgs| == |CmdValues(o, CliArg)| + 1
            && inv.userArgs[|CmdValues(o, CliArg)|] == SelectedJunit(listing))
  {
  }

  /**
   * Soft fail: a configured LLM location whose directory is missing yields
   * the same class path and arguments as leaving the location unconfigured.
   */
  lemma {:induction false} MissingLlmDirectoryIsIgnored(o: Options, classPath: seq<Path>, outputDirectory: Path, d: Disk,
                                     listing: seq<string>)
    requires GetLlmTestClasspath(o, outputDirectory, d) == Ok(None)
    ensures PrepareInvocation(o, classPath, outputDirectory, d, listing)
         == PrepareInvocation(o - {LlmTestLocation}, classPath, outputDirectory, d, listing)
  {
    var o' := o - {LlmTestLocation};
    assert !HasOption(o', LlmTestLocation);
    assert CmdValues(o', CliArg) == CmdValues(o, CliArg);
  }
}
