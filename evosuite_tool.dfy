/**
 * The adapter class `EvoSuiteCliTool`: `init` stores the project root and
 * class path, `run` makes the output directory, extends the class path with
 * the LLM-test directory when one is found and builds the EvoSuite command,
 * and `report` splits the generated test classes on the file system. Each
 * method is proved to do what the functions of `EvoSuiteArgs` and
 * `EvoSuiteReport` specify.
 */
module EvoSuiteTool {
  import opened Wrappers
  import opened JvmPaths
  import opened FileSystems
  import opened EvoSuiteArgs
  import opened EvoSuiteReport
  import opened ReportFold

  /** What `run` stops with: an exception thrown before the process is started. */
  datatype RunOutcome = Command(args: seq<string>) | Thrown(error: RunError)

  class EvoSuiteCliTool {
    const name: string
    /** The options given to the constructor, as the parser reads them. */
    const options: Options
    const fs: FileSystem

    /** The `lateinit` fields; `None` until `init` or `run` sets them. */
    var root: Option<Path>
    var classPath: seq<Path>
    /** Whether the list handed to `init` accepts `add`. */
    var classPathGrowable: bool
    var outputDirectory: Option<Path>

    constructor (options: Options, fs: FileSystem)
      ensures this.name == "EvoSuite" && this.options == options && this.fs == fs
      ensures root.None? && outputDirectory.None?
    {
      this.name := "EvoSuite";
      this.options := options;
      this.fs := fs;
      root := None;
      classPath := [];
      classPathGrowable := false;
      outputDirectory := None;
    }

    /** `init(root, classPath)`: records the root and the class path; whether the list can grow is a parameter. */
    method Init(root: Path, classPath: seq<Path>, growable: bool)
      modifies this
      ensures this.root == Some(root) && this.classPath == classPath && classPathGrowable == growable
      ensures outputDirectory == old(outputDirectory)
    {
      this.root := Some(root);
      this.classPath := classPath;
      classPathGrowable := growable;
    }

    /**
     * The part of `run(target, timeLimit, outputDirectory)` before the
     * process starts. `javaPath` is what `getJavaPath()` returns and `home`
     * the pipeline's home directory; `entries` is the listing of the LLM
     * directory in the order the platform gave it (empty when none was found).
     */
    method Run(target: string, timeLimitMillis: int, outputDirectory: Path, javaPath: string, home: Path)
      returns (r: RunOutcome, entries: seq<string>)
      requires root.Some?
      modifies this, fs
      ensures this.outputDirectory == Some(outputDirectory)
      ensures fs.Snapshot() == MakeDirs(old(fs.Snapshot()), outputDirectory)
      ensures root == old(root) && classPathGrowable == old(classPathGrowable)
      ensures var found := GetLlmTestClasspath(options, outputDirectory, fs.Snapshot());
        && (found.Ok? && found.value.Some? && classPathGrowable ==> forall e :: e in entries <==> e in Children(fs.Snapshot(), found.value.value))
        && (found.Err? ==> r == Thrown(found.error) && classPath == old(classPath))
        && (found.Ok? && found.value.Some? && !classPathGrowable ==> r == Thrown(UnsupportedAdd) && classPath == old(classPath))
        && (found.Ok? && (found.value.None? || classPathGrowable) ==>
              var inv := PrepareInvocation(options, old(classPath), outputDirectory, fs.Snapshot(), entries).value;
              && classPath == inv.classPath
              && r == Command(EvoSuiteCommand(javaPath, EvoSuiteJar(home), outputDirectory, inv.classPath,
                                              timeLimitMillis, target, inv.userArgs)))
    {
      this.outputDirectory := Some(outputDirectory);
      fs.Mkdirs(outputDirectory);
      var userArgs := CmdValues(options, CliArg);
      entries := [];
      var found := GetLlmTestClasspath(options, outputDirectory, fs.Snapshot());
      if found.Err? {
        return Thrown(found.error), entries;
      }
      if found.value.Some? {
        var dir := found.value.value;
        if !classPathGrowable {
          return Thrown(UnsupportedAdd), entries;
        }
        classPath := classPath + [dir];
        entries := fs.ListDirectoryEntries(dir);
        userArgs := userArgs + [SelectedJunit(entries)];
      }
      r := Command(EvoSuiteCommand(javaPath, EvoSuiteJar(home), outputDirectory, classPath, timeLimitMillis, target, userArgs));
    }

    /**
     * `report()`: what it leaves on the disk and what it returns or throws
     * are those of `ReportOutcome`, for the order `walk` in which
     * `Files.walk` listed the tests directory (empty when there is none).
     * The loops apply the naming and text functions of `Standard(testRoot)`.
     */
    method Report() returns (r: Result<TestSuite, ReportError>, walk: seq<seq<string>>)
      requires outputDirectory.Some?
      modifies fs
      ensures var out := ReportOutcome(old(fs.Snapshot()), outputDirectory.value, walk);
        fs.Snapshot() == out.disk && r == out.outcome
      ensures var testRoot := TestSourceRoot(outputDirectory.value);
        Exists(old(fs.Snapshot()), testRoot) ==> forall e :: e in walk <==> e in Entries(old(fs.Snapshot()), testRoot)
    {
      var testRoot := TestSourceRoot(outputDirectory.value);
      var layout := Standard(testRoot);
      StandardSavesFiles(testRoot);
      walk := [];
      if Exists(fs.Snapshot(), testRoot) {
        walk := fs.Walk(testRoot);
      }
      var originals := Originals(fs.Snapshot(), outputDirectory.value, walk);
      var newTests, failure := SplitOriginals(layout, originals);
      if failure.Some? {
        return Err(failure.value), walk;
      }
      DeleteOriginalFiles(layout, originals);
      r := Ok(TestSuite(testRoot, newTests, [], Dependencies));
    }

    /**
     * The outer loop of `report`: each original is read and its cases
     * written, their names appended to `newTests`; the first file that
     * cannot be read or written ends the loop.
     */
    method SplitOriginals(layout: Layout, originals: seq<string>) returns (newTests: seq<string>, failure: Option<ReportError>)
      requires SavesFiles(layout)
      modifies fs
      ensures ProcessTests(layout, Progress(old(fs.Snapshot()), [], None), originals) == Progress(fs.Snapshot(), newTests, failure)
    {
      ghost var start := Progress(fs.Snapshot(), [], None);
      newTests, failure := [], None;
      var i := 0;
      while i < |originals|
        invariant i <= |originals| && failure.None?
        invariant ProcessTests(layout, start, originals[..i]) == Progress(fs.Snapshot(), newTests, None)
      {
        var test := originals[i];
        ghost var before := Progress(fs.Snapshot(), newTests, None);
        var text := fs.ReadText(layout.file(test));
        if text.None? {
          ReportFails(layout, start, originals, i, before);
          return newTests, Some(Unreadable(layout.file(test)));
        }
        NextOriginal(layout, start, originals, i, before, text.value);
        newTests, failure := WriteTestCases(layout, test, text.value, newTests);
        if failure.Some? {
          ProcessTestsStuck(layout, start, originals, i + 1);
          return;
        }
        i := i + 1;
      }
      assert originals[..i] == originals;
    }

    /**
     * The inner loop of `report` over the cases of the original `test`
     * whose text is `code`: each case's name is appended to `newTests` and
     * its single-case class saved; a file that cannot be written ends the loop.
     */
    method WriteTestCases(layout: Layout, test: string, code: string, newTests: seq<string>)
      returns (names: seq<string>, failure: Option<ReportError>)
      requires SavesFiles(layout)
      modifies fs
      ensures WriteCases(layout, Progress(old(fs.Snapshot()), newTests, None), test, code, layout.cases(code, test))
           == Progress(fs.Snapshot(), names, failure)
    {
      ghost var before := Progress(fs.Snapshot(), newTests, None);
      var functions := layout.cases(code, test);
      names := newTests;
      var j := 0;
      while j < |functions|
        invariant j <= |functions| && fs.cwd == before.disk.cwd
        invariant WriteCases(layout, before, test, code, functions[..j]) == Progress(fs.Snapshot(), names, None)
      {
        ghost var current := Progress(fs.Snapshot(), names, None);
        var newTestName := layout.caseName(test, j);
        names := names + [newTestName];
        var newTestFile := layout.file(newTestName);
        var written := fs.Save(newTestFile, layout.caseText(code, test, j, functions[j]));
        NextCase(layout, before, test, code, functions, j, current);
        if !written {
          WriteCasesStuck(layout, before, test, code, functions, j + 1);
          return names, Some(Unwritable(newTestFile));
        }
        j := j + 1;
      }
      assert functions[..j] == functions;
      failure := None;
    }

    /** The final `forEach` of `report`: every original's file is deleted. */
    method DeleteOriginalFiles(layout: Layout, originals: seq<string>)
      modifies fs
      ensures fs.Snapshot() == DeleteOriginals(layout, old(fs.Snapshot()), originals)
    {
      var k := 0;
      while k < |originals|
        invariant k <= |originals|
        invariant fs.Snapshot() == DeleteOriginals(layout, old(fs.Snapshot()), originals[..k])
      {
        fs.Delete(layout.file(originals[k]));
        assert originals[..k + 1][..k] == originals[..k];
        k := k + 1;
      }
      assert originals[..k] == originals;
    }
  }

  /** The layout saves a file as the file system's `Save` does. */
  ghost predicate SavesFiles(layout: Layout) {
    forall d, p, text :: layout.save(d, p, text) == SaveFile(d, p, text)
  }

  lemma {:induction false} StandardSavesFiles(testRoot: Path)
    ensures SavesFiles(Standard(testRoot))
  {
  }

  /** Reading the `i`-th original and writing its cases is the next step of the outer fold. */
  lemma {:induction false} NextOriginal(layout: Layout, start: Progress, originals: seq<string>, i: nat, before: Progress, code: string)
    requires i < |originals|
    requires ProcessTests(layout, start, originals[..i]) == before && before.failure.None?
    requires ReadFile(before.disk, layout.file(originals[i])) == Some(code)
    ensures ProcessTests(layout, start, originals[..i + 1]) == WriteCases(layout, before, originals[i], code, layout.cases(code, originals[i]))
  {
    assert originals[..i + 1][..i] == originals[..i];
  }

  /** Saving the `j`-th case is the next step of the inner fold. */
  lemma {:induction false} NextCase(layout: Layout, before: Progress, test: string, code: string, cases: seq<string>, j: nat,
                                    current: Progress)
    requires SavesFiles(layout) && j < |cases|
    requires WriteCases(layout, before, test, code, cases[..j]) == current && current.failure.None?
    ensures var file := layout.file(layout.caseName(test, j));
      var s := SaveFile(current.disk, file, layout.caseText(code, test, j, cases[j]));
      WriteCases(layout, before, test, code, cases[..j + 1])
        == Progress(Disk(current.disk.cwd, s.files, s.dirs), current.names + [layout.caseName(test, j)],
                    if s.written then None else Some(Unwritable(file)))
  {
    assert cases[..j + 1][..j] == cases[..j];
  }

  /** An original that cannot be read ends `report` with the disk as the originals before it left it. */
  lemma {:induction false} ReportFails(layout: Layout, start: Progress, originals: seq<string>, i: nat, before: Progress)
    requires i < |originals|
    requires ProcessTests(layout, start, originals[..i]) == before && before.failure.None?
    requires ReadFile(before.disk, layout.file(originals[i])).None?
    ensures ProcessTests(layout, start, originals) == before.(failure := Some(Unreadable(layout.file(originals[i]))))
  {
    assert originals[..i + 1][..i] == originals[..i];
    ProcessTestsStuck(layout, start, originals, i + 1);
  }
}
