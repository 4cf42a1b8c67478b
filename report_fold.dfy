/**
 * The effect of `EvoSuiteCliTool.report` on the disk, as folds over the
 * original test classes and over the cases of each. The folds take the
 * naming and text functions of `report` as a `Layout`, so that what they do
 * to the disk is reasoned about without unfolding the text processing;
 * `EvoSuiteReport.Standard` is the layout `report` uses.
 */
module ReportFold {
  import opened Wrappers
  import opened Sequences
  import opened JvmPaths
  import opened FileSystems

  /**
   * Where a dotted test name is stored, the name of a test's `index`-th case,
   * the cases of a class given its text and name, and the text written for
   * one case given the original's text and name, the index and the case,
   * and how a case file is saved.
   */
  datatype Layout = Layout(
    file: string -> Path,
    caseName: (string, nat) -> string,
    cases: (string, string) -> seq<string>,
    caseText: (string, string, nat, string) -> string,
    save: (Disk, Path, string) -> Saved)

  /** `save` writes the text at the file's location when it succeeds, and changes no file when it fails. */
  ghost predicate Saves(layout: Layout) {
    forall d: Disk, file: Path, text: string ::
      && (layout.save(d, file, text).written ==> layout.save(d, file, text).files == d.files[LocateFrom(d.cwd, file) := text])
      && (!layout.save(d, file, text).written ==> layout.save(d, file, text).files == d.files)
  }

  /** The cases of one test are stored in pairwise different files. */
  ghost predicate DistinctCaseFiles(layout: Layout) {
    forall cwd, test, i: nat, j: nat :: i != j ==>
      LocateFrom(cwd, layout.file(layout.caseName(test, i))) != LocateFrom(cwd, layout.file(layout.caseName(test, j)))
  }

  /** Why `report` throws: a test file that cannot be read, or a case file that cannot be written. */
  datatype ReportError = Unreadable(file: Path) | Unwritable(file: Path)

  /** How far `report` has got: the disk, the new test names so far, and the exception that stopped it. */
  datatype Progress = Progress(disk: Disk, names: seq<string>, failure: Option<ReportError>)

  /** Where the file of the `index`-th case of `test` is. */
  function CaseLoc(layout: Layout, cwd: seq<string>, test: string, index: nat): seq<string> {
    LocateFrom(cwd, layout.file(layout.caseName(test, index)))
  }

  /** Where the file of the original `test` is. */
  function OriginalLoc(layout: Layout, cwd: seq<string>, test: string): seq<string> {
    LocateFrom(cwd, layout.file(test))
  }

  /** The locations of the first `count` cases of `test`. */
  function CaseLocs(layout: Layout, cwd: seq<string>, test: string, count: nat): set<seq<string>> {
    set i | 0 <= i < count :: CaseLoc(layout, cwd, test, i)
  }

  /** The case names of `test` for `count` cases, in order. */
  function CaseNames(layout: Layout, test: string, count: nat): (r: seq<string>)
    ensures |r| == count
    ensures forall i :: 0 <= i < count ==> r[i] == layout.caseName(test, i)
  {
    seq(count, i requires 0 <= i < count => layout.caseName(test, i))
  }

  /** Two file maps agree everywhere outside `touched`. */
  ghost predicate SameOutside(a: map<seq<string>, string>, b: map<seq<string>, string>, touched: set<seq<string>>) {
    forall loc :: loc !in touched ==> (loc in a <==> loc in b) && (loc in a ==> a[loc] == b[loc])
  }

  /**
   * One iteration of the inner loop: record the name, then save the
   * single-case class; a file that is not written throws.
   */
  function WriteCase(layout: Layout, p: Progress, test: string, code: string, segment: string, index: nat): (r: Progress)
    ensures r.disk.cwd == p.disk.cwd
    ensures p.failure.Some? ==> r == p
    ensures p.failure.None? ==> r.names == p.names + [layout.caseName(test, index)]
    ensures p.failure.None? && r.failure.Some? ==> r.failure == Some(Unwritable(layout.file(layout.caseName(test, index))))
  {
    if p.failure.Some? then p
    else
      var name := layout.caseName(test, index);
      var file := layout.file(name);
      var saved := layout.save(p.disk, file, layout.caseText(code, test, index, segment));
      var disk := Disk(p.disk.cwd, saved.files, saved.dirs);
      Progress(disk, p.names + [name], if saved.written then None else Some(Unwritable(file)))
  }

  /** What one iteration of the inner loop does to the files. */
  lemma {:induction false} WriteCaseFiles(layout: Layout, p: Progress, test: string, code: string, segment: string, index: nat)
    requires Saves(layout)
    ensures var r := WriteCase(layout, p, test, code, segment, index);
      && (r.failure.Some? ==> r.disk.files == p.disk.files)
      && (r.failure.None? ==>
            r.disk.files == p.disk.files[CaseLoc(layout, p.disk.cwd, test, index) := layout.caseText(code, test, index, segment)])
  {
  }

  /** The inner loop over the cases of one original, whose text is `code`. */
  function WriteCases(layout: Layout, start: Progress, test: string, code: string, cases: seq<string>): (r: Progress)
    ensures r.disk.cwd == start.disk.cwd
    ensures start.failure.Some? ==> r == start
    ensures start.failure.None? && r.failure.Some? ==> r.failure.value.Unwritable?
    decreases |cases|
  {
    if |cases| == 0 then start
    else
      var n := |cases| - 1;
      WriteCase(layout, WriteCases(layout, start, test, code, cases[..n]), test, code, cases[n], n)
  }

  /** One iteration of the outer loop: read the original and write its cases; an unreadable file throws. */
  function ProcessTest(layout: Layout, p: Progress, test: string): (r: Progress)
    ensures r.disk.cwd == p.disk.cwd
    ensures p.failure.Some? ==> r == p
  {
    if p.failure.Some? then p
    else
      match ReadFile(p.disk, layout.file(test))
      case None => p.(failure := Some(Unreadable(layout.file(test))))
      case Some(code) => WriteCases(layout, p, test, code, layout.cases(code, test))
  }

  /** The outer loop over the originals. */
  function ProcessTests(layout: Layout, start: Progress, tests: seq<string>): (r: Progress)
    ensures r.disk.cwd == start.disk.cwd
    ensures start.failure.Some? ==> r == start
    decreases |tests|
  {
    if |tests| == 0 then start
    else ProcessTest(layout, ProcessTests(layout, start, tests[..|tests| - 1]), tests[|tests| - 1])
  }

  /** The final `forEach` that deletes every original. */
  function DeleteOriginals(layout: Layout, d: Disk, tests: seq<string>): (r: Disk)
    ensures r.cwd == d.cwd
    decreases |tests|
  {
    if |tests| == 0 then d
    else DeleteFile(DeleteOriginals(layout, d, tests[..|tests| - 1]), layout.file(tests[|tests| - 1]))
  }

  /** Once a case fails to be written, the remaining cases change nothing: the exception ends the loop. */
  lemma {:induction false} WriteCasesStuck(layout: Layout, start: Progress, test: string, code: string, cases: seq<string>, k: nat)
    requires k <= |cases| && WriteCases(layout, start, test, code, cases[..k]).failure.Some?
    ensures WriteCases(layout, start, test, code, cases) == WriteCases(layout, start, test, code, cases[..k])
    decreases |cases|
  {
    if k < |cases| {
      var n := |cases| - 1;
      assert cases[..n][..k] == cases[..k];
      WriteCasesStuck(layout, start, test, code, cases[..n], k);
    } else {
      assert cases[..k] == cases;
    }
  }

  /** Once an original fails, the remaining originals change nothing: the exception ends the loop. */
  lemma {:induction false} ProcessTestsStuck(layout: Layout, start: Progress, tests: seq<string>, k: nat)
    requires k <= |tests| && ProcessTests(layout, start, tests[..k]).failure.Some?
    ensures ProcessTests(layout, start, tests) == ProcessTests(layout, start, tests[..k])
    decreases |tests|
  {
    if k < |tests| {
      var n := |tests| - 1;
      assert tests[..n][..k] == tests[..k];
      ProcessTestsStuck(layout, start, tests[..n], k);
    } else {
      assert tests[..k] == tests;
    }
  }

  /** Without a failure, the inner loop records the case names in order. */
  lemma {:induction false} WriteCasesNames(layout: Layout, start: Progress, test: string, code: string, cases: seq<string>)
    ensures var r := WriteCases(layout, start, test, code, cases);
      r.failure.None? ==> r.names == start.names + CaseNames(layout, test, |cases|)
    decreases |cases|
  {
    if |cases| == 0 {
      assert CaseNames(layout, test, 0) == [];
    } else {
      var n := |cases| - 1;
      WriteCasesNames(layout, start, test, code, cases[..n]);
      assert CaseNames(layout, test, n + 1) == CaseNames(layout, test, n) + [layout.caseName(test, n)];
    }
  }

  /** The inner loop changes no file but the case files. */
  lemma {:induction false} WriteCasesFrame(layout: Layout, start: Progress, test: string, code: string, cases: seq<string>)
    requires Saves(layout)
    ensures var r := WriteCases(layout, start, test, code, cases);
      SameOutside(start.disk.files, r.disk.files, CaseLocs(layout, start.disk.cwd, test, |cases|))
    decreases |cases|
  {
    var cwd := start.disk.cwd;
    if |cases| == 0 {
      assert CaseLocs(layout, cwd, test, 0) == {};
    } else {
      var n := |cases| - 1;
      WriteCasesFrame(layout, start, test, code, cases[..n]);
      WriteCaseFiles(layout, WriteCases(layout, start, test, code, cases[..n]), test, code, cases[n], n);
      assert CaseLocs(layout, cwd, test, n + 1) == CaseLocs(layout, cwd, test, n) + {CaseLoc(layout, cwd, test, n)};
    }
  }

  /** Every case file holds the text of its case. */
  ghost predicate CasesWritten(layout: Layout, cwd: seq<string>, files: map<seq<string>, string>, test: string, code: string, cases: seq<string>) {
    forall i :: 0 <= i < |cases| ==>
      && CaseLoc(layout, cwd, test, i) in files
      && files[CaseLoc(layout, cwd, test, i)] == layout.caseText(code, test, i, cases[i])
  }

  /** Without a failure, every case file holds the text of its case. */
  lemma {:induction false} WriteCasesContents(layout: Layout, start: Progress, test: string, code: string, cases: seq<string>)
    requires DistinctCaseFiles(layout) && Saves(layout)
    ensures var r := WriteCases(layout, start, test, code, cases);
      r.failure.None? ==> CasesWritten(layout, start.disk.cwd, r.disk.files, test, code, cases)
    decreases |cases|
  {
    if |cases| > 0 {
      var n := |cases| - 1;
      var prev := WriteCases(layout, start, test, code, cases[..n]);
      WriteCasesContents(layout, start, test, code, cases[..n]);
      WriteCaseKeeps(layout, prev, test, code, cases);
    }
  }

  lemma {:induction false} WriteCaseKeeps(layout: Layout, prev: Progress, test: string, code: string, cases: seq<string>)
    requires DistinctCaseFiles(layout) && Saves(layout) && |cases| > 0
    requires prev.failure.None? ==> CasesWritten(layout, prev.disk.cwd, prev.disk.files, test, code, cases[..|cases| - 1])
    ensures var r := WriteCase(layout, prev, test, code, cases[|cases| - 1], |cases| - 1);
      r.failure.None? ==> CasesWritten(layout, prev.disk.cwd, r.disk.files, test, code, cases)
  {
    var n := |cases| - 1;
    var cwd := prev.disk.cwd;
    var r := WriteCase(layout, prev, test, code, cases[n], n);
    WriteCaseFiles(layout, prev, test, code, cases[n], n);
    if r.failure.None? {
      forall i | 0 <= i < |cases|
        ensures CaseLoc(layout, cwd, test, i) in r.disk.files
        ensures r.disk.files[CaseLoc(layout, cwd, test, i)] == layout.caseText(code, test, i, cases[i])
      {
        if i < n {
          assert CaseLoc(layout, cwd, test, i) != CaseLoc(layout, cwd, test, n);
          assert cases[..n][i] == cases[i];
        }
      }
    }
  }

  /** How many cases the original `test` yields when `files` holds its text (none when it is missing). */
  function CaseCount(layout: Layout, cwd: seq<string>, files: map<seq<string>, string>, test: string): nat {
    var loc := OriginalLoc(layout, cwd, test);
    if loc in files then |layout.cases(files[loc], test)| else 0
  }

  /** The names `report` returns for the originals `tests` held in `files`: each original's cases in order. */
  function ExpectedNames(layout: Layout, cwd: seq<string>, files: map<seq<string>, string>, tests: seq<string>): seq<string>
    decreases |tests|
  {
    if |tests| == 0 then []
    else
      var t := tests[|tests| - 1];
      ExpectedNames(layout, cwd, files, tests[..|tests| - 1]) + CaseNames(layout, t, CaseCount(layout, cwd, files, t))
  }

  /** The locations of all the case files of `tests`. */
  function AllCaseLocs(layout: Layout, cwd: seq<string>, files: map<seq<string>, string>, tests: seq<string>): set<seq<string>>
    decreases |tests|
  {
    if |tests| == 0 then {}
    else
      var t := tests[|tests| - 1];
      AllCaseLocs(layout, cwd, files, tests[..|tests| - 1]) + CaseLocs(layout, cwd, t, CaseCount(layout, cwd, files, t))
  }

  /** The locations of the originals. */
  function OriginalLocs(layout: Layout, cwd: seq<string>, tests: seq<string>): set<seq<string>> {
    set t | t in tests :: OriginalLoc(layout, cwd, t)
  }

  /**
   * No case file of an original lands on an original's file, and different
   * originals have different case files.
   */
  ghost predicate NoClash(layout: Layout, cwd: seq<string>, tests: seq<string>) {
    && (forall t, u, i: nat :: t in tests && u in tests ==> CaseLoc(layout, cwd, t, i) != OriginalLoc(layout, cwd, u))
    && (forall t, u, i: nat, j: nat :: t in tests && u in tests && t != u ==> CaseLoc(layout, cwd, t, i) != CaseLoc(layout, cwd, u, j))
  }

  /** The original `test` was a file of `original`, and `files` holds the text of every one of its cases. */
  ghost predicate CasesOfWritten(layout: Layout, cwd: seq<string>, original: map<seq<string>, string>, files: map<seq<string>, string>, test: string) {
    var loc := OriginalLoc(layout, cwd, test);
    && loc in original
    && CasesWritten(layout, cwd, files, test, original[loc], layout.cases(original[loc], test))
  }

  lemma {:induction false} NoClashPrefix(layout: Layout, cwd: seq<string>, tests: seq<string>, n: nat)
    requires n <= |tests| && NoClash(layout, cwd, tests)
    ensures NoClash(layout, cwd, tests[..n])
  {
    assert forall t :: t in tests[..n] ==> t in tests;
  }

  /** A location that is no case file of any of `tests` is outside their case locations. */
  lemma {:induction false} NotInAllCaseLocs(layout: Layout, cwd: seq<string>, files: map<seq<string>, string>, tests: seq<string>, loc: seq<string>)
    requires forall t, i: nat :: t in tests ==> CaseLoc(layout, cwd, t, i) != loc
    ensures loc !in AllCaseLocs(layout, cwd, files, tests)
    decreases |tests|
  {
    if |tests| > 0 {
      var n := |tests| - 1;
      assert forall t :: t in tests[..n] ==> t in tests;
      NotInAllCaseLocs(layout, cwd, files, tests[..n], loc);
    }
  }

  /** Two file maps agree at `loc`. */
  ghost predicate SameAt(a: map<seq<string>, string>, b: map<seq<string>, string>, loc: seq<string>) {
    (loc in a <==> loc in b) && (loc in a ==> a[loc] == b[loc])
  }

  lemma {:induction false} SameOutsideAt(a: map<seq<string>, string>, b: map<seq<string>, string>, touched: set<seq<string>>, loc: seq<string>)
    requires SameOutside(a, b, touched) && loc !in touched
    ensures SameAt(a, b, loc)
  {
  }

  lemma {:induction false} SameOutsideTrans(a: map<seq<string>, string>, b: map<seq<string>, string>, c: map<seq<string>, string>,
                                            first: set<seq<string>>, second: set<seq<string>>)
    requires SameOutside(a, b, first) && SameOutside(b, c, second)
    ensures SameOutside(a, c, first + second)
  {
  }

  /** Maps that agree on an original's file give it the same cases. */
  lemma {:induction false} SameOriginal(layout: Layout, cwd: seq<string>, a: map<seq<string>, string>, b: map<seq<string>, string>,
                                        files: map<seq<string>, string>, test: string)
    requires SameAt(a, b, OriginalLoc(layout, cwd, test))
    ensures CaseCount(layout, cwd, a, test) == CaseCount(layout, cwd, b, test)
    ensures CasesOfWritten(layout, cwd, a, files, test) ==> CasesOfWritten(layout, cwd, b, files, test)
  {
  }

  /** One original changes no file but its own case files. */
  lemma {:induction false} ProcessTestFrame(layout: Layout, p: Progress, test: string)
    requires Saves(layout)
    ensures var r := ProcessTest(layout, p, test);
      SameOutside(p.disk.files, r.disk.files, CaseLocs(layout, p.disk.cwd, test, CaseCount(layout, p.disk.cwd, p.disk.files, test)))
  {
    if p.failure.None? {
      match ReadFile(p.disk, layout.file(test))
      case None =>
      case Some(code) =>
        WriteCasesFrame(layout, p, test, code, layout.cases(code, test));
    }
  }

  /** Without a failure, one original was a file and adds the names of its cases. */
  lemma {:induction false} ProcessTestNames(layout: Layout, p: Progress, test: string)
    ensures var r := ProcessTest(layout, p, test);
      p.failure.None? && r.failure.None? ==>
        && OriginalLoc(layout, p.disk.cwd, test) in p.disk.files
        && r.names == p.names + CaseNames(layout, test, CaseCount(layout, p.disk.cwd, p.disk.files, test))
  {
    if p.failure.None? {
      match ReadFile(p.disk, layout.file(test))
      case None =>
      case Some(code) =>
        WriteCasesNames(layout, p, test, code, layout.cases(code, test));
    }
  }

  /** Without a failure, one original's case files hold their texts. */
  lemma {:induction false} ProcessTestContents(layout: Layout, p: Progress, test: string)
    requires DistinctCaseFiles(layout) && Saves(layout)
    ensures var r := ProcessTest(layout, p, test);
      p.failure.None? && r.failure.None? ==> CasesOfWritten(layout, p.disk.cwd, p.disk.files, r.disk.files, test)
  {
    if p.failure.None? {
      match ReadFile(p.disk, layout.file(test))
      case None =>
      case Some(code) =>
        WriteCasesContents(layout, p, test, code, layout.cases(code, test));
    }
  }

  /** One original fails as unreadable exactly when it is not a file. */
  lemma {:induction false} ProcessTestUnreadable(layout: Layout, p: Progress, test: string)
    requires p.failure.None?
    ensures var r := ProcessTest(layout, p, test);
      r.failure.Some? && r.failure.value.Unreadable? <==> OriginalLoc(layout, p.disk.cwd, test) !in p.disk.files
    ensures var r := ProcessTest(layout, p, test);
      r.failure.Some? && r.failure.value.Unreadable? ==> r.failure.value.file == layout.file(test)
  {
  }

  /**
   * Under no clash, the outer loop changes no file but the case files, so
   * every original is read as it was on the starting disk.
   */
  lemma {:induction false} ProcessTestsFrame(layout: Layout, start: Progress, tests: seq<string>)
    requires Saves(layout)
    requires NoClash(layout, start.disk.cwd, tests)
    ensures var r := ProcessTests(layout, start, tests);
      SameOutside(start.disk.files, r.disk.files, AllCaseLocs(layout, start.disk.cwd, start.disk.files, tests))
    decreases |tests|
  {
    if |tests| > 0 {
      var cwd, files := start.disk.cwd, start.disk.files;
      var n := |tests| - 1;
      var t := tests[n];
      var prev := ProcessTests(layout, start, tests[..n]);
      NoClashPrefix(layout, cwd, tests, n);
      ProcessTestsFrame(layout, start, tests[..n]);
      OriginalUntouched(layout, start, tests, n);
      ProcessTestFrame(layout, prev, t);
      SameOutsideTrans(files, prev.disk.files, ProcessTest(layout, prev, t).disk.files,
        AllCaseLocs(layout, cwd, files, tests[..n]), CaseLocs(layout, cwd, t, CaseCount(layout, cwd, files, t)));
    }
  }

  /** Before the `n`-th original is processed, its file is as it was on the starting disk. */
  lemma {:induction false} OriginalUntouched(layout: Layout, start: Progress, tests: seq<string>, n: nat)
    requires n < |tests| && NoClash(layout, start.disk.cwd, tests)
    requires NoClash(layout, start.disk.cwd, tests[..n])
    requires SameOutside(start.disk.files, ProcessTests(layout, start, tests[..n]).disk.files,
                         AllCaseLocs(layout, start.disk.cwd, start.disk.files, tests[..n]))
    ensures var prev := ProcessTests(layout, start, tests[..n]);
      && prev.disk.cwd == start.disk.cwd
      && SameAt(prev.disk.files, start.disk.files, OriginalLoc(layout, start.disk.cwd, tests[n]))
      && CaseCount(layout, start.disk.cwd, prev.disk.files, tests[n]) == CaseCount(layout, start.disk.cwd, start.disk.files, tests[n])
  {
    var cwd, files := start.disk.cwd, start.disk.files;
    var prev := ProcessTests(layout, start, tests[..n]);
    var loc := OriginalLoc(layout, cwd, tests[n]);
    NotInAllCaseLocs(layout, cwd, files, tests[..n], loc);
    SameOutsideAt(files, prev.disk.files, AllCaseLocs(layout, cwd, files, tests[..n]), loc);
    SameOriginal(layout, cwd, prev.disk.files, files, files, tests[n]);
  }

  /** Under no clash, without a failure every original was a file and the names are the expected ones. */
  lemma {:induction false} ProcessTestsNames(layout: Layout, start: Progress, tests: seq<string>)
    requires Saves(layout)
    requires NoClash(layout, start.disk.cwd, tests)
    ensures var r := ProcessTests(layout, start, tests);
      r.failure.None? ==>
        && (forall t :: t in tests ==> OriginalLoc(layout, start.disk.cwd, t) in start.disk.files)
        && r.names == start.names + ExpectedNames(layout, start.disk.cwd, start.disk.files, tests)
    decreases |tests|
  {
    if |tests| > 0 {
      var cwd, files := start.disk.cwd, start.disk.files;
      var n := |tests| - 1;
      var t := tests[n];
      var prev := ProcessTests(layout, start, tests[..n]);
      NoClashPrefix(layout, cwd, tests, n);
      ProcessTestsNames(layout, start, tests[..n]);
      ProcessTestsFrame(layout, start, tests[..n]);
      OriginalUntouched(layout, start, tests, n);
      ProcessTestNames(layout, prev, t);
      AppendAssoc(start.names, ExpectedNames(layout, cwd, files, tests[..n]), CaseNames(layout, t, CaseCount(layout, cwd, files, t)));
      FrontLast(tests);
    }
  }

  /** The cases of `u` stay written while only the case files of another test `t` change. */
  lemma {:induction false} OtherCasesKept(layout: Layout, cwd: seq<string>, original: map<seq<string>, string>,
                       a: map<seq<string>, string>, b: map<seq<string>, string>, t: string, count: nat, u: string)
    requires CasesOfWritten(layout, cwd, original, a, u)
    requires SameOutside(a, b, CaseLocs(layout, cwd, t, count))
    requires forall i: nat, j: nat :: CaseLoc(layout, cwd, u, i) != CaseLoc(layout, cwd, t, j)
    ensures CasesOfWritten(layout, cwd, original, b, u)
  {
    var code := original[OriginalLoc(layout, cwd, u)];
    var cases := layout.cases(code, u);
    forall i | 0 <= i < |cases|
      ensures CaseLoc(layout, cwd, u, i) in b
      ensures b[CaseLoc(layout, cwd, u, i)] == layout.caseText(code, u, i, cases[i])
    {
      assert CaseLoc(layout, cwd, u, i) !in CaseLocs(layout, cwd, t, count);
    }
  }

  /** Under no clash, without a failure every original's cases are on disk, each holding its text. */
  lemma {:induction false} ProcessTestsContents(layout: Layout, start: Progress, tests: seq<string>)
    requires NoClash(layout, start.disk.cwd, tests)
    requires DistinctCaseFiles(layout) && Saves(layout)
    ensures var r := ProcessTests(layout, start, tests);
      r.failure.None? ==> forall t :: t in tests ==> CasesOfWritten(layout, start.disk.cwd, start.disk.files, r.disk.files, t)
    decreases |tests|
  {
    if |tests| > 0 {
      var cwd, files := start.disk.cwd, start.disk.files;
      var n := |tests| - 1;
      var t := tests[n];
      var prev := ProcessTests(layout, start, tests[..n]);
      var r := ProcessTest(layout, prev, t);
      NoClashPrefix(layout, cwd, tests, n);
      ProcessTestsContents(layout, start, tests[..n]);
      ProcessTestsFrame(layout, start, tests[..n]);
      OriginalUntouched(layout, start, tests, n);
      if r.failure.None? {
        ProcessTestContents(layout, prev, t);
        SameOriginal(layout, cwd, prev.disk.files, files, r.disk.files, t);
        ProcessTestFrame(layout, prev, t);
        FrontLast(tests);
        forall u | u in tests
          ensures CasesOfWritten(layout, cwd, files, r.disk.files, u)
        {
          if u != t {
            OtherCasesKept(layout, cwd, files, prev.disk.files, r.disk.files, t, CaseCount(layout, cwd, files, t), u);
          }
        }
      }
    }
  }

  /** The delete loop removes exactly the originals' files. */
  lemma {:induction false} DeleteOriginalsEffect(layout: Layout, d: Disk, tests: seq<string>)
    ensures DeleteOriginals(layout, d, tests).files == d.files - OriginalLocs(layout, d.cwd, tests)
    decreases |tests|
  {
    if |tests| > 0 {
      var n := |tests| - 1;
      DeleteOriginalsEffect(layout, d, tests[..n]);
      FrontLast(tests);
      assert OriginalLocs(layout, d.cwd, tests) == OriginalLocs(layout, d.cwd, tests[..n]) + {OriginalLoc(layout, d.cwd, tests[n])};
    }
  }

  /**
   * Under no clash, the outer loop stops on an unreadable file only at an
   * original that was not a file to begin with.
   */
  lemma {:induction false} ProcessTestsUnreadable(layout: Layout, start: Progress, tests: seq<string>)
    requires Saves(layout)
    requires NoClash(layout, start.disk.cwd, tests) && start.failure.None?
    ensures var r := ProcessTests(layout, start, tests);
      r.failure.Some? && r.failure.value.Unreadable? ==>
        exists t :: t in tests && r.failure.value.file == layout.file(t) && OriginalLoc(layout, start.disk.cwd, t) !in start.disk.files
    decreases |tests|
  {
    if |tests| > 0 {
      var cwd := start.disk.cwd;
      var n := |tests| - 1;
      var t := tests[n];
      var prev := ProcessTests(layout, start, tests[..n]);
      NoClashPrefix(layout, cwd, tests, n);
      ProcessTestsUnreadable(layout, start, tests[..n]);
      FrontLast(tests);
      if prev.failure.None? {
        ProcessTestsFrame(layout, start, tests[..n]);
        OriginalUntouched(layout, start, tests, n);
        ProcessTestUnreadable(layout, prev, t);
      }
    }
  }
}
