/**
 * `EvoSuiteCliTool.report`: every multi-case JUnit class EvoSuite wrote under
 * `evosuite-tests` is split on `@Test` into one class per test case, the
 * originals are deleted, and a test suite with the fixed EvoSuite
 * dependencies is returned. The text pipeline is a set of functions; the
 * effect on the disk is a fold over the originals, which the `Report` method
 * of the adapter class is proved to follow.
 */
module EvoSuiteReport {
  import opened Wrappers
  import opened Sequences
  import opened KotlinText
  import opened JvmPaths
  import opened FileSystems
  import opened ReportFold

  const TestsDirectory := "evosuite-tests"
  const ClassKeyword := "public class"
  const TestMarker := "@Test"
  const EvoSuiteDependencyVersion := "1.0.6"

  datatype Dependency = Dependency(group: string, artifact: string, version: string)

  datatype TestSuite = TestSuite(root: Path, testNames: seq<string>, resources: seq<Path>, dependencies: seq<Dependency>)

  /** The libraries every EvoSuite suite needs, whatever was generated. */
  const Dependencies := [
    Dependency("junit", "junit", "4.13.2"),
    Dependency("org.evosuite", "evosuite-master", EvoSuiteDependencyVersion),
    Dependency("org.evosuite", "evosuite-standalone-runtime", EvoSuiteDependencyVersion)
  ]

  /** `outputDirectory.resolve("evosuite-tests")`. */
  function TestSourceRoot(outputDirectory: Path): (r: Path)
    ensures r.absolute == outputDirectory.absolute && r.names == outputDirectory.names + [TestsDirectory]
  {
    Resolve(outputDirectory, Path(false, [TestsDirectory]))
  }

  /** The file name of a walk entry given relative to the tests directory. */
  function EntryFileName(rel: seq<string>): string {
    if |rel| == 0 then TestsDirectory else rel[|rel| - 1]
  }

  /** `relativize(entry).toString().replace(separator, '.').removeSuffix(".java")`. */
  function TestName(rel: seq<string>): string {
    RemoveSuffix(ReplaceChar(Join(rel, "/"), '/', '.'), ".java")
  }

  /** The dotted names of the `.java` entries of a walk, in walk order. */
  function OriginalTests(walk: seq<seq<string>>): (r: seq<string>)
    ensures |r| <= |walk|
    ensures forall rel :: rel in walk && EndsWith(EntryFileName(rel), ".java") ==> TestName(rel) in r
    ensures forall t :: t in r ==> exists rel :: rel in walk && EndsWith(EntryFileName(rel), ".java") && t == TestName(rel)
  {
    if |walk| == 0 then []
    else
      var rest := OriginalTests(walk[1..]);
      assert forall rel :: rel in walk[1..] ==> rel in walk;
      if EndsWith(EntryFileName(walk[0]), ".java") then [TestName(walk[0])] + rest else rest
  }

  /** The file of a dotted test name: `testSrcPath.resolve(name.replace('.', separator) + ".java")`. */
  function SourceFile(testRoot: Path, name: string): Path {
    Resolve(testRoot, Parse(ReplaceChar(name, '.', '/') + ".java"))
  }

  /** `name.substringAfterLast('.')`: the class's simple name. */
  function SimpleName(name: string): string {
    SubstringAfterLast(name, '.')
  }

  /** Everything before the first `public class`. */
  function Header(code: string): string {
    SubstringBefore(code, ClassKeyword)
  }

  function ClassOpener(simpleName: string): string {
    "public class " + simpleName + " {"
  }

  /** The class body: header and opener removed, then a final newline and `}`, then trimmed. */
  function ClassBody(code: string, simpleName: string): string {
    var afterHeader := RemovePrefix(code, Header(code));
    Trim(RemoveSuffix(RemoveSuffix(RemovePrefix(afterHeader, ClassOpener(simpleName)), "\n"), "}"))
  }

  /** `filter { it.isNotBlank() }`. */
  function NonBlank(pieces: seq<string>): (r: seq<string>)
    ensures |r| <= |pieces|
    ensures forall k :: 0 <= k < |r| ==> !IsBlank(r[k])
    ensures forall x :: x in r ==> x in pieces
    ensures forall x :: x in pieces && !IsBlank(x) ==> x in r
  {
    if |pieces| == 0 then []
    else
      var rest := NonBlank(pieces[1..]);
      assert forall x :: x in pieces[1..] ==> x in pieces;
      if IsBlank(pieces[0]) then rest else [pieces[0]] + rest
  }

  /** The pieces `filter { it.isNotBlank() }` drops: the blank ones, in their order. */
  function Blanks(pieces: seq<string>): (r: seq<string>)
    ensures forall k :: 0 <= k < |r| ==> IsBlank(r[k])
    ensures forall x :: x in pieces && IsBlank(x) ==> x in r
  {
    if |pieces| == 0 then []
    else
      var rest := Blanks(pieces[1..]);
      assert forall x :: x in pieces ==> x == pieces[0] || x in pieces[1..];
      if IsBlank(pieces[0]) then [pieces[0]] + rest else rest
  }

  /** Filtering a concatenation filters each part. */
  lemma {:induction false} FilterDistributes(a: seq<string>, b: seq<string>)
    ensures NonBlank(a + b) == NonBlank(a) + NonBlank(b)
    ensures Blanks(a + b) == Blanks(a) + Blanks(b)
  {
    if |a| == 0 {
      assert a + b == b;
    } else {
      assert (a + b)[1..] == a[1..] + b;
      FilterDistributes(a[1..], b);
      AppendAssoc([a[0]], NonBlank(a[1..]), NonBlank(b));
      AppendAssoc([a[0]], Blanks(a[1..]), Blanks(b));
    }
  }

  /** Filtering a piece and what precedes it: the filtered front, then the piece if it is not blank. */
  lemma NonBlankSnoc(front: seq<string>, x: string)
    ensures NonBlank(front + [x]) == if IsBlank(x) then NonBlank(front) else NonBlank(front) + [x]
  {
    FilterDistributes(front, [x]);
    assert [x][1..] == [];
    AppendEmpty(NonBlank(front));
  }

  /** The non-blank pieces are the pieces with the blank ones left out, in their order. */
  lemma {:induction false} NonBlankIsSubsequence(pieces: seq<string>)
    ensures Subsequence(NonBlank(pieces), pieces)
  {
    if |pieces| > 0 {
      var n := |pieces| - 1;
      var front, last := pieces[..n], pieces[n];
      NonBlankIsSubsequence(front);
      assert pieces == front + [last];
      NonBlankSnoc(front, last);
      var r := NonBlank(pieces);
      if !IsBlank(last) {
        assert r[..|r| - 1] == NonBlank(front) && r[|r| - 1] == last;
      }
    }
  }

  /**
   * Every piece is kept or dropped, exactly once: the kept and the dropped
   * pieces together are the pieces, and a blank piece makes the list shorter.
   */
  lemma {:induction false} NonBlankAndBlanksPartition(pieces: seq<string>)
    ensures multiset(NonBlank(pieces)) + multiset(Blanks(pieces)) == multiset(pieces)
    ensures |NonBlank(pieces)| + |Blanks(pieces)| == |pieces|
    ensures (exists k :: 0 <= k < |pieces| && IsBlank(pieces[k])) ==> |NonBlank(pieces)| < |pieces|
  {
    if |pieces| > 0 {
      var first, rest := pieces[0], pieces[1..];
      NonBlankAndBlanksPartition(rest);
      assert pieces == [first] + rest;
      assert multiset(pieces) == multiset{first} + multiset(rest);
      if IsBlank(first) {
        assert Blanks(pieces) == [first] + Blanks(rest);
        assert multiset(Blanks(pieces)) == multiset{first} + multiset(Blanks(rest));
      } else {
        assert NonBlank(pieces) == [first] + NonBlank(rest);
        assert multiset(NonBlank(pieces)) == multiset{first} + multiset(NonBlank(rest));
      }
    }
    if exists k :: 0 <= k < |pieces| && IsBlank(pieces[k]) {
      var k :| 0 <= k < |pieces| && IsBlank(pieces[k]);
      assert pieces[k] in Blanks(pieces);
    }
  }

  /** The test cases of one generated class: the non-blank pieces of its body split on `@Test`. */
  function TestCases(code: string, simpleName: string): seq<string> {
    NonBlank(Split(ClassBody(code, simpleName), TestMarker))
  }

  /** The name of the `index`-th case of `test`: `"$test$index"`. */
  function CaseName(test: string, index: nat): string {
    test + NatToString(index)
  }

  /** The text of one single-case class. */
  function CaseSource(header: string, className: string, segment: string): string {
    header + "public class " + className + " {" + TestMarker + segment + "}"
  }

  /** A class without `public class` has no test cases. */
  lemma {:induction false} NoClassNoCases(code: string, simpleName: string)
    requires !Contains(code, ClassKeyword)
    ensures TestCases(code, simpleName) == []
  {
    assert Header(code) == code;
    assert RemovePrefix(code, code) == "";
    assert RemovePrefix("", ClassOpener(simpleName)) == "";
    assert RemoveSuffix("", "\n") == "" && RemoveSuffix("", "}") == "";
    assert Trim("") == "";
    assert IndexOf("", TestMarker, 0) == None;
    assert Split("", TestMarker) == [""];
    assert IsBlank("");
  }

  /**
   * For a class laid out as header, opener, body and closing brace (with or
   * without a final newline), the header is what precedes the opener and the
   * cases are the non-blank pieces of the trimmed body split on `@Test`.
   */
  lemma {:induction false} ClassLayout(header: string, simpleName: string, body: string, closing: string)
    requires closing == "}" || closing == "}\n"
    requires forall j :: 0 <= j < |header| ==> !MatchesAt(header + ClassOpener(simpleName), ClassKeyword, j)
    ensures var code := header + ClassOpener(simpleName) + body + closing;
      && Header(code) == header
      && TestCases(code, simpleName) == NonBlank(Split(Trim(body), TestMarker))
  {
    HeaderBeforeOpener(header, simpleName, body + closing);
    assert header + ClassOpener(simpleName) + body + closing == header + ClassOpener(simpleName) + (body + closing);
    BodyAfterHeader(header, simpleName, body, closing);
  }

  /** Once the header is known, the class body is the trimmed text between the opener and the closing brace. */
  lemma {:induction false} BodyAfterHeader(header: string, simpleName: string, body: string, closing: string)
    requires closing == "}" || closing == "}\n"
    requires Header(header + ClassOpener(simpleName) + body + closing) == header
    ensures ClassBody(header + ClassOpener(simpleName) + body + closing, simpleName) == Trim(body)
  {
    var opener := ClassOpener(simpleName);
    var code := header + opener + body + closing;
    var afterHeader := RemovePrefix(code, header);
    AppendAssoc(header + opener, body, closing);
    AppendAssoc(header, opener, body + closing);
    assert afterHeader == opener + (body + closing);
    assert RemovePrefix(afterHeader, opener) == body + closing;
    StripClosing(body, closing);
  }

  /** Removing a final newline and then `}` leaves the body. */
  lemma {:induction false} StripClosing(body: string, closing: string)
    requires closing == "}" || closing == "}\n"
    ensures RemoveSuffix(RemoveSuffix(body + closing, "\n"), "}") == body
  {
    if closing == "}\n" {
      assert RemoveSuffix(body + closing, "\n") == body + "}";
    } else {
      assert !EndsWith(body + closing, "\n");
    }
    assert RemoveSuffix(body + "}", "}") == body;
  }

  lemma {:induction false} HeaderBeforeOpener(header: string, simpleName: string, rest: string)
    requires forall j :: 0 <= j < |header| ==> !MatchesAt(header + ClassOpener(simpleName), ClassKeyword, j)
    ensures Header(header + ClassOpener(simpleName) + rest) == header
  {
    var prefix := header + ClassOpener(simpleName);
    var code := prefix + rest;
    forall j | 0 <= j < |header|
      ensures !MatchesAt(code, ClassKeyword, j)
    {
      MatchesAtPrefix(prefix, rest, ClassKeyword, j);
    }
    assert prefix[|header|..|header| + |ClassKeyword|] == ClassKeyword;
    MatchesAtPrefix(prefix, rest, ClassKeyword, |header|);
    assert IndexOf(code, ClassKeyword, 0) == Some(|header|);
    assert code[..|header|] == header;
  }

  /** The simple name of a case is the original's simple name followed by the index. */
  lemma {:induction false} CaseSimpleName(test: string, index: nat)
    ensures SimpleName(CaseName(test, index)) == SimpleName(test) + NatToString(index)
  {
    var digits := NatToString(index);
    assert '.' !in digits;
    SubstringAfterLastAppend(test, digits, '.');
  }

  /** Where the file of a dotted name ends: its last name is the text after the last dot, plus `.java`. */
  lemma {:induction false} SourceFileName(cwd: seq<string>, testRoot: Path, name: string)
    ensures var loc := LocateFrom(cwd, SourceFile(testRoot, name));
      && |loc| > 0
      && loc[|loc| - 1] == SubstringAfterLast(ReplaceChar(name, '.', '/'), '/') + ".java"
    ensures |testRoot.names| > 0 ==> Parent(SourceFile(testRoot, name)).Some?
  {
    var dotted := ReplaceChar(name, '.', '/');
    var text := dotted + ".java";
    assert '/' !in ".java";
    SubstringAfterLastAppend(dotted, ".java", '/');
    var leaf := SubstringAfterLast(dotted, '/') + ".java";
    assert SubstringAfterLast(text, '/') == leaf;
    ParseLastName(text);
    var parsed := Parse(text);
    assert parsed.names[|parsed.names| - 1] == leaf;
    var file := Resolve(testRoot, parsed);
    assert file.names[|file.names| - 1] == leaf;
  }

  /** The `.java` files of the cases of one original are pairwise distinct. */
  lemma {:induction false} CaseFilesDistinct(cwd: seq<string>, testRoot: Path, test: string, i: nat, j: nat)
    requires i != j
    ensures LocateFrom(cwd, SourceFile(testRoot, CaseName(test, i)))
         != LocateFrom(cwd, SourceFile(testRoot, CaseName(test, j)))
  {
    var stem := SubstringAfterLast(ReplaceChar(test, '.', '/'), '/');
    var di, dj := NatToString(i), NatToString(j);
    var x, y := stem + di + ".java", stem + dj + ".java";
    assert x != y by {
      NatToStringInjective(i, j);
      MiddleDiffers(stem, di, dj, ".java");
    }
    var a := LocateFrom(cwd, SourceFile(testRoot, CaseName(test, i)));
    var b := LocateFrom(cwd, SourceFile(testRoot, CaseName(test, j)));
    LastNameOfCase(cwd, testRoot, test, i, a);
    LastNameOfCase(cwd, testRoot, test, j, b);
    LastDiffers(a, b, x, y);
  }

  lemma {:induction false} LastDiffers(a: seq<string>, b: seq<string>, x: string, y: string)
    requires |a| > 0 && a[|a| - 1] == x
    requires |b| > 0 && b[|b| - 1] == y
    requires x != y
    ensures a != b
  {
  }

  lemma {:induction false} MiddleDiffers(head: string, x: string, y: string, tail: string)
    requires x != y
    ensures head + x + tail != head + y + tail
  {
    if |x| == |y| {
      assert (head + x + tail)[|head|..|head| + |x|] == x;
      assert (head + y + tail)[|head|..|head| + |y|] == y;
    } else {
      assert |head + x + tail| != |head + y + tail|;
    }
  }

  lemma {:induction false} LastNameOfCase(cwd: seq<string>, testRoot: Path, test: string, i: nat, loc: seq<string>)
    requires loc == LocateFrom(cwd, SourceFile(testRoot, CaseName(test, i)))
    ensures |loc| > 0
      && loc[|loc| - 1] == SubstringAfterLast(ReplaceChar(test, '.', '/'), '/') + NatToString(i) + ".java"
  {
    var digits := NatToString(i);
    assert '/' !in digits && '.' !in digits;
    ReplaceCharAppend(test, digits, '.', '/');
    SubstringAfterLastAppend(ReplaceChar(test, '.', '/'), digits, '/');
    SourceFileName(cwd, testRoot, CaseName(test, i));
  }

  /** The layout `report` uses under the tests directory `testRoot`. */
  function Standard(testRoot: Path): Layout {
    Layout(
      name => SourceFile(testRoot, name),
      (test: string, index: nat) => CaseName(test, index),
      (code, test) => TestCases(code, SimpleName(test)),
      (code: string, test: string, index: nat, segment: string) => CaseSource(Header(code), SimpleName(CaseName(test, index)), segment),
      SaveFile)
  }

  /** The standard layout saves a case by making its parent directories and writing its text. */
  lemma {:induction false} StandardSaves(testRoot: Path)
    ensures Saves(Standard(testRoot))
  {
  }

  /** Under a tests directory with a name, every file `report` writes has a parent, so `parent` is never null. */
  lemma {:induction false} StandardHasParents(testRoot: Path, name: string)
    requires |testRoot.names| > 0
    ensures Parent(Standard(testRoot).file(name)).Some?
  {
    SourceFileName([], testRoot, name);
  }

  /** The cases of a test are stored in pairwise different files. */
  lemma {:induction false} StandardDistinctCaseFiles(testRoot: Path)
    ensures DistinctCaseFiles(Standard(testRoot))
  {
    var layout := Standard(testRoot);
    forall cwd, test, i: nat, j: nat | i != j
      ensures LocateFrom(cwd, layout.file(layout.caseName(test, i))) != LocateFrom(cwd, layout.file(layout.caseName(test, j)))
    {
      CaseFilesDistinct(cwd, testRoot, test, i, j);
    }
  }

  /** The text written for a case: the original's header, the class renamed to the case's name, and one `@Test` method. */
  lemma {:induction false} StandardCaseText(testRoot: Path, code: string, test: string, index: nat, segment: string)
    ensures Standard(testRoot).caseText(code, test, index, segment)
         == Header(code) + ClassOpener(SimpleName(test) + NatToString(index)) + TestMarker + segment + "}"
  {
    CaseSimpleName(test, index);
  }

  /** What `report` leaves on the disk, and the suite it returns or the exception it throws. */
  datatype Report = Report(disk: Disk, outcome: Result<TestSuite, ReportError>)

  /** The dotted names `report` splits: those of the walk's `.java` entries, none when the tests directory is missing. */
  function Originals(d: Disk, outputDirectory: Path, walk: seq<seq<string>>): seq<string> {
    if Exists(d, TestSourceRoot(outputDirectory)) then OriginalTests(walk) else []
  }

  /**
   * `report()` on disk `d`; `walk` is the order in which `Files.walk` lists
   * the tests directory (relative to it), used only when that directory exists.
   */
  function ReportOutcome(d: Disk, outputDirectory: Path, walk: seq<seq<string>>): Report {
    var testRoot := TestSourceRoot(outputDirectory);
    var layout := Standard(testRoot);
    var originals := Originals(d, outputDirectory, walk);
    var p := ProcessTests(layout, Progress(d, [], None), originals);
    if p.failure.Some? then Report(p.disk, Err(p.failure.value))
    else Report(DeleteOriginals(layout, p.disk, originals), Ok(TestSuite(testRoot, p.names, [], Dependencies)))
  }

  /** Without an `evosuite-tests` directory, `report` changes nothing and returns an empty suite. */
  lemma {:induction false} ReportWithoutTestsDirectory(d: Disk, outputDirectory: Path, walk: seq<seq<string>>)
    requires !Exists(d, TestSourceRoot(outputDirectory))
    ensures ReportOutcome(d, outputDirectory, walk) == Report(d, Ok(TestSuite(TestSourceRoot(outputDirectory), [], [], Dependencies)))
  {
    assert Originals(d, outputDirectory, walk) == [];
  }

  /**
   * When no case file clashes with an original or with another original's
   * cases, a `report` that returns has read every original, returns the
   * suite of all their cases in order, leaves each case's class in its
   * file, removes every original and touches no other file.
   */
  lemma {:induction false} ReportSplitsEveryOriginal(d: Disk, outputDirectory: Path, walk: seq<seq<string>>)
    requires NoClash(Standard(TestSourceRoot(outputDirectory)), d.cwd, Originals(d, outputDirectory, walk))
    ensures var testRoot := TestSourceRoot(outputDirectory);
      var layout := Standard(testRoot);
      var originals := Originals(d, outputDirectory, walk);
      var r := ReportOutcome(d, outputDirectory, walk);
      r.outcome.Ok? ==>
        && r.outcome.value == TestSuite(testRoot, ExpectedNames(layout, d.cwd, d.files, originals), [], Dependencies)
        && (forall t :: t in originals ==> OriginalLoc(layout, d.cwd, t) in d.files && OriginalLoc(layout, d.cwd, t) !in r.disk.files)
        && (forall t :: t in originals ==> CasesOfWritten(layout, d.cwd, d.files, r.disk.files, t))
        && SameOutside(d.files, r.disk.files, AllCaseLocs(layout, d.cwd, d.files, originals) + OriginalLocs(layout, d.cwd, originals))
  {
    var testRoot := TestSourceRoot(outputDirectory);
    var layout := Standard(testRoot);
    var originals := Originals(d, outputDirectory, walk);
    StandardDistinctCaseFiles(testRoot);
    StandardSaves(testRoot);
    var start := Progress(d, [], None);
    var p := ProcessTests(layout, start, originals);
    if p.failure.None? {
      ProcessTestsNames(layout, start, originals);
      ProcessTestsFrame(layout, start, originals);
      ProcessTestsContents(layout, start, originals);
      DeleteOriginalsEffect(layout, p.disk, originals);
      var final := DeleteOriginals(layout, p.disk, originals);
      forall t | t in originals
        ensures CasesOfWritten(layout, d.cwd, d.files, final.files, t)
      {
        assert CasesOfWritten(layout, d.cwd, d.files, p.disk.files, t);
        assert forall i: nat :: CaseLoc(layout, d.cwd, t, i) !in OriginalLocs(layout, d.cwd, originals);
      }
    }
  }

  /** A case file that lands on an original's file is deleted with it: that case is named in the suite but has no file. */
  lemma {:induction false} ReportLosesClashingCase(d: Disk, outputDirectory: Path, walk: seq<seq<string>>, t: string, u: string, i: nat)
    requires var originals := Originals(d, outputDirectory, walk); t in originals && u in originals
    requires var layout := Standard(TestSourceRoot(outputDirectory)); CaseLoc(layout, d.cwd, t, i) == OriginalLoc(layout, d.cwd, u)
    ensures var r := ReportOutcome(d, outputDirectory, walk);
      r.outcome.Ok? ==> CaseLoc(Standard(TestSourceRoot(outputDirectory)), d.cwd, t, i) !in r.disk.files
  {
    var testRoot := TestSourceRoot(outputDirectory);
    var layout := Standard(testRoot);
    var originals := Originals(d, outputDirectory, walk);
    var p := ProcessTests(layout, Progress(d, [], None), originals);
    DeleteOriginalsEffect(layout, p.disk, originals);
  }
}
