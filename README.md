# EvoSuite adapter and benchmark filter of the TGA pipeline

This project models two parts of the TGA (test generation assessment) pipeline.
It is written in Dafny and proves properties of the model.

- **`EvoSuiteCliTool`**: the pipeline's adapter for the EvoSuite test generator.
  - `init` stores the project root and the class path.
  - `run` creates the output directory and prepares the EvoSuite command line. When the
    `--llmTestLocation` option points at a directory of LLM-generated tests for the current
    benchmark and run, it adds that directory to the class path and passes its `.exec` test
    names through `-Dselected_junit`.
  - `report` walks `evosuite-tests`. It splits every generated test class into one class per
    `@Test` case, named `<test><index>`, deletes the originals and returns the test suite with
    EvoSuite's three dependencies.
- **`filter_json_by_csv`** (from `keep_only_EvoSuite_benchmarks.py`): keeps the benchmarks of a
  JSON list whose parameter value appears in a column of a CSV file. It then checks that as many
  entries are left as there are distinct CSV values, and rewrites the JSON file.

Modules, one per file:

| module | file | contents |
|---|---|---|
| `Wrappers` | `wrappers.dfy` | `Option`, `Result` |
| `Sequences` | `sequences.dfy` | small sequence lemmas and the subsequence relation |
| `KotlinText` | `kotlin_text.dfy` | the Kotlin string functions the adapter uses: `indexOf`, `substringBefore`, `substringAfterLast`, `removePrefix`/`removeSuffix`, `trim`, `split`, `joinToString`, `replace`, string templates of numbers |
| `JvmPaths` | `jvm_paths.dfy` | `java.nio.file.Path` on a Unix file system: parsing, `resolve`, `fileName`, `parent`, `toString`, `Paths.get` |
| `FileSystems` | `file_systems.dfy` | a disk: working directory, files by location, directories. The class `FileSystem` has the operations the adapter calls: `mkdirs`, `listDirectoryEntries`, `Files.walk`, `readText`, writing, `delete` |
| `EvoSuiteArgs` | `evosuite_args.dfy` | the option values, `getLlmTestClasspath`, `findCanonicalLlmTests` (as written and corrected), and the EvoSuite command line |
| `ReportFold` | `report_fold.dfy` | the two loops of `report` as folds over a `Layout` (naming and text functions), with their frame and content lemmas |
| `EvoSuiteReport` | `evosuite_report.dfy` | the concrete layout: file names, the class-splitting pipeline, case names. Also `ReportOutcome` (what `report` returns and leaves on disk) and the lemmas about it |
| `EvoSuiteTool` | `evosuite_tool.dfy` | the class `EvoSuiteCliTool` with `Init`, `Run` and `Report` as methods whose loops are proved against the functions above |
| `BenchmarkFilter` | `benchmark_filter.dfy` | `filter_json_by_csv` as a method of a class holding the JSON and CSV files, proved against `FilterOutcome` |

Two things are inputs rather than modelled: the order in which the platform lists a directory,
and the order in which `Files.walk` visits the tests directory. They are out-parameters of the
methods, and the methods state which set they enumerate.

## Model

| member | source | states |
|---|---|---|
| `EvoSuiteTool.EvoSuiteCliTool.constructor` | tga-tool/src/main/kotlin/org/plan/research/tga/tool/evosuite/EvoSuiteCliTool.kt:95-97 | the tool is named "EvoSuite", keeps its options, and has no root or output directory yet |
| `EvoSuiteTool.EvoSuiteCliTool.Init` | tga-tool/src/main/kotlin/org/plan/research/tga/tool/evosuite/EvoSuiteCliTool.kt:110-113 | stores the root and the class path given; leaves the output directory alone |
| `EvoSuiteTool.EvoSuiteCliTool.Run` | tga-tool/src/main/kotlin/org/plan/research/tga/tool/evosuite/EvoSuiteCliTool.kt:124-155 | creates the output directory, then either throws what `getLlmTestClasspath` throws (NullPointerException), or throws when a directory was found and the class-path list cannot be added to. Otherwise the class path and the command equal `PrepareInvocation` and `EvoSuiteCommand`, with `-Dselected_junit` built by the source's `replace` reading (`FindCanonicalLlmTestsAsWritten`); the listing it uses is exactly the entries of the found directory |
| `EvoSuiteTool.EvoSuiteCliTool.Report` | tga-tool/src/main/kotlin/org/plan/research/tga/tool/evosuite/EvoSuiteCliTool.kt:182-232 | the resulting disk and the returned suite or exception are those of `ReportOutcome`; the walk enumerates exactly the entries below `evosuite-tests` when that directory exists |
| `EvoSuiteTool.EvoSuiteCliTool.SplitOriginals` | tga-tool/src/main/kotlin/org/plan/research/tga/tool/evosuite/EvoSuiteCliTool.kt:191-218 | the outer loop ends with the disk, new names and failure of the fold `ProcessTests` |
| `EvoSuiteTool.EvoSuiteCliTool.WriteTestCases` | tga-tool/src/main/kotlin/org/plan/research/tga/tool/evosuite/EvoSuiteCliTool.kt:205-217 | the inner loop ends with the disk, names and failure of the fold `WriteCases` over the cases of the class |
| `EvoSuiteTool.EvoSuiteCliTool.DeleteOriginalFiles` | tga-tool/src/main/kotlin/org/plan/research/tga/tool/evosuite/EvoSuiteCliTool.kt:219-221 | the final loop leaves the disk `DeleteOriginals` describes |
| `EvoSuiteTool.NextOriginal` | tga-tool/src/main/kotlin/org/plan/research/tga/tool/evosuite/EvoSuiteCliTool.kt:192-204 | reading the next original and taking its cases is the next step of the outer fold |
| `EvoSuiteTool.NextCase` | tga-tool/src/main/kotlin/org/plan/research/tga/tool/evosuite/EvoSuiteCliTool.kt:206-216 | recording the name and saving the case file is the next step of the inner fold |
| `EvoSuiteTool.ReportFails` | tga-tool/src/main/kotlin/org/plan/research/tga/tool/evosuite/EvoSuiteCliTool.kt:193-194 | an unreadable original ends `report` with that file's exception, with the disk as the originals before it left it |
| `EvoSuiteTool.StandardSavesFiles` | tga-tool/src/main/kotlin/org/plan/research/tga/tool/evosuite/EvoSuiteCliTool.kt:209-216 | the concrete layout saves a case file by making its parent directories and then writing it |
| `EvoSuiteArgs.CmdValue` | tga-tool/src/main/kotlin/org/plan/research/tga/tool/evosuite/EvoSuiteCliTool.kt:79-80 | an option's value is present exactly when the option was given with a value, and it is the first one given |
| `EvoSuiteArgs.RunId` | tga-tool/src/main/kotlin/org/plan/research/tga/tool/evosuite/EvoSuiteCliTool.kt:78 | the run id holds no `-`, ends the parent's name, and is either the whole name or follows a `-` |
| `EvoSuiteArgs.LlmCandidate` | tga-tool/src/main/kotlin/org/plan/research/tga/tool/evosuite/EvoSuiteCliTool.kt:77-82 | the candidate directory exists as a path exactly when the output directory has a parent name and the location has a value (otherwise a NullPointerException) |
| `EvoSuiteArgs.CandidateNames` | tga-tool/src/main/kotlin/org/plan/research/tga/tool/evosuite/EvoSuiteCliTool.kt:82 | the candidate is the location, then `<llmTestName>-<run id>`, then the benchmark's own name, which it shares with the output directory |
| `EvoSuiteArgs.GetLlmTestClasspath` | tga-tool/src/main/kotlin/org/plan/research/tga/tool/evosuite/EvoSuiteCliTool.kt:73-92 | no path without the location option. With it: a NullPointerException exactly when there is no candidate, and the candidate exactly when it is a directory |
| `EvoSuiteArgs.ExecNames` | tga-tool/src/main/kotlin/org/plan/research/tga/tool/evosuite/EvoSuiteCliTool.kt:120-121 | the names are those of the `.exec` entries without the extension: every such entry gives one, each one comes from an entry, and there are none exactly when no entry ends in `.exec` |
| `EvoSuiteArgs.FindCanonicalLlmTests` | tga-tool/src/main/kotlin/org/plan/research/tga/tool/evosuite/EvoSuiteCliTool.kt:119-122 | an empty value when no entry ends in `.exec` (corrected reading, see Findings) |
| `EvoSuiteArgs.CanonicalNamesRecoverable` | tga-tool/src/main/kotlin/org/plan/research/tga/tool/evosuite/EvoSuiteCliTool.kt:121 | splitting the `-Dselected_junit` value on `:` gives back exactly the test names when no entry holds `:` |
| `EvoSuiteArgs.ExecNamesAsWritten` | tga-tool/src/main/kotlin/org/plan/research/tga/tool/evosuite/EvoSuiteCliTool.kt:120-121 | the literal `replace` reading yields at most one name per entry |
| `EvoSuiteArgs.SingleExecName` | tga-tool/src/main/kotlin/org/plan/research/tga/tool/evosuite/EvoSuiteCliTool.kt:121 | for one entry, the literal reading deletes every `.exec` and the corrected one only the extension |
| `EvoSuiteArgs.ReplaceAgreesOnPlainName` | tga-tool/src/main/kotlin/org/plan/research/tga/tool/evosuite/EvoSuiteCliTool.kt:121 | both readings agree on a name whose only `.exec` is its extension |
| `EvoSuiteArgs.ReadingsAgreeOnPlainNames` | tga-tool/src/main/kotlin/org/plan/research/tga/tool/evosuite/EvoSuiteCliTool.kt:119-122 | on a listing whose `.exec` entries hold no other `.exec`, the source's reading and the corrected one give the same names and the same `-Dselected_junit` value |
| `EvoSuiteArgs.ExecPackageMangled` | tga-tool/src/main/kotlin/org/plan/research/tga/tool/evosuite/EvoSuiteCliTool.kt:119-122 | for an entry `p.exec.T.exec`, the literal reading gives `p.T` while the corrected one gives `p.exec.T` |
| `EvoSuiteArgs.ReplaceDeletesInnerExec` | tga-tool/src/main/kotlin/org/plan/research/tga/tool/evosuite/EvoSuiteCliTool.kt:121 | `replace(".exec", "")` turns `p.exec.T.exec` into `p.T` |
| `EvoSuiteArgs.WholeSeconds` | tga-tool/src/main/kotlin/org/plan/research/tga/tool/evosuite/EvoSuiteCliTool.kt:147 | `inWholeSeconds` truncates toward zero: the seconds times 1000 are within one second of the milliseconds, on the side of zero |
| `EvoSuiteArgs.PathStrings` | tga-tool/src/main/kotlin/org/plan/research/tga/tool/evosuite/EvoSuiteCliTool.kt:145 | one string per class-path entry, in order, each being that path's `toString` |
| `EvoSuiteArgs.ClassPathEntriesRecoverable` | tga-tool/src/main/kotlin/org/plan/research/tga/tool/evosuite/EvoSuiteCliTool.kt:145 | the `-projectCP` value splits back into the class-path entries when none holds `:` |
| `EvoSuiteArgs.FixedArguments` | tga-tool/src/main/kotlin/org/plan/research/tga/tool/evosuite/EvoSuiteCliTool.kt:140-153 | 17 fixed arguments: the java launcher, `-jar` and the EvoSuite jar, `-generateMOSuite`, `-base_dir` and the output directory, then the class path, the search budget in whole seconds and the target class at their places |
| `EvoSuiteArgs.EvoSuiteCommand` | tga-tool/src/main/kotlin/org/plan/research/tga/tool/evosuite/EvoSuiteCliTool.kt:140-155 | the command starts with the launcher, the jar and `-base_dir` set to the output directory (where `report` looks for `evosuite-tests`), carries the class path, budget and target at their places, and ends with exactly the user's arguments |
| `EvoSuiteArgs.PrepareInvocation` | tga-tool/src/main/kotlin/org/plan/research/tga/tool/evosuite/EvoSuiteCliTool.kt:129-134 | the preparation fails exactly when `getLlmTestClasspath` throws; the appended `-Dselected_junit` value is the source's `replace` reading of the listing |
| `EvoSuiteArgs.PrepareAppendsOnlyWhenFound` | tga-tool/src/main/kotlin/org/plan/research/tga/tool/evosuite/EvoSuiteCliTool.kt:129-134 | the class path and the `cliArg` values are kept as a prefix. A found directory adds exactly one class-path entry (the directory) and one argument (`-Dselected_junit=…`); otherwise nothing is added |
| `EvoSuiteArgs.MissingLlmDirectoryIsIgnored` | tga-tool/src/main/kotlin/org/plan/research/tga/tool/evosuite/EvoSuiteCliTool.kt:84-90 | a location that names no directory prepares the same invocation as no location option at all |
| `EvoSuiteReport.TestSourceRoot` | tga-tool/src/main/kotlin/org/plan/research/tga/tool/evosuite/EvoSuiteCliTool.kt:183 | the tests directory is the output directory with `evosuite-tests` appended |
| `EvoSuiteReport.OriginalTests` | tga-tool/src/main/kotlin/org/plan/research/tga/tool/evosuite/EvoSuiteCliTool.kt:184-190 | every `.java` entry of the walk yields its dotted name, and every name comes from such an entry |
| `EvoSuiteReport.NonBlank` | tga-tool/src/main/kotlin/org/plan/research/tga/tool/evosuite/EvoSuiteCliTool.kt:204 | keeps exactly the pieces that are not blank |
| `EvoSuiteReport.Blanks` | tga-tool/src/main/kotlin/org/plan/research/tga/tool/evosuite/EvoSuiteCliTool.kt:204 | the pieces the filter drops are exactly the blank ones |
| `EvoSuiteReport.FilterDistributes` | tga-tool/src/main/kotlin/org/plan/research/tga/tool/evosuite/EvoSuiteCliTool.kt:204 | filtering a concatenation filters each part, for kept and dropped pieces alike |
| `EvoSuiteReport.NonBlankSnoc` | tga-tool/src/main/kotlin/org/plan/research/tga/tool/evosuite/EvoSuiteCliTool.kt:204 | a trailing piece is kept after the filtered front exactly when it is not blank |
| `EvoSuiteReport.NonBlankIsSubsequence` | tga-tool/src/main/kotlin/org/plan/research/tga/tool/evosuite/EvoSuiteCliTool.kt:203-204 | the test cases are the split pieces with the blank ones left out, in their order |
| `EvoSuiteReport.NonBlankAndBlanksPartition` | tga-tool/src/main/kotlin/org/plan/research/tga/tool/evosuite/EvoSuiteCliTool.kt:203-204 | kept and dropped pieces together are the pieces, each exactly once; a blank piece makes the list of cases shorter |
| `EvoSuiteReport.NoClassNoCases` | tga-tool/src/main/kotlin/org/plan/research/tga/tool/evosuite/EvoSuiteCliTool.kt:196-204 | a file without `public class` yields no test cases |
| `EvoSuiteReport.ClassLayout` | tga-tool/src/main/kotlin/org/plan/research/tga/tool/evosuite/EvoSuiteCliTool.kt:196-204 | for a class laid out as header, opener, body and closing brace, the header is recovered exactly and the cases are the non-blank `@Test` pieces of the trimmed body |
| `EvoSuiteReport.BodyAfterHeader` | tga-tool/src/main/kotlin/org/plan/research/tga/tool/evosuite/EvoSuiteCliTool.kt:197-202 | removing the header, the opener and the closing `}` (with or without a final newline), then trimming, leaves the trimmed body |
| `EvoSuiteReport.HeaderBeforeOpener` | tga-tool/src/main/kotlin/org/plan/research/tga/tool/evosuite/EvoSuiteCliTool.kt:196 | the header is everything before the class's own `public class` |
| `EvoSuiteReport.CaseSimpleName` | tga-tool/src/main/kotlin/org/plan/research/tga/tool/evosuite/EvoSuiteCliTool.kt:206-213 | the class name written into a case file is the original's simple name followed by the index |
| `EvoSuiteReport.SourceFileName` | tga-tool/src/main/kotlin/org/plan/research/tga/tool/evosuite/EvoSuiteCliTool.kt:209 | the file of a dotted name ends in its last segment plus `.java`, and has a parent directory |
| `EvoSuiteReport.CaseFilesDistinct` | tga-tool/src/main/kotlin/org/plan/research/tga/tool/evosuite/EvoSuiteCliTool.kt:206-209 | different cases of one test go to different files |
| `EvoSuiteReport.StandardSaves` | tga-tool/src/main/kotlin/org/plan/research/tga/tool/evosuite/EvoSuiteCliTool.kt:210-216 | saving a case writes its text at its location when it succeeds, and changes no file when it fails |
| `EvoSuiteReport.StandardDistinctCaseFiles` | tga-tool/src/main/kotlin/org/plan/research/tga/tool/evosuite/EvoSuiteCliTool.kt:206-209 | the naming scheme gives every case of a test its own file |
| `EvoSuiteReport.StandardCaseText` | tga-tool/src/main/kotlin/org/plan/research/tga/tool/evosuite/EvoSuiteCliTool.kt:211-216 | a case file is the original header, `public class <Simple><index> {`, `@Test`, the case and `}` |
| `EvoSuiteReport.ReportWithoutTestsDirectory` | tga-tool/src/main/kotlin/org/plan/research/tga/tool/evosuite/EvoSuiteCliTool.kt:184-190 | without `evosuite-tests`, nothing changes on disk and the suite is empty with the three dependencies |
| `EvoSuiteReport.ReportSplitsEveryOriginal` | tga-tool/src/main/kotlin/org/plan/research/tga/tool/evosuite/EvoSuiteCliTool.kt:182-232 | when no names clash and `report` returns: the suite lists every original's cases in order; every original existed and is deleted; every case file holds its case's text; no other file changed |
| `EvoSuiteReport.ReportLosesClashingCase` | tga-tool/src/main/kotlin/org/plan/research/tga/tool/evosuite/EvoSuiteCliTool.kt:206-221 | a case file whose name equals an original's file (`FooTest` + `1` against an original `FooTest1`) is deleted by the final loop |
| `ReportFold.WriteCase` | tga-tool/src/main/kotlin/org/plan/research/tga/tool/evosuite/EvoSuiteCliTool.kt:206-216 | one case: its name is recorded before the write, and a failed write throws for that case's file |
| `ReportFold.WriteCaseFiles` | tga-tool/src/main/kotlin/org/plan/research/tga/tool/evosuite/EvoSuiteCliTool.kt:209-216 | one case changes exactly its own file, or no file when it fails |
| `ReportFold.WriteCases` | tga-tool/src/main/kotlin/org/plan/research/tga/tool/evosuite/EvoSuiteCliTool.kt:205-217 | the inner loop stops at an earlier failure, and can itself only fail with an unwritable file |
| `ReportFold.WriteCasesStuck` | tga-tool/src/main/kotlin/org/plan/research/tga/tool/evosuite/EvoSuiteCliTool.kt:211 | after a failed write the rest of the cases change nothing (the exception leaves the loop) |
| `ReportFold.ProcessTestsStuck` | tga-tool/src/main/kotlin/org/plan/research/tga/tool/evosuite/EvoSuiteCliTool.kt:192-218 | after a failure the remaining originals change nothing |
| `ReportFold.WriteCasesNames` | tga-tool/src/main/kotlin/org/plan/research/tga/tool/evosuite/EvoSuiteCliTool.kt:205-207 | without failure the inner loop appends the case names `test0`, `test1`, … in order |
| `ReportFold.WriteCasesFrame` | tga-tool/src/main/kotlin/org/plan/research/tga/tool/evosuite/EvoSuiteCliTool.kt:205-217 | the inner loop touches no file but its case files |
| `ReportFold.WriteCasesContents` | tga-tool/src/main/kotlin/org/plan/research/tga/tool/evosuite/EvoSuiteCliTool.kt:205-217 | without failure every case file holds the text of its case |
| `ReportFold.ProcessTestUnreadable` | tga-tool/src/main/kotlin/org/plan/research/tga/tool/evosuite/EvoSuiteCliTool.kt:193-194 | an original fails to be read exactly when its file is missing, and the exception names that file |
| `ReportFold.ProcessTestNames` | tga-tool/src/main/kotlin/org/plan/research/tga/tool/evosuite/EvoSuiteCliTool.kt:192-207 | a successful original existed and contributes exactly its case names |
| `ReportFold.ProcessTestContents` | tga-tool/src/main/kotlin/org/plan/research/tga/tool/evosuite/EvoSuiteCliTool.kt:192-217 | a successful original has every case written |
| `ReportFold.ProcessTestsFrame` | tga-tool/src/main/kotlin/org/plan/research/tga/tool/evosuite/EvoSuiteCliTool.kt:192-218 | without clashes the outer loop touches only case files |
| `ReportFold.ProcessTestsNames` | tga-tool/src/main/kotlin/org/plan/research/tga/tool/evosuite/EvoSuiteCliTool.kt:191-218 | without failure every original existed and the names are each original's cases in order |
| `ReportFold.ProcessTestsContents` | tga-tool/src/main/kotlin/org/plan/research/tga/tool/evosuite/EvoSuiteCliTool.kt:191-218 | without failure and without clashes the cases of every original are all on disk at the end |
| `ReportFold.ProcessTestsUnreadable` | tga-tool/src/main/kotlin/org/plan/research/tga/tool/evosuite/EvoSuiteCliTool.kt:192-194 | a read failure names the file of an original that was missing from the start |
| `ReportFold.DeleteOriginalsEffect` | tga-tool/src/main/kotlin/org/plan/research/tga/tool/evosuite/EvoSuiteCliTool.kt:219-221 | the final loop removes exactly the originals' files |
| `FileSystems.ReadFile` | tga-tool/src/main/kotlin/org/plan/research/tga/tool/evosuite/EvoSuiteCliTool.kt:193-194 | a file's text is read exactly when a file is at that location |
| `FileSystems.MakeDirs` | tga-tool/src/main/kotlin/org/plan/research/tga/tool/evosuite/EvoSuiteCliTool.kt:125-127 | `mkdirs` changes no file, only adds directories, and only the path and its ancestors; the path is a directory afterwards when no file is in the way |
| `FileSystems.WriteFile` | tga-tool/src/main/kotlin/org/plan/research/tga/tool/evosuite/EvoSuiteCliTool.kt:211 | opening a writer succeeds exactly when the location is not a directory and its parent is one; then only that file changes |
| `FileSystems.SaveFile` | tga-tool/src/main/kotlin/org/plan/research/tga/tool/evosuite/EvoSuiteCliTool.kt:210-216 | making the parents and writing puts the text at the location, or changes no file; it never removes a directory and adds only the parent and its ancestors (none when there is no parent) |
| `FileSystems.DeleteFile` | tga-tool/src/main/kotlin/org/plan/research/tga/tool/evosuite/EvoSuiteCliTool.kt:220 | `delete` removes exactly that file when one is there (an empty directory otherwise), and leaves no file at the location |
| `FileSystems.FileSystem.ListDirectoryEntries` | tga-tool/src/main/kotlin/org/plan/research/tga/tool/evosuite/EvoSuiteCliTool.kt:120 | lists each child of the directory exactly once |
| `FileSystems.FileSystem.Walk` | tga-tool/src/main/kotlin/org/plan/research/tga/tool/evosuite/EvoSuiteCliTool.kt:185 | visits each entry below the directory exactly once |
| `FileSystems.FileSystem.ReadText` | tga-tool/src/main/kotlin/org/plan/research/tga/tool/evosuite/EvoSuiteCliTool.kt:193-194 | reads what `ReadFile` says |
| `FileSystems.FileSystem.Mkdirs` | tga-tool/src/main/kotlin/org/plan/research/tga/tool/evosuite/EvoSuiteCliTool.kt:126 | the new disk is `MakeDirs` of the old one |
| `FileSystems.FileSystem.Save` | tga-tool/src/main/kotlin/org/plan/research/tga/tool/evosuite/EvoSuiteCliTool.kt:210-216 | the new disk is `SaveFile` of the old one |
| `FileSystems.FileSystem.Delete` | tga-tool/src/main/kotlin/org/plan/research/tga/tool/evosuite/EvoSuiteCliTool.kt:220 | the new disk is `DeleteFile` of the old one |
| `JvmPaths.Resolve` | tga-tool/src/main/kotlin/org/plan/research/tga/tool/evosuite/EvoSuiteCliTool.kt:183 | resolving a relative path appends its names; an absolute one replaces the base |
| `JvmPaths.FileName` | tga-tool/src/main/kotlin/org/plan/research/tga/tool/evosuite/EvoSuiteCliTool.kt:77 | the file name is the last name, absent for the root (an empty path has none here; see Left out) |
| `JvmPaths.Parent` | tga-tool/src/main/kotlin/org/plan/research/tga/tool/evosuite/EvoSuiteCliTool.kt:78 | the parent exists exactly when a name remains above the last one (or the root), and adding the last name back gives the path |
| `JvmPaths.ParseToString` | tga-tool/src/main/kotlin/org/plan/research/tga/tool/evosuite/EvoSuiteCliTool.kt:144-145 | parsing a path's string gives the path back |
| `JvmPaths.CandidateLayout` | tga-tool/src/main/kotlin/org/plan/research/tga/tool/evosuite/EvoSuiteCliTool.kt:82 | `Paths.get(location, dir, leaf)` has the location's names, the directory's, then the leaf, which is its file name |
| `KotlinText.SubstringBefore` | tga-tool/src/main/kotlin/org/plan/research/tga/tool/evosuite/EvoSuiteCliTool.kt:196 | the result is a prefix with no occurrence of the delimiter before the first match; the whole string when there is none |
| `KotlinText.RemovePrefix` | tga-tool/src/main/kotlin/org/plan/research/tga/tool/evosuite/EvoSuiteCliTool.kt:198-199 | removes the prefix exactly when it is there |
| `KotlinText.RemoveSuffix` | tga-tool/src/main/kotlin/org/plan/research/tga/tool/evosuite/EvoSuiteCliTool.kt:200-201 | removes the suffix exactly when it is there |
| `KotlinText.SubstringAfterLast` | tga-tool/src/main/kotlin/org/plan/research/tga/tool/evosuite/EvoSuiteCliTool.kt:199 | the result is a suffix without the character that is all of the string or follows its last occurrence |
| `KotlinText.FreeSuffixIsAfterLast` | tga-tool/src/main/kotlin/org/plan/research/tga/tool/evosuite/EvoSuiteCliTool.kt:199 | such a suffix is unique |
| `KotlinText.TrimEmptyIffBlank` | tga-tool/src/main/kotlin/org/plan/research/tga/tool/evosuite/EvoSuiteCliTool.kt:202-204 | trimming leaves nothing exactly when the string is blank |
| `KotlinText.JoinSplit` | tga-tool/src/main/kotlin/org/plan/research/tga/tool/evosuite/EvoSuiteCliTool.kt:203 | joining the pieces of a split with the delimiter gives the string back |
| `KotlinText.SplitPiecesAvoidDelimiter` | tga-tool/src/main/kotlin/org/plan/research/tga/tool/evosuite/EvoSuiteCliTool.kt:203 | no piece of a split holds the delimiter |
| `KotlinText.SplitJoin` | tga-tool/src/main/kotlin/org/plan/research/tga/tool/evosuite/EvoSuiteCliTool.kt:145 | splitting a join of separator-free parts gives the parts back |
| `KotlinText.LastPieceIsAfterLast` | tga-tool/src/main/kotlin/org/plan/research/tga/tool/evosuite/EvoSuiteCliTool.kt:78 | the last piece of a split on a character is what follows its last occurrence |
| `KotlinText.DecimalRoundTrip` | tga-tool/src/main/kotlin/org/plan/research/tga/tool/evosuite/EvoSuiteCliTool.kt:206 | the index printed in a case name reads back as the index |
| `KotlinText.NatToStringInjective` | tga-tool/src/main/kotlin/org/plan/research/tga/tool/evosuite/EvoSuiteCliTool.kt:206 | different indices print differently |
| `KotlinText.ReplaceChar` | tga-tool/src/main/kotlin/org/plan/research/tga/tool/evosuite/EvoSuiteCliTool.kt:193 | character replacement keeps the length and swaps exactly that character |
| `KotlinText.ReplaceAtFirst` | tga-tool/src/main/kotlin/org/plan/research/tga/tool/evosuite/EvoSuiteCliTool.kt:121 | `replace` rewrites the first match and continues after it |
| `BenchmarkFilter.BenchmarkFiles.constructor` | keep_only_EvoSuite_benchmarks.py:7 | holds the given JSON and CSV files |
| `BenchmarkFilter.BenchmarkFiles.FilterJsonByCsv` | keep_only_EvoSuite_benchmarks.py:7-57 | the outcome is `FilterOutcome`; the CSV files never change; the JSON file is replaced by the kept entries when the outcome is `Rewritten` and no file changes otherwise |
| `BenchmarkFilter.CsvValues` | keep_only_EvoSuite_benchmarks.py:31-40 | an empty CSV file gives no values. Otherwise there is a KeyError exactly when some data row exists and the header lacks the column |
| `BenchmarkFilter.DataRows` | keep_only_EvoSuite_benchmarks.py:33-34 | the rows read are exactly the non-empty rows after the header (an empty row `[]` is skipped; a line of spaces is a row) |
| `BenchmarkFilter.LastIndexOf` | keep_only_EvoSuite_benchmarks.py:33-34 | a repeated column name reads its last column |
| `BenchmarkFilter.KeepSelected` | keep_only_EvoSuite_benchmarks.py:42-47 | the loop raises exactly when some entry has the parameter with an unhashable value; otherwise it collects exactly `Kept` of the entries |
| `BenchmarkFilter.Kept` | keep_only_EvoSuite_benchmarks.py:42-47 | every kept entry comes from the input and passes the test, and every input entry that passes is kept |
| `BenchmarkFilter.Removed` | keep_only_EvoSuite_benchmarks.py:46-47 | every removed entry comes from the input and lacks the parameter or has a value outside the CSV values |
| `BenchmarkFilter.KeptIsSubsequence` | keep_only_EvoSuite_benchmarks.py:42-45 | the kept entries are the input with some left out, in the input's order |
| `BenchmarkFilter.KeptAndRemovedPartition` | keep_only_EvoSuite_benchmarks.py:42-49 | kept and removed entries together are exactly the input, as a multiset, and their counts add up |
| `BenchmarkFilter.KeptIdempotent` | keep_only_EvoSuite_benchmarks.py:42-45 | filtering the kept entries again keeps all of them |
| `BenchmarkFilter.DuplicateRowChangesNothing` | keep_only_EvoSuite_benchmarks.py:34 | a repeated CSV row changes neither the values nor the count the assertion compares with |
| `BenchmarkFilter.RewriteIsFixedPoint` | keep_only_EvoSuite_benchmarks.py:42-57 | running the script again on a file it has rewritten rewrites it with the same entries |

## Left out

- Starting the EvoSuite process, streaming its output to `evosuite.log`, waiting for it, interruption, and the logged and swallowed exceptions (EvoSuiteCliTool.kt:138-179). The model stops at the command line the process would be started with.
- Parsing the tool's arguments into options (`TgaConfig`, Apache commons-cli) is not part of this model. The options are given as a map from option name to the values given for it. `--help` is not modelled.
- `getJavaPath()` and `TGA_PIPELINE_HOME` come from outside the core; they are parameters of `Run`.
- Logging, in both the Kotlin and the Python code.
- `EvoSuiteTool.EvoSuiteCliTool.Run`: `(classPath as MutableList).add(it)` fails when the list handed to `init` cannot be added to: a ClassCastException for a Kotlin read-only list, an UnsupportedOperationException for a fixed-size or unmodifiable Java list. The model has one flag saying whether the list can grow and one error `UnsupportedAdd` for both. It stores the class path as a value, so the caller does not see the added entry through its own list (aliasing is not modelled).
- `EvoSuiteTool.EvoSuiteCliTool.Run` and `Report` require the `lateinit` fields to be set (`init` before `run`, `run` before `report`). Calling them earlier throws `UninitializedPropertyAccessException`, which is not modelled.
- The order of `listDirectoryEntries` and `Files.walk` is platform-defined. It is an output of the methods, and only its set of elements is specified.
- Paths are Unix paths. `.` and `..` are treated as ordinary names, and symbolic links, permissions and I/O errors other than a missing parent or a directory in the way are not modelled. `JvmPaths.FileName`: the JDK gives the empty path, not null, as the file name of `Paths.get("")`; the model gives none. At EvoSuiteCliTool.kt:77-78 both lead to the same NullPointerException from the missing parent, so the difference cannot be observed.
- `EvoSuiteReport.ReportSplitsEveryOriginal` assumes that no case name lands on another test's file. With such a clash the suite names a file that is later deleted (`EvoSuiteReport.ReportLosesClashingCase` shows this); the content of the resulting disk is not otherwise described.
- Text encoding, and Kotlin's `trim` and `isBlank` beyond the characters `KotlinText.IsWhitespace` lists (Unicode whitespace is approximated).
- JSON and CSV decoding (`json.load`, `csv.reader` quoting) are not part of this model. The files are given already decoded: a JSON document is a list of objects or `Malformed`, and a CSV file is its list of rows.
- `BenchmarkFilter.BenchmarkFiles.FilterJsonByCsv`: a JSON document that is not a list of objects, floating-point numbers, `IsADirectoryError` and permission errors on reading are not modelled. Neither is a write that fails after `open` has truncated the file. Writing either succeeds or fails on `open` (the `writable` parameter), and `json.dump`'s formatting is not modelled.
- `BenchmarkFilter.BenchmarkFiles.FilterJsonByCsv`: the count `assert` is modelled as always enabled. Under `python -O` it is skipped and the file is rewritten whatever the counts are.

## Findings

| source | as written | input that shows it | evidently intended | confidence | as-written member | corrected member |
|---|---|---|---|---|---|---|
| tga-tool/src/main/kotlin/org/plan/research/tga/tool/evosuite/EvoSuiteCliTool.kt:119-122 | `replace(".exec", "")` deletes every `.exec` in the entry's name | an entry `org.apache.commons.exec.CommandLineTest.exec` yields `org.apache.commons.CommandLineTest`, a class that does not exist | remove only the `.exec` extension (`removeSuffix`), giving `org.apache.commons.exec.CommandLineTest` | not executed | `EvoSuiteArgs.ExecPackageMangled` (over `EvoSuiteArgs.FindCanonicalLlmTestsAsWritten`) | `EvoSuiteArgs.FindCanonicalLlmTests` (with `EvoSuiteArgs.CanonicalNamesRecoverable`) |
