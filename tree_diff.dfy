/**
 * `get_git_tracked_files` and `compare_directories`: which files of the freshly
 * generated project and of the checked-in one count, and how the two differ.
 */
module TreeDiff {
  import opened Wrappers
  import opened Text
  import opened Paths

  /** Copier's answers file is never compared. */
  const AnswersFile := ".copier-answers.yml"

  /** Every file below the directory except answers files (`respect_gitignore=False`). */
  function AllFiles(directory: Tree): (files: set<Path>)
    ensures forall p :: p in files <==> p in directory && Name(p) != AnswersFile
  {
    set p | p in directory && Name(p) != AnswersFile
  }

  /** The lines of `git ls-files` output, as `stdout.strip().split("\n")` cuts them. */
  function ListingLines(lsFilesOutput: string): seq<string> {
    Split(Strip(lsFilesOutput), "\n")
  }

  /** A listed line names a file of the directory that is not an answers file. */
  predicate KeepsLine(directory: Tree, line: string) {
    Strip(line) != "" && PathParts(Strip(line)) in directory && Name(PathParts(Strip(line))) != AnswersFile
  }

  /** The file one listed line contributes, if any. */
  function Kept(directory: Tree, line: string): set<Path> {
    if KeepsLine(directory, line) then {PathParts(Strip(line))} else {}
  }

  /** The files the first lines name, each once. */
  function ListedIn(directory: Tree, lines: seq<string>): (files: set<Path>)
    ensures forall p :: p in files ==> p in directory && Name(p) != AnswersFile
  {
    if lines == [] then {}
    else
      var last := lines[|lines| - 1];
      ListedIn(directory, lines[..|lines| - 1]) + Kept(directory, last)
  }

  /** Every listed line that names a non-answers file of the directory contributes that file. */
  lemma {:induction false} ListedLineIncluded(directory: Tree, lines: seq<string>, k: nat)
    requires k < |lines| && KeepsLine(directory, lines[k])
    ensures PathParts(Strip(lines[k])) in ListedIn(directory, lines)
    decreases |lines|
  {
    if k < |lines| - 1 {
      var front := lines[..|lines| - 1];
      assert front[k] == lines[k];
      ListedLineIncluded(directory, front, k);
    }
  }

  /** Every kept file is named by some listed line that keeps it. */
  lemma {:induction false} ListedFileNamed(directory: Tree, lines: seq<string>, p: Path) returns (k: nat)
    requires p in ListedIn(directory, lines)
    ensures k < |lines| && KeepsLine(directory, lines[k]) && PathParts(Strip(lines[k])) == p
    decreases |lines|
  {
    var front := lines[..|lines| - 1];
    if p in ListedIn(directory, front) {
      k := ListedFileNamed(directory, front, p);
      assert lines[k] == front[k];
    } else {
      k := |lines| - 1;
    }
  }

  /** The listing keeps exactly the files that some listed line names and keeps. */
  lemma ListedInIff(directory: Tree, lines: seq<string>, p: Path)
    ensures p in ListedIn(directory, lines) <==>
            exists k :: 0 <= k < |lines| && KeepsLine(directory, lines[k]) && PathParts(Strip(lines[k])) == p
  {
    if p in ListedIn(directory, lines) {
      var k := ListedFileNamed(directory, lines, p);
    }
    if exists k :: 0 <= k < |lines| && KeepsLine(directory, lines[k]) && PathParts(Strip(lines[k])) == p {
      var k :| 0 <= k < |lines| && KeepsLine(directory, lines[k]) && PathParts(Strip(lines[k])) == p;
      ListedLineIncluded(directory, lines, k);
    }
  }

  lemma ListedInStep(directory: Tree, lines: seq<string>, i: nat)
    requires i < |lines|
    ensures ListedIn(directory, lines[..i + 1]) == ListedIn(directory, lines[..i]) + Kept(directory, lines[i])
  {
    assert lines[..i + 1][..i] == lines[..i];
  }

  /** The files `git ls-files --others --cached --exclude-standard` lists (`respect_gitignore=True`). */
  function ListedFiles(directory: Tree, lsFilesOutput: string): set<Path> {
    ListedIn(directory, ListingLines(lsFilesOutput))
  }

  /** `get_git_tracked_files(directory, respect_gitignore)`, the git listing given as text. */
  function TrackedFiles(directory: Tree, respectGitignore: bool, lsFilesOutput: string): set<Path> {
    if respectGitignore then ListedFiles(directory, lsFilesOutput) else AllFiles(directory)
  }

  /** `get_git_tracked_files`: the walk of the directory, or the walk of the git listing. */
  method GitTrackedFiles(directory: Tree, respectGitignore: bool, lsFilesOutput: string)
    returns (tracked: set<Path>)
    ensures tracked == TrackedFiles(directory, respectGitignore, lsFilesOutput)
  {
    if respectGitignore {
      tracked := ListingFiles(directory, lsFilesOutput);
    } else {
      tracked := WalkFiles(directory);
    }
  }

  /** The `rglob("*")` walk: every file, in whatever order the walk meets them. */
  method WalkFiles(directory: Tree) returns (tracked: set<Path>)
    ensures tracked == AllFiles(directory)
  {
    tracked := {};
    var unvisited := directory.Keys;
    while unvisited != {}
      invariant unvisited <= directory.Keys
      invariant forall p :: p in tracked <==> p in directory && p !in unvisited && Name(p) != AnswersFile
      decreases |unvisited|
    {
      var filePath :| filePath in unvisited;
      if Name(filePath) != AnswersFile {
        tracked := tracked + {filePath};
      }
      unvisited := unvisited - {filePath};
    }
  }

  /** `get_git_tracked_files` with `respect_gitignore=True`: the git listing, line by line. */
  method ListingFiles(directory: Tree, lsFilesOutput: string) returns (tracked: set<Path>)
    ensures tracked == ListedFiles(directory, lsFilesOutput)
  {
    tracked := KeepListed(directory, Split(Strip(lsFilesOutput), "\n"));
  }

  /** The loop over the listed lines: a non-blank line naming a non-answers file adds that file. */
  method KeepListed(directory: Tree, lines: seq<string>) returns (tracked: set<Path>)
    ensures tracked == ListedIn(directory, lines)
  {
    tracked := {};
    for i := 0 to |lines|
      invariant tracked == ListedIn(directory, lines[..i])
    {
      ListedInStep(directory, lines, i);
      var kept := KeepLine(directory, lines[i]);
      tracked := tracked + kept;
    }
    assert lines[..|lines|] == lines;
  }

  /** The body of the loop over the listed lines, for one line. */
  method KeepLine(directory: Tree, listedLine: string) returns (kept: set<Path>)
    ensures kept == Kept(directory, listedLine)
  {
    kept := {};
    var line := Strip(listedLine);
    if line != "" {
      var relativePath := PathParts(line);
      if relativePath in directory && Name(relativePath) != AnswersFile {
        kept := {relativePath};
      }
    }
  }

  datatype DiffKind = Missing | Extra | ContentDiffers

  /** One line of the report: a path and what is wrong with it. */
  datatype Difference = Difference(kind: DiffKind, path: Path)

  function Prefix(kind: DiffKind): string {
    match kind
    case Missing => "Missing file: "
    case Extra => "Extra file: "
    case ContentDiffers => "Content differs: "
  }

  /** The report line, `f"Missing file: {file_path}"` and so on. */
  function Message(d: Difference): string {
    Prefix(d.kind) + PathString(d.path)
  }

  /** The report lines the reconciliation acts on, read back as the caller reads them. */
  datatype Reported = ContentReported(path: string) | ExtraReported(path: string) | Ignored

  /** `diff.startswith("Content differs: ")`, then `diff.startswith("Extra file: ")`, and the path after the prefix. */
  function ParseMessage(message: string): Reported {
    if Prefix(ContentDiffers) <= message then ContentReported(message[|Prefix(ContentDiffers)|..])
    else if Prefix(Extra) <= message then ExtraReported(message[|Prefix(Extra)|..])
    else Ignored
  }

  /** Reading a report line back gives its kind and the printed path (`Missing` lines are ignored). */
  lemma ParseMessageRoundTrip(d: Difference)
    ensures ParseMessage(Message(d)) == match d.kind
                                        case Missing => Ignored
                                        case Extra => ExtraReported(PathString(d.path))
                                        case ContentDiffers => ContentReported(PathString(d.path))
  {
    var m := Message(d);
    match d.kind
    case Missing =>
      assert m[0] == 'M';
    case Extra =>
      assert m[0] == 'E';
    case ContentDiffers =>
  }

  function Rank(kind: DiffKind): nat {
    match kind
    case Missing => 0
    case Extra => 1
    case ContentDiffers => 2
  }

  /** Shared files whose texts differ. */
  function ChangedFiles(expectedFiles: set<Path>, actualFiles: set<Path>, expected: Tree, actual: Tree): set<Path> {
    set p | p in expectedFiles && p in actualFiles && p in expected && p in actual && expected[p] != actual[p]
  }

  /** The differences that belong in the report. */
  predicate Belongs(d: Difference, expectedFiles: set<Path>, actualFiles: set<Path>, expected: Tree, actual: Tree) {
    match d.kind
    case Missing => d.path in expectedFiles - actualFiles
    case Extra => d.path in actualFiles - expectedFiles
    case ContentDiffers => d.path in ChangedFiles(expectedFiles, actualFiles, expected, actual)
  }

  /**
   * A correct report: each belonging difference exactly once, missing files first, then
   * extra files, then changed ones; within a group the order is the set's iteration order.
   */
  ghost predicate IsReport(diffs: seq<Difference>, expectedFiles: set<Path>, actualFiles: set<Path>, expected: Tree, actual: Tree) {
    && (forall d :: d in diffs <==> Belongs(d, expectedFiles, actualFiles, expected, actual))
    && Ordered(diffs)
  }

  /** No line twice, and the groups in the order missing, extra, changed. */
  predicate Ordered(diffs: seq<Difference>) {
    forall i, j :: 0 <= i < j < |diffs| ==> diffs[i] != diffs[j] && Rank(diffs[i].kind) <= Rank(diffs[j].kind)
  }

  function Messages(diffs: seq<Difference>): (messages: seq<string>)
    ensures |messages| == |diffs|
    ensures forall k :: 0 <= k < |diffs| ==> messages[k] == Message(diffs[k])
  {
    if diffs == [] then [] else [Message(diffs[0])] + Messages(diffs[1..])
  }

  /** A tree that exists, or the empty file set of one that does not. */
  function ExpectedFiles(expectedDir: Option<Tree>): set<Path> {
    if expectedDir.Some? then AllFiles(expectedDir.value) else {}
  }

  function ActualFiles(actualDir: Option<Tree>, lsFilesOutput: string): set<Path> {
    if actualDir.Some? then ListedFiles(actualDir.value, lsFilesOutput) else {}
  }

  function TreeOf(dir: Option<Tree>): Tree {
    if dir.Some? then dir.value else map[]
  }

  /** A shared file that a UTF-8 text read would reject. */
  predicate SharedUndecodable(p: Path, expectedDir: Option<Tree>, actualDir: Option<Tree>, lsFilesOutput: string) {
    p in ExpectedFiles(expectedDir) && p in ActualFiles(actualDir, lsFilesOutput)
    && (TreeOf(expectedDir)[p].Undecodable? || TreeOf(actualDir)[p].Undecodable?)
  }

  /** Appends one difference per path of `paths`, in an arbitrary order. */
  method AppendEach(diffs: seq<Difference>, kind: DiffKind, paths: set<Path>)
    returns (extended: seq<Difference>)
    requires forall d :: d in diffs ==> Rank(d.kind) <= Rank(kind) && d.kind != kind
    requires Ordered(diffs)
    ensures forall d :: d in extended <==> d in diffs || (d.kind == kind && d.path in paths)
    ensures Ordered(extended)
  {
    extended := diffs;
    var remaining := paths;
    while remaining != {}
      invariant remaining <= paths
      invariant forall d :: d in extended <==> d in diffs || (d.kind == kind && d.path in paths - remaining)
      invariant Ordered(extended)
      decreases |remaining|
    {
      var filePath :| filePath in remaining;
      extended := extended + [Difference(kind, filePath)];
      remaining := remaining - {filePath};
    }
  }

  /** Shared files compared one by one: a changed text adds a line, an unreadable file stops everything. */
  method AppendChanged(diffs: seq<Difference>, shared: set<Path>, expected: Tree, actual: Tree)
    returns (r: Result<seq<Difference>, IoError>)
    requires shared <= expected.Keys && shared <= actual.Keys
    requires forall d :: d in diffs ==> d.kind != ContentDiffers
    requires Ordered(diffs)
    ensures r.Ok? <==> forall p :: p in shared ==> expected[p].Decoded? && actual[p].Decoded?
    ensures r.Err? ==> r.error.path in shared
                       && (expected[r.error.path].Undecodable? || actual[r.error.path].Undecodable?)
    ensures r.Ok? ==> Ordered(r.value)
    ensures r.Ok? ==> forall d :: d in r.value <==>
              d in diffs || (d.kind == ContentDiffers && d.path in shared && expected[d.path] != actual[d.path])
  {
    var extended := diffs;
    var remaining := shared;
    while remaining != {}
      invariant remaining <= shared
      invariant forall d :: d in extended <==>
                  d in diffs || (d.kind == ContentDiffers && d.path in shared - remaining && expected[d.path] != actual[d.path])
      invariant Ordered(extended)
      invariant forall p :: p in shared - remaining ==> expected[p].Decoded? && actual[p].Decoded?
      decreases |remaining|
    {
      var filePath :| filePath in remaining;
      var expectedContent := expected[filePath];
      if expectedContent.Undecodable? {
        return Err(Unreadable(filePath));
      }
      var actualContent := actual[filePath];
      if actualContent.Undecodable? {
        return Err(Unreadable(filePath));
      }
      if expectedContent.text != actualContent.text {
        extended := extended + [Difference(ContentDiffers, filePath)];
      }
      remaining := remaining - {filePath};
    }
    return Ok(extended);
  }

  /**
   * `compare_directories(expected_dir, actual_dir)`: a directory that does not exist has
   * no files; the actual directory's files are the git listing's.  A shared file that is
   * not valid UTF-8 makes the read raise, which ends the comparison.
   */
  method CompareDirectories(expectedDir: Option<Tree>, actualDir: Option<Tree>, lsFilesOutput: string)
    returns (r: Result<seq<string>, IoError>)
    ensures r.Err? <==> exists p :: SharedUndecodable(p, expectedDir, actualDir, lsFilesOutput)
    ensures r.Err? ==> SharedUndecodable(r.error.path, expectedDir, actualDir, lsFilesOutput)
    ensures r.Ok? ==> exists diffs ::
              IsReport(diffs, ExpectedFiles(expectedDir), ActualFiles(actualDir, lsFilesOutput), TreeOf(expectedDir), TreeOf(actualDir))
              && r.value == Messages(diffs)
  {
    var expectedFiles, actualFiles := FileSets(expectedDir, actualDir, lsFilesOutput);
    var expected, actual := TreeOf(expectedDir), TreeOf(actualDir);

    var diffs := AppendEach([], Missing, expectedFiles - actualFiles);
    diffs := AppendEach(diffs, Extra, actualFiles - expectedFiles);
    var compared := AppendChanged(diffs, expectedFiles * actualFiles, expected, actual);
    if compared.Err? {
      assert SharedUndecodable(compared.error.path, expectedDir, actualDir, lsFilesOutput);
      return Err(compared.error);
    }
    NoneUndecodable(expectedDir, actualDir, lsFilesOutput);
    ReportOfParts(compared.value, expectedFiles, actualFiles, expected, actual);
    return Ok(Messages(compared.value));
  }

  /** With every shared file readable, no shared file is undecodable. */
  lemma NoneUndecodable(expectedDir: Option<Tree>, actualDir: Option<Tree>, lsFilesOutput: string)
    requires ExpectedFiles(expectedDir) <= TreeOf(expectedDir).Keys
    requires ActualFiles(actualDir, lsFilesOutput) <= TreeOf(actualDir).Keys
    requires forall p :: p in ExpectedFiles(expectedDir) * ActualFiles(actualDir, lsFilesOutput) ==>
               TreeOf(expectedDir)[p].Decoded? && TreeOf(actualDir)[p].Decoded?
    ensures forall p :: !SharedUndecodable(p, expectedDir, actualDir, lsFilesOutput)
  {
  }

  /** The two file sets, each empty where its directory does not exist. */
  method FileSets(expectedDir: Option<Tree>, actualDir: Option<Tree>, lsFilesOutput: string)
    returns (expectedFiles: set<Path>, actualFiles: set<Path>)
    ensures expectedFiles == ExpectedFiles(expectedDir) && expectedFiles <= TreeOf(expectedDir).Keys
    ensures actualFiles == ActualFiles(actualDir, lsFilesOutput) && actualFiles <= TreeOf(actualDir).Keys
  {
    expectedFiles := {};
    if expectedDir.Some? {
      expectedFiles := GitTrackedFiles(expectedDir.value, false, lsFilesOutput);
    }
    actualFiles := {};
    if actualDir.Some? {
      actualFiles := GitTrackedFiles(actualDir.value, true, lsFilesOutput);
    }
  }

  lemma ReportOfParts(all: seq<Difference>, expectedFiles: set<Path>, actualFiles: set<Path>, expected: Tree, actual: Tree)
    requires expectedFiles * actualFiles <= expected.Keys && expectedFiles * actualFiles <= actual.Keys
    requires Ordered(all)
    requires forall d :: d in all <==>
               (d.kind == Missing && d.path in expectedFiles - actualFiles)
               || (d.kind == Extra && d.path in actualFiles - expectedFiles)
               || (d.kind == ContentDiffers && d.path in expectedFiles * actualFiles && expected[d.path] != actual[d.path])
    ensures IsReport(all, expectedFiles, actualFiles, expected, actual)
  {
  }

  /**
   * The report is empty exactly when both trees hold the same files (answers files
   * aside) with the same contents.
   */
  lemma EmptyReportIff(diffs: seq<Difference>, expectedFiles: set<Path>, actualFiles: set<Path>, expected: Tree, actual: Tree)
    requires IsReport(diffs, expectedFiles, actualFiles, expected, actual)
    requires expectedFiles <= expected.Keys && actualFiles <= actual.Keys
    ensures diffs == [] <==> expectedFiles == actualFiles && forall p :: p in expectedFiles ==> expected[p] == actual[p]
  {
    if diffs == [] {
      forall p | p in expectedFiles ensures p in actualFiles && expected[p] == actual[p] {
        assert !Belongs(Difference(Missing, p), expectedFiles, actualFiles, expected, actual);
        assert !Belongs(Difference(ContentDiffers, p), expectedFiles, actualFiles, expected, actual);
      }
      forall p | p in actualFiles ensures p in expectedFiles {
        assert !Belongs(Difference(Extra, p), expectedFiles, actualFiles, expected, actual);
      }
    } else {
      assert Belongs(diffs[0], expectedFiles, actualFiles, expected, actual);
    }
  }

  /** No report line ever names an answers file. */
  lemma AnswersFileNeverReported(diffs: seq<Difference>, expectedDir: Option<Tree>, actualDir: Option<Tree>, lsFilesOutput: string)
    requires IsReport(diffs, ExpectedFiles(expectedDir), ActualFiles(actualDir, lsFilesOutput), TreeOf(expectedDir), TreeOf(actualDir))
    ensures forall k :: 0 <= k < |diffs| ==> Name(diffs[k].path) != AnswersFile
  {
    forall k | 0 <= k < |diffs| ensures Name(diffs[k].path) != AnswersFile {
      assert Belongs(diffs[k], ExpectedFiles(expectedDir), ActualFiles(actualDir, lsFilesOutput), TreeOf(expectedDir), TreeOf(actualDir));
    }
  }
}
