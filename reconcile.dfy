/**
 * The classification loop of `compare_with_expected_materialized`: each reported
 * difference that the checked-in project can feed back into the template is queued
 * either for copying into the template (a plain file, or a Jinja template whose
 * auto-resolution succeeded) or for a manual fix.
 */
module Reconcile {
  import opened Wrappers
  import opened Text
  import opened Paths
  import opened JinjaEval
  import opened AutoResolution
  import opened TreeDiff
  import opened PathMapping

  /**
   * Everything the loop reads: the freshly generated project, the checked-in one, the
   * template directory, the template variables and the validation of a proposal.
   */
  datatype Workspace = Workspace(expected: Tree, actual: Tree, template: Tree, variables: Variables,
                                 validate: Validator)

  /**
   * One entry of `files_to_copy`: the materialized path, the template path, the file to
   * copy (absent for an auto-resolved template), the template file, and the resolved
   * content (present only for an auto-resolved template).
   */
  datatype CopyEntry = CopyEntry(relativePath: string, templatePath: string, actualFile: Option<Path>,
                                 templateFile: Path, resolvedContent: Option<string>)

  /** One entry of `files_needing_manual_fix`: the materialized and the template path. */
  datatype ManualEntry = ManualEntry(materializedPath: string, templatePath: string)

  datatype Outcome = NoAction | Copy(entry: CopyEntry) | Manual(manual: ManualEntry)

  datatype Queues = Queues(filesToCopy: seq<CopyEntry>, filesNeedingManualFix: seq<ManualEntry>)

  /**
   * Reading the expected and the actual file for auto-resolution: a file that is not
   * UTF-8 makes both contents `None`; a file that cannot be opened at all raises.
   */
  function ReadBoth(expected: Tree, actual: Tree, p: Path): Result<Option<(string, string)>, IoError> {
    if p !in expected then Err(Unreadable(p))
    else if expected[p].Undecodable? then Ok(None)
    else if p !in actual then Err(Unreadable(p))
    else if actual[p].Undecodable? then Ok(None)
    else Ok(Some((expected[p].text, actual[p].text)))
  }

  /** The plain copy-back of the checked-in file over the template file. */
  function PlainCopy(filePath: string, templateFilePath: string): CopyEntry {
    CopyEntry(filePath, templateFilePath, Some(PathParts(filePath)), PathParts(templateFilePath), None)
  }

  /** A `Content differs` line for a file that comes from a Jinja template. */
  function ClassifyTemplated(filePath: string, templateFilePath: string, contents: Option<(string, string)>,
                             ws: Workspace): Result<Outcome, IoError> {
    var attempt :=
      if contents.Some? && contents.value.0 != "" && contents.value.1 != "" then
        AutoResolve(ws.template, PathParts(templateFilePath), contents.value.0, contents.value.1, ws.variables, ws.validate)
      else Ok(None);
    match attempt
    case Err(e) => Err(e)
    case Ok(autoResolved) =>
      if autoResolved.Some? && autoResolved.value != "" then
        Ok(Copy(CopyEntry(filePath, templateFilePath, None, PathParts(templateFilePath), autoResolved)))
      else Ok(Manual(ManualEntry(filePath, templateFilePath)))
  }

  /** A `Content differs` line: both files are read first, then the template path decides. */
  function ClassifyChanged(filePath: string, ws: Workspace): Result<Outcome, IoError> {
    var templateFilePath := MapToTemplatePath(filePath, ws.variables, ws.template);
    match ReadBoth(ws.expected, ws.actual, PathParts(filePath))
    case Err(e) => Err(e)
    case Ok(contents) =>
      if EndsWith(templateFilePath, JinjaSuffix) then ClassifyTemplated(filePath, templateFilePath, contents, ws)
      else Ok(Copy(PlainCopy(filePath, templateFilePath)))
  }

  /** An `Extra file` line: there is no expected content to resolve against. */
  function ClassifyExtra(filePath: string, ws: Workspace): Outcome {
    var templateFilePath := MapToTemplatePath(filePath, ws.variables, ws.template);
    if EndsWith(templateFilePath, JinjaSuffix) then Manual(ManualEntry(filePath, templateFilePath))
    else Copy(PlainCopy(filePath, templateFilePath))
  }

  /** What the loop body does with one line of the report. */
  function ClassifyOne(diff: string, ws: Workspace): Result<Outcome, IoError> {
    match ParseMessage(diff)
    case Ignored => Ok(NoAction)
    case ContentReported(filePath) => ClassifyChanged(filePath, ws)
    case ExtraReported(filePath) => Ok(ClassifyExtra(filePath, ws))
  }

  function Enqueue(q: Queues, outcome: Outcome): Queues {
    match outcome
    case NoAction => q
    case Copy(entry) => Queues(q.filesToCopy + [entry], q.filesNeedingManualFix)
    case Manual(entry) => Queues(q.filesToCopy, q.filesNeedingManualFix + [entry])
  }

  /** The queues after the loop has seen `diffs`, or the first error raised on the way. */
  function ClassifyAll(diffs: seq<string>, ws: Workspace): Result<Queues, IoError> {
    if diffs == [] then Ok(Queues([], []))
    else
      match ClassifyAll(diffs[..|diffs| - 1], ws)
      case Err(e) => Err(e)
      case Ok(q) =>
        match ClassifyOne(diffs[|diffs| - 1], ws)
        case Err(e) => Err(e)
        case Ok(outcome) => Ok(Enqueue(q, outcome))
  }

  /** An error raised on some line ends the loop: later lines change nothing. */
  lemma {:induction false} ErrorStops(diffs: seq<string>, n: nat, ws: Workspace)
    requires n <= |diffs| && ClassifyAll(diffs[..n], ws).Err?
    ensures ClassifyAll(diffs, ws) == ClassifyAll(diffs[..n], ws)
    decreases |diffs| - n
  {
    if n < |diffs| {
      assert diffs[..n + 1][..n] == diffs[..n];
      ErrorStops(diffs, n + 1, ws);
    } else {
      assert diffs[..n] == diffs;
    }
  }

  /** The `for diff in differences` loop of `compare_with_expected_materialized`. */
  method ClassifyDifferences(differences: seq<string>, ws: Workspace) returns (r: Result<Queues, IoError>)
    ensures r == ClassifyAll(differences, ws)
  {
    var filesToCopy: seq<CopyEntry> := [];
    var filesNeedingManualFix: seq<ManualEntry> := [];
    for i := 0 to |differences|
      invariant ClassifyAll(differences[..i], ws) == Ok(Queues(filesToCopy, filesNeedingManualFix))
    {
      assert differences[..i + 1][..i] == differences[..i];
      var outcome := ClassifyDifference(differences[i], ws);
      if outcome.Err? {
        ErrorStops(differences, i + 1, ws);
        return Err(outcome.error);
      }
      match outcome.value
      case NoAction =>
      case Copy(entry) =>
        filesToCopy := filesToCopy + [entry];
      case Manual(entry) =>
        filesNeedingManualFix := filesNeedingManualFix + [entry];
    }
    assert differences[..|differences|] == differences;
    return Ok(Queues(filesToCopy, filesNeedingManualFix));
  }

  /** The loop body for one line of the report. */
  method ClassifyDifference(diff: string, ws: Workspace) returns (r: Result<Outcome, IoError>)
    ensures r == ClassifyOne(diff, ws)
  {
    if Prefix(ContentDiffers) <= diff {
      var filePath := diff[|Prefix(ContentDiffers)|..];
      var templateFilePath := MapToTemplatePath(filePath, ws.variables, ws.template);
      var templateFile := PathParts(templateFilePath);
      var contents := ReadBoth(ws.expected, ws.actual, PathParts(filePath));
      if contents.Err? {
        return Err(contents.error);
      }
      if EndsWith(templateFilePath, JinjaSuffix) {
        var autoResolvedContent: Option<string> := None;
        if contents.value.Some? && contents.value.value.0 != "" && contents.value.value.1 != "" {
          var attempt := AttemptJinjaAutoResolution(ws.template, templateFile, contents.value.value.0,
                                                    contents.value.value.1, ws.variables, ws.validate);
          if attempt.Err? {
            return Err(attempt.error);
          }
          autoResolvedContent := attempt.value;
        }
        if autoResolvedContent.Some? && autoResolvedContent.value != "" {
          return Ok(Copy(CopyEntry(filePath, templateFilePath, None, templateFile, autoResolvedContent)));
        }
        return Ok(Manual(ManualEntry(filePath, templateFilePath)));
      }
      return Ok(Copy(PlainCopy(filePath, templateFilePath)));
    } else if Prefix(Extra) <= diff {
      var filePath := diff[|Prefix(Extra)|..];
      var templateFilePath := MapToTemplatePath(filePath, ws.variables, ws.template);
      if EndsWith(templateFilePath, JinjaSuffix) {
        return Ok(Manual(ManualEntry(filePath, templateFilePath)));
      }
      return Ok(Copy(PlainCopy(filePath, templateFilePath)));
    }
    return Ok(NoAction);
  }

  /** `Missing file` lines are reported but never queued. */
  lemma MissingNeverQueued(p: Path, ws: Workspace)
    ensures ClassifyOne(Message(Difference(Missing, p)), ws) == Ok(NoAction)
  {
    ParseMessageRoundTrip(Difference(Missing, p));
  }

  /** A report line is read back as the difference it was printed from. */
  lemma ClassifyMessage(d: Difference, ws: Workspace)
    requires WellFormedPath(d.path)
    ensures ClassifyOne(Message(d), ws) == match d.kind
                                           case Missing => Ok(NoAction)
                                           case Extra => Ok(ClassifyExtra(PathString(d.path), ws))
                                           case ContentDiffers => ClassifyChanged(PathString(d.path), ws)
  {
    ParseMessageRoundTrip(d);
  }

  /**
   * An extra file needs a manual fix when its template is a `.jinja` file, and is
   * otherwise queued for a plain copy of that very file over its template.
   */
  lemma ExtraFileOutcome(p: Path, ws: Workspace)
    requires WellFormedPath(p)
    ensures var templatePath := MapToTemplatePath(PathString(p), ws.variables, ws.template);
            ClassifyOne(Message(Difference(Extra, p)), ws)
            == Ok(if EndsWith(templatePath, JinjaSuffix) then Manual(ManualEntry(PathString(p), templatePath))
                  else Copy(CopyEntry(PathString(p), templatePath, Some(p), PathParts(templatePath), None)))
  {
    ClassifyMessage(Difference(Extra, p), ws);
    PathRoundTrip(p);
  }

  /** A changed file whose template is not a `.jinja` file is queued for a plain copy of that file. */
  lemma PlainChangeCopied(p: Path, ws: Workspace)
    requires WellFormedPath(p) && p in ws.expected && p in ws.actual
    requires !EndsWith(MapToTemplatePath(PathString(p), ws.variables, ws.template), JinjaSuffix)
    ensures var templatePath := MapToTemplatePath(PathString(p), ws.variables, ws.template);
            ClassifyOne(Message(Difference(ContentDiffers, p)), ws)
            == Ok(Copy(CopyEntry(PathString(p), templatePath, Some(p), PathParts(templatePath), None)))
  {
    var filePath := PathString(p);
    var templatePath := MapToTemplatePath(filePath, ws.variables, ws.template);
    calc {
      ClassifyOne(Message(Difference(ContentDiffers, p)), ws);
      == { ClassifyMessage(Difference(ContentDiffers, p), ws); }
      ClassifyChanged(filePath, ws);
      == { ReadShared(ws.expected, ws.actual, p); PathRoundTrip(p); ChangedPlain(filePath, ws); }
      Ok(Copy(PlainCopy(filePath, templatePath)));
      == { PathRoundTrip(p); }
      Ok(Copy(CopyEntry(filePath, templatePath, Some(p), PathParts(templatePath), None)));
    }
  }

  /** A readable changed file whose template is not a `.jinja` file is copied back as it is. */
  lemma ChangedPlain(filePath: string, ws: Workspace)
    requires ReadBoth(ws.expected, ws.actual, PathParts(filePath)).Ok?
    requires !EndsWith(MapToTemplatePath(filePath, ws.variables, ws.template), JinjaSuffix)
    ensures ClassifyChanged(filePath, ws) == Ok(Copy(PlainCopy(filePath, MapToTemplatePath(filePath, ws.variables, ws.template))))
  {
  }

  /** Both files are UTF-8 text and neither is empty, so auto-resolution is attempted. */
  predicate Resolvable(ws: Workspace, p: Path) {
    p in ws.expected && p in ws.actual && ws.expected[p].Decoded? && ws.actual[p].Decoded?
    && ws.expected[p].text != "" && ws.actual[p].text != ""
  }

  /**
   * The auto-resolved content for the changed file `p` rendered from `templatePath`:
   * none unless both files are non-empty UTF-8 text.
   */
  function Proposal(ws: Workspace, p: Path, templatePath: string): Result<Option<string>, IoError> {
    if Resolvable(ws, p) then
      AutoResolve(ws.template, PathParts(templatePath), ws.expected[p].text, ws.actual[p].text, ws.variables, ws.validate)
    else Ok(None)
  }

  /** Both files of a shared path are read; the pair is absent when either is not UTF-8. */
  lemma ReadShared(expected: Tree, actual: Tree, p: Path)
    requires p in expected && p in actual
    ensures ReadBoth(expected, actual, p)
            == Ok(if expected[p].Decoded? && actual[p].Decoded? then Some((expected[p].text, actual[p].text)) else None)
  {
  }

  /** A readable changed file whose template is a `.jinja` file goes through auto-resolution. */
  lemma ChangedTemplated(filePath: string, ws: Workspace)
    requires ReadBoth(ws.expected, ws.actual, PathParts(filePath)).Ok?
    requires EndsWith(MapToTemplatePath(filePath, ws.variables, ws.template), JinjaSuffix)
    ensures ClassifyChanged(filePath, ws)
            == ClassifyTemplated(filePath, MapToTemplatePath(filePath, ws.variables, ws.template),
                                 ReadBoth(ws.expected, ws.actual, PathParts(filePath)).value, ws)
  {
  }

  /** The templated branch, in terms of the proposal for the shared file `p`. */
  lemma TemplatedByProposal(filePath: string, templatePath: string, p: Path, ws: Workspace)
    requires p in ws.expected && p in ws.actual
    ensures ClassifyTemplated(filePath, templatePath, ReadBoth(ws.expected, ws.actual, p).value, ws)
            == match Proposal(ws, p, templatePath)
               case Err(e) => Err(e)
               case Ok(proposal) =>
                 Ok(if proposal.Some? && proposal.value != "" then Copy(CopyEntry(filePath, templatePath, None, PathParts(templatePath), proposal))
                    else Manual(ManualEntry(filePath, templatePath)))
  {
    ReadShared(ws.expected, ws.actual, p);
  }

  /**
   * A changed file rendered from a `.jinja` template is queued with its auto-resolved
   * content when auto-resolution proposes a non-empty template, and otherwise needs a
   * manual fix, unless reading the template raised.
   */
  lemma TemplatedChangeOutcome(p: Path, ws: Workspace)
    requires WellFormedPath(p) && p in ws.expected && p in ws.actual
    requires EndsWith(MapToTemplatePath(PathString(p), ws.variables, ws.template), JinjaSuffix)
    ensures ClassifyOne(Message(Difference(ContentDiffers, p)), ws)
            == match Proposal(ws, p, MapToTemplatePath(PathString(p), ws.variables, ws.template))
               case Err(e) => Err(e)
               case Ok(proposal) =>
                 var templatePath := MapToTemplatePath(PathString(p), ws.variables, ws.template);
                 Ok(if proposal.Some? && proposal.value != "" then Copy(CopyEntry(PathString(p), templatePath, None, PathParts(templatePath), proposal))
                    else Manual(ManualEntry(PathString(p), templatePath)))
  {
    var filePath := PathString(p);
    ClassifyMessage(Difference(ContentDiffers, p), ws);
    ReadShared(ws.expected, ws.actual, p);
    PathRoundTrip(p);
    ChangedTemplated(filePath, ws);
    TemplatedByProposal(filePath, MapToTemplatePath(filePath, ws.variables, ws.template), p, ws);
  }

  /**
   * Auto-resolution is attempted only when both files are non-empty UTF-8 text, and
   * what it proposes passed validation against the checked-in file's text.
   */
  lemma ProposalValidated(ws: Workspace, p: Path, templatePath: string)
    requires Proposal(ws, p, templatePath).Ok? && Proposal(ws, p, templatePath).value.Some?
    ensures Resolvable(ws, p)
    ensures ws.validate(PathParts(templatePath), Proposal(ws, p, templatePath).value.value, ws.actual[p].text)
  {
  }

  /** The lines the loop acts on: `Content differs` and `Extra file` lines. */
  function Actionable(diffs: seq<string>): nat {
    if diffs == [] then 0
    else Actionable(diffs[..|diffs| - 1]) + (if ParseMessage(diffs[|diffs| - 1]).Ignored? then 0 else 1)
  }

  lemma NoActionIffIgnored(diff: string, ws: Workspace)
    requires ClassifyOne(diff, ws).Ok?
    ensures ClassifyOne(diff, ws).value.NoAction? <==> ParseMessage(diff).Ignored?
  {
    match ParseMessage(diff)
    case Ignored =>
    case ExtraReported(filePath) =>
    case ContentReported(filePath) =>
      assert ClassifyOne(diff, ws) == ClassifyChanged(filePath, ws);
      ChangedIsQueued(filePath, ws);
  }

  lemma ChangedIsQueued(filePath: string, ws: Workspace)
    requires ClassifyChanged(filePath, ws).Ok?
    ensures !ClassifyChanged(filePath, ws).value.NoAction?
  {
    var templatePath := MapToTemplatePath(filePath, ws.variables, ws.template);
    var contents := ReadBoth(ws.expected, ws.actual, PathParts(filePath));
    if EndsWith(templatePath, JinjaSuffix) {
      assert ClassifyChanged(filePath, ws) == ClassifyTemplated(filePath, templatePath, contents.value, ws);
    }
  }

  /** Every actionable line lands in exactly one of the two queues; no other line does. */
  lemma {:induction false} QueuesPartition(diffs: seq<string>, ws: Workspace)
    requires ClassifyAll(diffs, ws).Ok?
    ensures var q := ClassifyAll(diffs, ws).value;
            |q.filesToCopy| + |q.filesNeedingManualFix| == Actionable(diffs)
    decreases |diffs|
  {
    if diffs != [] {
      var front := diffs[..|diffs| - 1];
      QueuesPartition(front, ws);
      NoActionIffIgnored(diffs[|diffs| - 1], ws);
    }
  }

  /**
   * Every queued auto-resolved template is a `.jinja` file whose proposal the validation
   * accepted against the checked-in file's text.
   */
  predicate ValidatedCopy(entry: CopyEntry, ws: Workspace) {
    entry.resolvedContent.Some? ==>
      EndsWith(entry.templatePath, JinjaSuffix) && entry.actualFile.None?
      && var p := PathParts(entry.relativePath);
         p in ws.actual && ws.actual[p].Decoded?
         && ws.validate(entry.templateFile, entry.resolvedContent.value, ws.actual[p].text)
  }

  lemma {:induction false} ResolvedCopiesValidated(diffs: seq<string>, ws: Workspace)
    requires ClassifyAll(diffs, ws).Ok?
    ensures var q := ClassifyAll(diffs, ws).value;
            forall k :: 0 <= k < |q.filesToCopy| ==> ValidatedCopy(q.filesToCopy[k], ws)
    decreases |diffs|
  {
    if diffs != [] {
      ResolvedCopiesValidated(diffs[..|diffs| - 1], ws);
      var outcome := ClassifyOne(diffs[|diffs| - 1], ws);
      if outcome.Ok? && outcome.value.Copy? {
        OneCopyValidated(diffs[|diffs| - 1], ws);
      }
    }
  }

  lemma OneCopyValidated(diff: string, ws: Workspace)
    requires ClassifyOne(diff, ws).Ok? && ClassifyOne(diff, ws).value.Copy?
    ensures ValidatedCopy(ClassifyOne(diff, ws).value.entry, ws)
  {
    match ParseMessage(diff)
    case Ignored =>
    case ExtraReported(filePath) =>
      assert ClassifyOne(diff, ws).value == ClassifyExtra(filePath, ws);
    case ContentReported(filePath) =>
      assert ClassifyOne(diff, ws) == ClassifyChanged(filePath, ws);
      ChangedCopyValidated(filePath, ws);
  }

  lemma ChangedCopyValidated(filePath: string, ws: Workspace)
    requires ClassifyChanged(filePath, ws).Ok? && ClassifyChanged(filePath, ws).value.Copy?
    ensures ValidatedCopy(ClassifyChanged(filePath, ws).value.entry, ws)
  {
    var templatePath := MapToTemplatePath(filePath, ws.variables, ws.template);
    var contents := ReadBoth(ws.expected, ws.actual, PathParts(filePath));
    if EndsWith(templatePath, JinjaSuffix) {
      assert ClassifyChanged(filePath, ws) == ClassifyTemplated(filePath, templatePath, contents.value, ws);
      TemplatedCopyValidated(filePath, templatePath, contents.value, ws);
    }
  }

  lemma TemplatedCopyValidated(filePath: string, templatePath: string, contents: Option<(string, string)>, ws: Workspace)
    requires ClassifyTemplated(filePath, templatePath, contents, ws).Ok?
    requires ClassifyTemplated(filePath, templatePath, contents, ws).value.Copy?
    ensures var entry := ClassifyTemplated(filePath, templatePath, contents, ws).value.entry;
            contents.Some? && entry.resolvedContent.Some? && entry.actualFile.None?
            && ws.validate(PathParts(templatePath), entry.resolvedContent.value, contents.value.1)
  {
  }

  /** The outcome of a check: the project matches, or the report and the two queues. */
  datatype Verdict = Matches | Drifted(differences: seq<string>, queues: Queues)

  /**
   * The checked-in project matches the generated one: the same files (answers files
   * aside), all of them UTF-8 text, with the same contents.
   */
  predicate InSync(expectedFiles: set<Path>, actualFiles: set<Path>, expected: Tree, actual: Tree)
    requires expectedFiles <= expected.Keys && actualFiles <= actual.Keys
  {
    && (forall p :: p in expectedFiles && p in actualFiles ==> expected[p].Decoded? && actual[p].Decoded?)
    && expectedFiles == actualFiles
    && (forall p :: p in expectedFiles ==> expected[p] == actual[p])
  }

  /** With every shared file readable, the report is empty exactly when the projects are in sync. */
  lemma EmptyReportInSync(diffs: seq<Difference>, expectedFiles: set<Path>, actualFiles: set<Path>, expected: Tree, actual: Tree)
    requires expectedFiles <= expected.Keys && actualFiles <= actual.Keys
    requires IsReport(diffs, expectedFiles, actualFiles, expected, actual)
    requires forall p :: p in expectedFiles && p in actualFiles ==> expected[p].Decoded? && actual[p].Decoded?
    ensures Messages(diffs) == [] <==> InSync(expectedFiles, actualFiles, expected, actual)
  {
    EmptyReportIff(diffs, expectedFiles, actualFiles, expected, actual);
  }

  /** The loop over the report raises exactly when the handling of some line raises. */
  lemma {:induction false} ClassifyAllErrIff(diffs: seq<string>, ws: Workspace)
    ensures ClassifyAll(diffs, ws).Err? <==> exists k :: 0 <= k < |diffs| && ClassifyOne(diffs[k], ws).Err?
    decreases |diffs|
  {
    if diffs != [] {
      var front := diffs[..|diffs| - 1];
      ClassifyAllErrIff(front, ws);
      assert forall k :: 0 <= k < |front| ==> front[k] == diffs[k];
    }
  }

  /** Whatever the order of its lines, a report makes the loop raise exactly when one of its differences does. */
  lemma ReportFailsIff(diffs: seq<Difference>, expectedFiles: set<Path>, actualFiles: set<Path>, ws: Workspace)
    requires IsReport(diffs, expectedFiles, actualFiles, ws.expected, ws.actual)
    ensures ClassifyAll(Messages(diffs), ws).Err? <==>
            exists d :: Belongs(d, expectedFiles, actualFiles, ws.expected, ws.actual) && ClassifyOne(Message(d), ws).Err?
  {
    var messages := Messages(diffs);
    ClassifyAllErrIff(messages, ws);
    if ClassifyAll(messages, ws).Err? {
      var k :| 0 <= k < |messages| && ClassifyOne(messages[k], ws).Err?;
      assert diffs[k] in diffs;
    }
    if exists d :: Belongs(d, expectedFiles, actualFiles, ws.expected, ws.actual) && ClassifyOne(Message(d), ws).Err? {
      var d :| Belongs(d, expectedFiles, actualFiles, ws.expected, ws.actual) && ClassifyOne(Message(d), ws).Err?;
      var k :| 0 <= k < |diffs| && diffs[k] == d;
      assert ClassifyOne(messages[k], ws).Err?;
    }
  }

  /**
   * `compare_with_expected_materialized`, from the comparison through the classification
   * loop: the generated project, the checked-in `test-proj` (absent if it does not exist)
   * with its git listing, the template directory, the template variables and the
   * validation are given.
   */
  method CompareWithExpectedMaterialized(expectedProject: Tree, testProject: Option<Tree>, lsFilesOutput: string,
                                         template: Tree, variables: Variables, validate: Validator)
    returns (r: Result<Verdict, IoError>)
    ensures r == Ok(Matches) <==>
              InSync(ExpectedFiles(Some(expectedProject)), ActualFiles(testProject, lsFilesOutput),
                     expectedProject, TreeOf(testProject))
    ensures r.Ok? && r.value.Drifted? ==>
              r.value.differences != []
              && ClassifyAll(r.value.differences, Workspace(expectedProject, TreeOf(testProject), template, variables, validate))
                 == Ok(r.value.queues)
    ensures r.Ok? && r.value.Drifted? ==>
              exists diffs :: IsReport(diffs, ExpectedFiles(Some(expectedProject)), ActualFiles(testProject, lsFilesOutput),
                                       expectedProject, TreeOf(testProject))
                              && r.value.differences == Messages(diffs)
    ensures r.Err? <==>
              (exists p :: SharedUndecodable(p, Some(expectedProject), testProject, lsFilesOutput))
              || exists d :: Belongs(d, ExpectedFiles(Some(expectedProject)), ActualFiles(testProject, lsFilesOutput),
                                     expectedProject, TreeOf(testProject))
                             && ClassifyOne(Message(d), Workspace(expectedProject, TreeOf(testProject), template, variables, validate)).Err?
  {
    var differences := CompareDirectories(Some(expectedProject), testProject, lsFilesOutput);
    ghost var expectedFiles, actualFiles := ExpectedFiles(Some(expectedProject)), ActualFiles(testProject, lsFilesOutput);
    if differences.Err? {
      assert SharedUndecodable(differences.error.path, Some(expectedProject), testProject, lsFilesOutput);
      return Err(differences.error);
    }
    ghost var diffs :| IsReport(diffs, expectedFiles, actualFiles, expectedProject, TreeOf(testProject))
                       && differences.value == Messages(diffs);
    forall p | p in expectedFiles && p in actualFiles
      ensures expectedProject[p].Decoded? && TreeOf(testProject)[p].Decoded?
    {
      assert !SharedUndecodable(p, Some(expectedProject), testProject, lsFilesOutput);
    }
    EmptyReportInSync(diffs, expectedFiles, actualFiles, expectedProject, TreeOf(testProject));
    var ws := Workspace(expectedProject, TreeOf(testProject), template, variables, validate);
    ReportFailsIff(diffs, expectedFiles, actualFiles, ws);
    if differences.value == [] {
      return Ok(Matches);
    }
    var queues := ClassifyDifferences(differences.value, ws);
    if queues.Err? {
      return Err(queues.error);
    }
    return Ok(Drifted(differences.value, queues.value));
  }
}
