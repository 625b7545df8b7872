# Template drift reconciliation, modelled in Dafny

This project models the drift tooling of a Copier project template (`copier/copy_utils.py`).
The tooling regenerates the sample project `test-proj` from the template and compares it with the
checked-in copy. It then classifies every difference: a file to copy back into the template, a
Jinja template whose literal text can be updated automatically, or a file that needs a manual fix.

The model covers:

- **Template variables** (`TemplateVariables`). The user's answers are kept, except keys starting
  with `_`. Question defaults are then filled in over at most ten sweeps. A literal default is
  taken as it is. A default containing `{{` goes through an abstract renderer, which may fail.
  A sweep that adds nothing ends the loop.
- **Jinja patterns** (`JinjaPatterns`). This is the `re.finditer` scan for the two expressions
  `{{ name }}` and `{{ name.transform }}`, written out as a deterministic greedy scan (`MatchAt`,
  `Scan`). It is proved sound and complete against a declarative reading of each regular
  expression (`IsMatch`).
- **The expression evaluator** (`JinjaEval`). It looks up a variable and knows three string
  transforms.
- **Line resolution** (`LineResolution`). A template line with exactly one variable is re-spliced
  around the variable's value, when `split` on that value cuts both the expected and the checked-in
  line into exactly two pieces.
- **File resolution** (`AutoResolution`).
  - The template, expected and actual texts are cut with `splitlines`.
  - The line loop runs as an imperative method over the template's lines.
  - The proposal is the `"\n"`-join of the new lines. The template's final line break is therefore
    not carried over.
  - The proposal is returned only when the external validation accepts it.
  - A template path that exists but is a directory, or whose bytes are not UTF-8, makes the read
    raise. The model returns an error for both.
- **Tracked files and the directory report** (`TreeDiff`).
  - The generated project is walked.
  - The checked-in project is read through the text of `git ls-files`.
  - `.copier-answers.yml` is ignored.
  - The report holds the `Missing file:` lines, then `Extra file:`, then `Content differs:`.
- **Template path mapping** (`PathMapping`). `src/<snake name>/…` is mapped back to
  `src/{{ project_name_snake }}/…`, with the `.jinja` suffix added when such a template file exists.
- **The classification loop** of `compare_with_expected_materialized` (`Reconcile`). It fills
  `files_to_copy` and `files_needing_manual_fix`.

Supporting modules:

- `Wrappers`: `Option` and `Result`.
- `Text`: Python's `find`, `split`, `join`, `strip` and `splitlines` on `seq<char>`.
- `Paths`: `PurePosixPath(...).parts`, `str(path)`, and a directory tree as a map from paths to
  file contents.

External effects are parameters:

- A directory is a `Tree`: a map from relative path to decoded text, or `Undecodable` when a UTF-8
  read raises.
- The output of `git ls-files` is a string.
- Rendering a default is a `Renderer`.
- Validating a proposal is a `Validator`.
- An exception that escapes a function is an `Err` carrying the path that could not be read.

## Model

| member | source | states |
|---|---|---|
| TemplateVariables.UserAnswers | copier/copy_utils.py:76-79 | a key is kept exactly when it is an answer not starting with `_`, with its value unchanged |
| TemplateVariables.ParseTemplateVariables | copier/copy_utils.py:85-112 | the nested loops (at most ten sweeps, each over the questions in order, stopping after a sweep that adds nothing) compute `ParsedVariables` |
| TemplateVariables.StepExtends | copier/copy_utils.py:92-107 | handling one question never changes or removes a variable and adds at most that question's name |
| TemplateVariables.PassExtends | copier/copy_utils.py:91-107 | a sweep keeps every existing variable and only adds question names |
| TemplateVariables.SweepExtends | copier/copy_utils.py:89-111 | the whole loop keeps every existing variable and only adds question names |
| TemplateVariables.AnswersKept | copier/copy_utils.py:76-112 | every user answer survives unchanged; a result key starting with `_` is a question name; every key is an answer or a question |
| TemplateVariables.PassFixpoint | copier/copy_utils.py:109-111 | a sweep that adds no name leaves the variables as they were, so a further sweep would change nothing |
| TemplateVariables.SweepStops | copier/copy_utils.py:88-111 | after `n` remaining sweeps the variables are a fixpoint or have gained at least `n` names |
| TemplateVariables.FewQuestionsReachFixpoint | copier/copy_utils.py:88-111 | with fewer than ten distinct question names, the loop ends at a fixpoint: no default that could still be computed is missed |
| TemplateVariables.PassAssignsLiteral | copier/copy_utils.py:105-107 | one sweep gives an unset question with a literal default that default, when no earlier question has the same name |
| TemplateVariables.LiteralDefaultsAssigned | copier/copy_utils.py:92-107 | a question with a literal (non-`{{`) default, no user answer and no earlier question of the same name ends with exactly that default |
| TemplateVariables.PassSkipsUnrenderable | copier/copy_utils.py:96-104 | a sweep never sets a name whose defaults are absent or never render |
| TemplateVariables.SweepSkipsUnrenderable | copier/copy_utils.py:88-111 | the loop never sets a name whose defaults are absent or never render |
| TemplateVariables.UnrenderableDefaultSkipped | copier/copy_utils.py:96-104 | a question whose templated default never renders is left out of the result rather than failing |
| TemplateVariables.DependentDefaultExample | copier/copy_utils.py:87-111 | a default depending on a later question is filled in on the second sweep; `_commit` is dropped |
| JinjaPatterns.MatchAtSound | copier/copy_utils.py:123-130 | what the greedy scan finds at a position is a match of the regular expression |
| JinjaPatterns.MatchAtComplete | copier/copy_utils.py:123-130 | wherever a match starts, the scan finds one with the same start, name start and end (the same match for the plain expression) |
| JinjaPatterns.ScanMatches | copier/copy_utils.py:122-130 | every element `finditer` yields is a match, found by the engine at its start |
| JinjaPatterns.ScanFindsEveryMatch | copier/copy_utils.py:122-130 | every match of the expression starts where one of the yielded matches starts |
| JinjaPatterns.ScanOrdered | copier/copy_utils.py:122-130 | the yielded matches lie within the line, left to right, none overlapping the next |
| JinjaPatterns.NoMatchStartsInside | copier/copy_utils.py:123-130 | no match of either expression starts inside another match, so resuming after a match skips none |
| JinjaPatterns.PatternShape | copier/copy_utils.py:122-130 | each reported pair is `{{`…`}}` text occurring in the line, with a plain identifier as the name exactly for the plain expression, and a `.` in the transform's name |
| JinjaPatterns.FindSimplePatterns | copier/copy_utils.py:115-132 | the plain matches come first, then the transform ones, each well shaped for its kind |
| JinjaPatterns.NoPatternsIff | copier/copy_utils.py:115-132 | the list is empty exactly when neither expression matches anywhere in the line |
| JinjaPatterns.EveryPlainMatchReported | copier/copy_utils.py:122-125 | every `{{ name }}` occurrence in the line is reported |
| JinjaEval.Get | copier/copy_utils.py:183 | a known name gives its value and an unknown one the empty string |
| JinjaEval.Title | copier/copy_utils.py:154 | `str.title()` on ASCII: a letter is upper-cased after a non-letter and lower-cased after a letter; other characters are kept |
| JinjaEval.BaseName | copier/copy_utils.py:146 | `expression.split(".")[0]`: the whole expression when it has no `.`, otherwise the text before its first `.` |
| JinjaEval.EvaluateExpression | copier/copy_utils.py:135-160 | a known name gives its value; otherwise a result needs a `.`, a known base name and one of the three transforms, and has the value's length |
| JinjaEval.DashToUnderscoreRule | copier/copy_utils.py:151-152 | `.replace('-', '_')` turns every `-` of the variable's value into `_` and keeps every other character |
| JinjaEval.TitleRule | copier/copy_utils.py:153-154 | `.replace('-', ' ').title()` turns every `-` into a space, upper-cases each letter that starts a word, lower-cases the other letters and keeps every other character |
| JinjaEval.UnderscoreToDashRule | copier/copy_utils.py:155-156 | `.replace('_', '-')` turns every `_` of the variable's value into `-` and keeps every other character |
| JinjaEval.MirrorTransforms | copier/copy_utils.py:151-156 | for a value without `_`, the underscore transform undoes the dash transform |
| LineResolution.SplitInTwoAt | copier/copy_utils.py:186-192 | when `split` cuts the line into exactly two pieces, they are the text before the first occurrence and the text after it, and neither contains the value |
| LineResolution.ResolveLineSpec | copier/copy_utils.py:163-196 | a line resolves exactly when it has one pattern, no `{%`/`{#`, and a non-empty value on which `split` cuts both lines into exactly two pieces; the result is the actual line with the first occurrence of the value replaced by the pattern |
| LineResolution.ResolvedRendersActual | copier/copy_utils.py:181-194 | substituting the value back into the resolved line gives the actual line |
| LineResolution.OnlyPlainPatternsResolve | copier/copy_utils.py:171-183 | with variable names free of `.`, only a line with a single plain pattern resolves |
| AutoResolution.ResolvedLines | copier/copy_utils.py:218-235 | one line per template line; a line is replaced only when its expected and actual lines differ, the template line is non-empty and it resolves |
| AutoResolution.ResolvedBeforeStep | copier/copy_utils.py:223-235 | `changes_made` after a further line is set exactly when it was set before or that line resolved |
| AutoResolution.ResolveEachLine | copier/copy_utils.py:217-235 | the loop computes the resolved lines and whether any line changed |
| AutoResolution.AutoResolve | copier/copy_utils.py:199-247 | no proposal for a missing template, an error exactly when the template exists but cannot be read, and a proposal only when validation accepts it |
| AutoResolution.AttemptJinjaAutoResolution | copier/copy_utils.py:199-247 | the imperative procedure computes `AutoResolve` |
| AutoResolution.ProposalIsResolvedTemplate | copier/copy_utils.py:211-245 | a proposal means some line resolved, and the proposal is the resolved lines joined by `\n` |
| AutoResolution.ChangedLinesRenderActual | copier/copy_utils.py:228-234 | every changed line has one pattern, and rendering it with the variable's value gives the actual line |
| AutoResolution.NothingToResolveInEqualFiles | copier/copy_utils.py:228-247 | equal expected and actual texts yield no proposal |
| TreeDiff.AllFiles | copier/copy_utils.py:345-353 | the walk keeps exactly the files whose name is not `.copier-answers.yml` |
| TreeDiff.ListedIn | copier/copy_utils.py:365-373 | every kept listed path is a file of the directory and not an answers file |
| TreeDiff.ListedLineIncluded | copier/copy_utils.py:366-371 | every listed line naming such a file contributes its path |
| TreeDiff.ListedFileNamed | copier/copy_utils.py:366-371 | every kept file is named by a listed line that passes the filter |
| TreeDiff.ListedInIff | copier/copy_utils.py:365-373 | a file is kept exactly when some listed line, stripped, names it, it is a file of the directory and it is not an answers file |
| TreeDiff.ListedInStep | copier/copy_utils.py:366-371 | each further listed line adds just the file it names, if any |
| TreeDiff.GitTrackedFiles | copier/copy_utils.py:339-373 | computes the walk or the listing, as `respect_gitignore` says |
| TreeDiff.WalkFiles | copier/copy_utils.py:345-353 | the walking loop computes `AllFiles` |
| TreeDiff.ListingFiles | copier/copy_utils.py:365-373 | the listing loop computes the listed files |
| TreeDiff.KeepListed | copier/copy_utils.py:366-371 | the loop over the listed lines computes `ListedIn` |
| TreeDiff.KeepLine | copier/copy_utils.py:367-371 | one listed line is kept exactly when it is non-blank, names a file and is not an answers file |
| TreeDiff.Messages | copier/copy_utils.py:394-413 | one report line per difference, in order |
| TreeDiff.ParseMessageRoundTrip | copier/copy_utils.py:394-413 | reading a report line back gives its kind and the printed path; `Missing` lines are ignored |
| TreeDiff.AppendEach | copier/copy_utils.py:395-400 | appends one line per path of the set, keeping the report ordered and free of repeats |
| TreeDiff.AppendChanged | copier/copy_utils.py:403-413 | adds a line for exactly the shared files whose texts differ, or fails on a shared file that is not UTF-8 |
| TreeDiff.CompareDirectories | copier/copy_utils.py:376-415 | fails exactly when a shared file is not UTF-8; otherwise the report lists every missing, extra and changed file once, in that group order |
| TreeDiff.FileSets | copier/copy_utils.py:383-392 | an absent directory has no files; otherwise it has its walked or listed files |
| TreeDiff.NoneUndecodable | copier/copy_utils.py:403-410 | when every shared file decodes, no read fails |
| TreeDiff.ReportOfParts | copier/copy_utils.py:394-413 | the three groups together make a correct report |
| TreeDiff.EmptyReportIff | copier/copy_utils.py:394-415 | the report is empty exactly when both sides have the same files with the same contents |
| TreeDiff.AnswersFileNeverReported | copier/copy_utils.py:343-371 | no report line names an answers file |
| PathMapping.TemplateBase | copier/copy_utils.py:625-652 | inside `src/<snake>` the parts become `src`, `{{ project_name_snake }}` and the rest; any other path is kept as written |
| PathMapping.PackagePathRoundTrip | copier/copy_utils.py:636-639 | `str(Path(*new_parts))` parses back to exactly the new parts |
| PathMapping.MapToTemplatePath | copier/copy_utils.py:623-652 | the `.jinja` path is chosen exactly when it exists in the template directory, else the base path |
| Reconcile.ClassifyDifferences | copier/copy_utils.py:453-579 | the loop over the report computes `ClassifyAll`, stopping at the first read that raises |
| Reconcile.ClassifyDifference | copier/copy_utils.py:461-579 | one loop iteration computes `ClassifyOne` |
| Reconcile.ErrorStops | copier/copy_utils.py:461-579 | once a line raises, the later lines change nothing |
| Reconcile.MissingNeverQueued | copier/copy_utils.py:461-554 | a `Missing file` line queues nothing |
| Reconcile.ClassifyMessage | copier/copy_utils.py:461-579 | a report line is handled according to its kind, for the printed path |
| Reconcile.ExtraFileOutcome | copier/copy_utils.py:554-579 | an extra file is queued for manual fix when its template is `.jinja`, otherwise copied from the checked-in file |
| Reconcile.PlainChangeCopied | copier/copy_utils.py:543-552 | a changed file whose template is not `.jinja` is copied back from the checked-in file |
| Reconcile.ChangedPlain | copier/copy_utils.py:543-552 | when the reads succeed, a plain changed file is a plain copy |
| Reconcile.ReadShared | copier/copy_utils.py:473-481 | reading a shared file pair gives both texts, or nothing when either is not UTF-8 |
| Reconcile.ChangedTemplated | copier/copy_utils.py:512-542 | a changed file with a `.jinja` template goes to the templated branch with the read contents |
| Reconcile.TemplatedByProposal | copier/copy_utils.py:512-542 | a templated file is copied with the proposal when one is non-empty, and is otherwise queued for manual fix |
| Reconcile.TemplatedChangeOutcome | copier/copy_utils.py:462-542 | the full outcome of a `Content differs` line whose template is `.jinja` |
| Reconcile.ProposalValidated | copier/copy_utils.py:515-518 | a proposal needs both files to be non-empty UTF-8 text, and it has passed validation |
| Reconcile.NoActionIffIgnored | copier/copy_utils.py:461-579 | a line queues something exactly when it is a `Content differs` or `Extra file` line |
| Reconcile.ChangedIsQueued | copier/copy_utils.py:462-552 | a changed file always ends in one of the two queues |
| Reconcile.QueuesPartition | copier/copy_utils.py:453-579 | the two queues together hold one entry per actionable report line |
| Reconcile.ResolvedCopiesValidated | copier/copy_utils.py:520-538 | every queued copy with resolved content comes from a `.jinja` template and passed validation against the checked-in text |
| Reconcile.OneCopyValidated | copier/copy_utils.py:520-552 | the same for the copy queued by one line |
| Reconcile.ChangedCopyValidated | copier/copy_utils.py:512-552 | the same for a changed file's copy |
| Reconcile.TemplatedCopyValidated | copier/copy_utils.py:512-538 | an auto-resolved copy carries content that validated against the actual text and no file to copy |
| Reconcile.ClassifyAllErrIff | copier/copy_utils.py:461-579 | the loop raises exactly when the handling of one of the lines raises |
| Reconcile.ReportFailsIff | copier/copy_utils.py:438-579 | whatever the order of its lines, a report makes the loop raise exactly when one of its differences does |
| Reconcile.EmptyReportInSync | copier/copy_utils.py:438-444 | with every shared file UTF-8, the report is empty exactly when the projects are in sync |
| Reconcile.CompareWithExpectedMaterialized | copier/copy_utils.py:418-579 | reports a match exactly when the projects are in sync; raises exactly when a shared file is not UTF-8 or the handling of some reported difference raises; otherwise returns the non-empty `compare_directories` report and the queues the classification computes from it |
| Paths.PathRoundTrip | copier/copy_utils.py:623-639 | printing a normalised path and parsing it with `Path(...).parts` gives the same parts |
| Paths.PathParts | copier/copy_utils.py:625 | every part is a normal component, except a leading root |
| Text.SplitSpec | copier/copy_utils.py:186-192 | `split` gives more than one part exactly when the separator occurs; the parts join back to the text and none contains the separator |
| Text.SplitJoin | copier/copy_utils.py:366-373 | splitting a join by a one-character separator gives back the parts |
| Text.JoinSplitLines | copier/copy_utils.py:211-238 | `"\n".join(s.splitlines())` gives back `s` exactly when `\n` is its only line boundary and it does not end in one |
| Text.SplitLines | copier/copy_utils.py:212-214 | no line contains a line break, and there are no lines exactly for the empty text |

## Left out

- Rendering the template (`run_copy`, `render_jinja_string`, the Jinja engine): the generated project is a parameter, and rendering a default is an abstract partial function.
- The internals of `validate_auto_resolved_template` (a re-render in a temporary directory): validation is an opaque predicate on the template path, the proposal and the actual text.
- `git ls-files` and every `subprocess` call: the listing's output is a string parameter. The `git diff` display is console output only.
- `console` output, `click` commands, `tempfile` and `shutil`: no effect on the classification.
- The writes of fix mode (copying files and writing resolved templates): the model stops at the two queues those writes consume.
- Reading `.copier-answers.yml` with YAML, and the template's question configuration: answers and questions are parameters. Values are strings, so the `isinstance(default, str)` test keeps only its string case.
- TemplateVariables.ParseTemplateVariables: each call to the source function re-reads the files. The model takes the variables once and passes them to the path mapping.
- JinjaEval.Title: `str.title()` is modelled for ASCII letters only; Unicode case mapping is not.
- JinjaEval.EvaluateExpression: nothing in the tooling calls it; it is modelled for completeness.
- TreeDiff.CompareDirectories: a shared file that is not UTF-8 makes the source raise `UnicodeDecodeError`. The model follows the code and returns an error; it does not fall back to comparing sizes.
- TreeDiff.CompareDirectories: the order of lines within each group follows set iteration order, which the model leaves unspecified.
- TreeDiff.AllFiles: `is_file()` versus directories and symbolic links are not modelled, because a tree holds only regular files.
- AutoResolution.ProposalIsResolvedTemplate: states the proposal as the `\n`-join of the resolved lines. `Text.JoinSplitLines` shows that joining the split lines gives a text back exactly when `\n` is its only boundary and it does not end in one. No lemma carries this over to a proposal whose lines were resolved.
