/**
 * `attempt_jinja_auto_resolution`: walk the template, expected and actual files line by
 * line, resolve every differing line that `attempt_simple_line_resolution` can handle,
 * and propose the new template only when at least one line was resolved and the
 * regenerated project then matches the actual file.
 */
module AutoResolution {
  import opened Wrappers
  import opened Text
  import opened Paths
  import opened JinjaEval
  import opened JinjaPatterns
  import opened LineResolution

  /**
   * `validate_auto_resolved_template(script_dir, template_file, proposed, actual)`:
   * whether regenerating the project from the proposed template reproduces the actual
   * file (up to surrounding whitespace).  Its rendering run is not part of this model.
   */
  type Validator = (Path, string, string) -> bool

  /** `lines[i] if i < len(lines) else ""`. */
  function LineOr(lines: seq<string>, i: nat): string {
    if i < |lines| then lines[i] else ""
  }

  /** What the loop body does with template line `i`: the resolved line, or nothing. */
  function Resolution(templateLines: seq<string>, expectedLines: seq<string>, actualLines: seq<string>,
                      variables: Variables, i: nat): (r: Option<string>)
    ensures r.Some? ==> LineOr(expectedLines, i) != LineOr(actualLines, i) && LineOr(templateLines, i) != ""
  {
    var expectedLine, actualLine, templateLine := LineOr(expectedLines, i), LineOr(actualLines, i), LineOr(templateLines, i);
    if expectedLine != actualLine && templateLine != "" then
      ResolveLine(templateLine, expectedLine, actualLine, variables)
    else None
  }

  /**
   * The template lines after the loop: as many as before, a line left alone unless the
   * rendered lines differ there, and a changed line is the one line resolution gave.
   */
  function ResolvedLines(templateLines: seq<string>, expectedLines: seq<string>, actualLines: seq<string>,
                         variables: Variables): (r: seq<string>)
    ensures |r| == |templateLines|
    ensures forall i :: 0 <= i < |r| && LineOr(expectedLines, i) == LineOr(actualLines, i) ==> r[i] == templateLines[i]
    ensures forall i :: 0 <= i < |r| && templateLines[i] == "" ==> r[i] == templateLines[i]
    ensures forall i :: 0 <= i < |r| ==>
              r[i] == (match Resolution(templateLines, expectedLines, actualLines, variables, i)
                       case Some(line) => line
                       case None => templateLines[i])
  {
    seq(|templateLines|, i requires 0 <= i < |templateLines| =>
      match Resolution(templateLines, expectedLines, actualLines, variables, i)
      case Some(line) => line
      case None => templateLines[i])
  }

  /** `changes_made`: some line below `n` was resolved. */
  predicate ResolvedBefore(templateLines: seq<string>, expectedLines: seq<string>, actualLines: seq<string>,
                           variables: Variables, n: nat) {
    exists i :: 0 <= i < n && Resolution(templateLines, expectedLines, actualLines, variables, i).Some?
  }

  lemma ResolvedBeforeStep(templateLines: seq<string>, expectedLines: seq<string>, actualLines: seq<string>,
                           variables: Variables, n: nat)
    ensures ResolvedBefore(templateLines, expectedLines, actualLines, variables, n + 1) <==>
            ResolvedBefore(templateLines, expectedLines, actualLines, variables, n)
            || Resolution(templateLines, expectedLines, actualLines, variables, n).Some?
  {
  }

  /** The whole operation on the template tree the file is looked up in. */
  function AutoResolve(template: Tree, templatePath: Path, expectedContent: string, actualContent: string,
                       variables: Variables, validate: Validator): (r: Result<Option<string>, IoError>)
    ensures !Exists(template, templatePath) ==> r == Ok(None)
    ensures r.Err? <==> Exists(template, templatePath) && ReadText(template, templatePath).None?
    ensures r.Ok? && r.value.Some? ==> validate(templatePath, r.value.value, actualContent)
  {
    if !Exists(template, templatePath) then Ok(None)
    else match ReadText(template, templatePath)
      case None => Err(Unreadable(templatePath))
      case Some(templateContent) =>
        var templateLines := SplitLines(templateContent);
        var expectedLines, actualLines := SplitLines(expectedContent), SplitLines(actualContent);
        if ResolvedBefore(templateLines, expectedLines, actualLines, variables, |templateLines|) then
          var proposed := Join(ResolvedLines(templateLines, expectedLines, actualLines, variables), "\n");
          if validate(templatePath, proposed, actualContent) then Ok(Some(proposed)) else Ok(None)
        else Ok(None)
  }

  /**
   * A proposal is the template's lines after line resolution, joined by newlines, and
   * at least one line was resolved.
   */
  lemma ProposalIsResolvedTemplate(template: Tree, templatePath: Path, expectedContent: string, actualContent: string,
                                   variables: Variables, validate: Validator)
    requires var r := AutoResolve(template, templatePath, expectedContent, actualContent, variables, validate);
             r.Ok? && r.value.Some?
    ensures ReadText(template, templatePath).Some?
    ensures var templateLines := SplitLines(ReadText(template, templatePath).value);
            var expectedLines, actualLines := SplitLines(expectedContent), SplitLines(actualContent);
            ResolvedBefore(templateLines, expectedLines, actualLines, variables, |templateLines|)
            && AutoResolve(template, templatePath, expectedContent, actualContent, variables, validate).value.value
               == Join(ResolvedLines(templateLines, expectedLines, actualLines, variables), "\n")
  {
  }

  /** The line-by-line loop of `attempt_jinja_auto_resolution`, with its `changes_made` flag. */
  method ResolveEachLine(templateLines: seq<string>, expectedLines: seq<string>, actualLines: seq<string>,
                         variables: Variables)
    returns (newTemplateLines: seq<string>, changesMade: bool)
    ensures newTemplateLines == ResolvedLines(templateLines, expectedLines, actualLines, variables)
    ensures changesMade == ResolvedBefore(templateLines, expectedLines, actualLines, variables, |templateLines|)
  {
    changesMade := false;
    newTemplateLines := templateLines;
    var maxLines := |expectedLines|;
    if |actualLines| > maxLines { maxLines := |actualLines|; }
    if |templateLines| > maxLines { maxLines := |templateLines|; }

    ghost var goal := ResolvedLines(templateLines, expectedLines, actualLines, variables);
    for i := 0 to maxLines
      invariant |newTemplateLines| == |templateLines|
      invariant forall j :: 0 <= j < |templateLines| ==>
                  newTemplateLines[j] == if j < i then goal[j] else templateLines[j]
      invariant changesMade <==> ResolvedBefore(templateLines, expectedLines, actualLines, variables, i)
    {
      var expectedLine := if i < |expectedLines| then expectedLines[i] else "";
      var actualLine := if i < |actualLines| then actualLines[i] else "";
      var templateLine := if i < |templateLines| then templateLines[i] else "";
      ghost var step := Resolution(templateLines, expectedLines, actualLines, variables, i);
      assert step == if expectedLine != actualLine && templateLine != ""
                     then ResolveLine(templateLine, expectedLine, actualLine, variables) else None;
      ResolvedBeforeStep(templateLines, expectedLines, actualLines, variables, i);
      if expectedLine != actualLine && templateLine != "" {
        var resolvedLine := ResolveLine(templateLine, expectedLine, actualLine, variables);
        if resolvedLine.Some? {
          newTemplateLines := newTemplateLines[i := resolvedLine.value];
          changesMade := true;
        }
      }
      assert i < |templateLines| ==> newTemplateLines[i] == goal[i];
    }
    assert changesMade <==> ResolvedBefore(templateLines, expectedLines, actualLines, variables, |templateLines|) by {
      if changesMade {
        var j :| 0 <= j < maxLines && Resolution(templateLines, expectedLines, actualLines, variables, j).Some?;
      }
    }
    assert newTemplateLines == goal;
  }

  /** `attempt_jinja_auto_resolution(template_file, expected_content, actual_content, variables)`. */
  method AttemptJinjaAutoResolution(template: Tree, templatePath: Path, expectedContent: string,
                                    actualContent: string, variables: Variables, validate: Validator)
    returns (r: Result<Option<string>, IoError>)
    ensures r == AutoResolve(template, templatePath, expectedContent, actualContent, variables, validate)
  {
    if !Exists(template, templatePath) {
      return Ok(None);
    }
    if templatePath !in template || template[templatePath].Undecodable? {
      return Err(Unreadable(templatePath));
    }
    var templateContent := template[templatePath].text;
    var templateLines := SplitLines(templateContent);
    var expectedLines := SplitLines(expectedContent);
    var actualLines := SplitLines(actualContent);

    var newTemplateLines, changesMade := ResolveEachLine(templateLines, expectedLines, actualLines, variables);

    if changesMade {
      var proposedContent := Join(newTemplateLines, "\n");
      if validate(templatePath, proposedContent, actualContent) {
        return Ok(Some(proposedContent));
      }
    }
    return Ok(None);
  }

  /**
   * Every line the proposal changes is the actual line with the single occurrence of a
   * variable's value turned back into that variable's pattern.
   */
  lemma ChangedLinesRenderActual(templateLines: seq<string>, expectedLines: seq<string>,
                                 actualLines: seq<string>, variables: Variables, i: nat)
    requires i < |templateLines|
    requires ResolvedLines(templateLines, expectedLines, actualLines, variables)[i] != templateLines[i]
    ensures var resolved := ResolvedLines(templateLines, expectedLines, actualLines, variables)[i];
            var actualLine := LineOr(actualLines, i);
            var p := FindSimplePatterns(templateLines[i])[0];
            var v := Get(variables, p.name);
            |FindSimplePatterns(templateLines[i])| == 1 && Find(actualLine, v).Some?
            && var k := Find(actualLine, v).value;
               resolved[..k] + v + resolved[k + |p.text|..] == actualLine
  {
    var expectedLine, actualLine := LineOr(expectedLines, i), LineOr(actualLines, i);
    assert Resolution(templateLines, expectedLines, actualLines, variables, i).Some?;
    ResolvedRendersActual(templateLines[i], expectedLine, actualLine, variables);
  }

  /** When the regenerated file already equals the actual one there is nothing to propose. */
  lemma NothingToResolveInEqualFiles(template: Tree, templatePath: Path, content: string,
                                     variables: Variables, validate: Validator)
    requires ReadText(template, templatePath).Some?
    ensures AutoResolve(template, templatePath, content, content, variables, validate) == Ok(None)
  {
    var templateLines := SplitLines(ReadText(template, templatePath).value);
    var lines := SplitLines(content);
    forall i | 0 <= i < |templateLines|
      ensures Resolution(templateLines, lines, lines, variables, i).None?
    {
    }
  }
}
