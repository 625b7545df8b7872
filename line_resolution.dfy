/**
 * `attempt_simple_line_resolution`: when a template line renders to an expected line
 * that differs from the actual one, keep the line's single variable reference but take
 * the literal text around it from the actual line.
 */
module LineResolution {
  import opened Wrappers
  import opened Text
  import opened JinjaPatterns
  import opened JinjaEval

  /** Jinja statements (`{% ... %}`) and comments (`{# ... #}`) are out of reach. */
  predicate HasControlFlow(line: string) {
    Contains(line, "{%") || Contains(line, "{#")
  }

  /** `value` is non-empty and `line.split(value)` cuts the line in exactly two pieces. */
  predicate SplitsInTwo(line: string, value: string) {
    value != "" && |Split(line, value)| == 2
  }

  /** The two pieces are the text before the first occurrence and the text after it, neither containing the value. */
  lemma SplitInTwoAt(line: string, value: string)
    requires SplitsInTwo(line, value)
    ensures Find(line, value).Some?
    ensures var i, parts := Find(line, value).value, Split(line, value);
            parts[0] == line[..i] && parts[1] == line[i + |value|..]
            && !Contains(parts[0], value) && !Contains(parts[1], value)
  {
    SplitSpec(line, value);
    var i := Find(line, value).value;
    var rest := Split(line[i + |value|..], value);
    SplitSpec(line[i + |value|..], value);
    assert Split(line, value) == [line[..i]] + rest;
    assert |rest| == 1;
    assert Join(rest, value) == rest[0];
  }

  /** `attempt_simple_line_resolution(template_line, expected_line, actual_line, variables)`. */
  function ResolveLine(templateLine: string, expectedLine: string, actualLine: string,
                       variables: Variables): (r: Option<string>)
    ensures r.Some? ==> r.value != []
  {
    var ps := FindSimplePatterns(templateLine);
    if ps == [] then None
    else if HasControlFlow(templateLine) then None
    else if |ps| == 1 then
      var p := ps[0];
      var value := Get(variables, p.name);
      if value != "" && Contains(expectedLine, value) && Contains(actualLine, value) then
        var expectedParts, actualParts := Split(expectedLine, value), Split(actualLine, value);
        if |expectedParts| == 2 && |actualParts| == 2 then
          assert "{{" <= p.text by {
            assert WellShaped(if 0 < |PlainPatterns(templateLine)| then Plain else Transform, templateLine, p);
          }
          Some(actualParts[0] + p.text + actualParts[1])
        else None
      else None
    else None
  }

  /**
   * Line resolution succeeds exactly when the template line holds one simple pattern
   * and no control flow, and the pattern's variable has a value occurring once in both
   * rendered lines.  The result is then the actual line with that occurrence turned back
   * into the pattern.
   */
  lemma ResolveLineSpec(templateLine: string, expectedLine: string, actualLine: string,
                        variables: Variables)
    ensures var r := ResolveLine(templateLine, expectedLine, actualLine, variables);
            var ps := FindSimplePatterns(templateLine);
            r.Some? <==>
              (|ps| == 1 && !HasControlFlow(templateLine)
               && SplitsInTwo(expectedLine, Get(variables, ps[0].name))
               && SplitsInTwo(actualLine, Get(variables, ps[0].name)))
    ensures var r := ResolveLine(templateLine, expectedLine, actualLine, variables);
            r.Some? ==>
              var p := FindSimplePatterns(templateLine)[0];
              var v := Get(variables, p.name);
              var i := Find(actualLine, v).value;
              Find(actualLine, v).Some? && r.value == actualLine[..i] + p.text + actualLine[i + |v|..]
  {
    var ps := FindSimplePatterns(templateLine);
    if |ps| == 1 {
      var v := Get(variables, ps[0].name);
      if v != "" {
        SplitSpec(expectedLine, v);
        SplitSpec(actualLine, v);
      }
      if SplitsInTwo(actualLine, v) {
        SplitInTwoAt(actualLine, v);
      }
    }
  }

  /** Rendering the resolved line's pattern as the variable's value gives the actual line back. */
  lemma ResolvedRendersActual(templateLine: string, expectedLine: string, actualLine: string,
                              variables: Variables)
    requires ResolveLine(templateLine, expectedLine, actualLine, variables).Some?
    ensures var resolved := ResolveLine(templateLine, expectedLine, actualLine, variables).value;
            var p := FindSimplePatterns(templateLine)[0];
            var v := Get(variables, p.name);
            var i := Find(actualLine, v).value;
            resolved[..i] + v + resolved[i + |p.text|..] == actualLine
  {
    ResolveLineSpec(templateLine, expectedLine, actualLine, variables);
    var p := FindSimplePatterns(templateLine)[0];
    var v := Get(variables, p.name);
    SpliceBack(actualLine, Find(actualLine, v).value, v, p.text);
  }

  /** Putting `value` back where `text` was spliced in restores the line. */
  lemma SpliceBack(line: string, i: nat, value: string, text: string)
    requires i + |value| <= |line| && line[i..i + |value|] == value
    ensures var spliced := line[..i] + text + line[i + |value|..];
            spliced[..i] + value + spliced[i + |text|..] == line
  {
    var spliced := line[..i] + text + line[i + |value|..];
    assert spliced[..i] == line[..i];
    assert spliced[i + |text|..] == line[i + |value|..];
    assert line == line[..i] + line[i..i + |value|] + line[i + |value|..];
  }

  /**
   * A transform pattern's name is its whole dotted expression, so where no variable
   * name holds a dot only a line whose single pattern is a plain `{{ name }}` resolves.
   */
  lemma OnlyPlainPatternsResolve(templateLine: string, expectedLine: string, actualLine: string,
                                 variables: Variables)
    requires forall name :: name in variables ==> '.' !in name
    requires ResolveLine(templateLine, expectedLine, actualLine, variables).Some?
    ensures |PlainPatterns(templateLine)| == 1 && |TransformPatterns(templateLine)| == 0
  {
    ResolveLineSpec(templateLine, expectedLine, actualLine, variables);
    var ps := FindSimplePatterns(templateLine);
    var plainCount := |PlainPatterns(templateLine)|;
    assert WellShaped(if 0 < plainCount then Plain else Transform, templateLine, ps[0]);
  }
}
