/**
 * `evaluate_jinja_expression`: the value of a bare variable name, or of one of three
 * hard-coded string transforms applied to a variable.  Any other expression, and any
 * expression whose variable is unknown, evaluates to nothing.
 */
module JinjaEval {
  import opened Wrappers
  import opened Text

  /** The template variables by name (answers and resolved question defaults). */
  type Variables = map<string, string>

  /** `variables.get(name, "")`. */
  function Get(variables: Variables, name: string): (v: string)
    ensures name !in variables ==> v == ""
    ensures name in variables ==> v == variables[name]
  {
    if name in variables then variables[name] else ""
  }

  const DashToUnderscore: string := ".replace('-', '_')"
  const DashToSpaceTitle: string := ".replace('-', ' ').title()"
  const UnderscoreToDash: string := ".replace('_', '-')"

  predicate IsUpper(c: char) { 'A' <= c <= 'Z' }
  predicate IsLower(c: char) { 'a' <= c <= 'z' }

  /** A character with case; only ASCII letters are treated as such. */
  predicate IsCased(c: char) { IsUpper(c) || IsLower(c) }

  function ToUpper(c: char): (u: char)
    ensures IsCased(c) <==> IsCased(u)
    ensures !IsLower(u) && (!IsCased(c) ==> u == c)
  {
    if IsLower(c) then (c as int - 32) as char else c
  }

  function ToLower(c: char): (l: char)
    ensures IsCased(c) <==> IsCased(l)
    ensures !IsUpper(l) && (!IsCased(c) ==> l == c)
  {
    if IsUpper(c) then (c as int + 32) as char else c
  }

  /**
   * `str.title()` over ASCII: a cased character is upper-cased when the character
   * before it is not cased (or it opens the string) and lower-cased otherwise.
   */
  function Title(s: string): (t: string)
    ensures |t| == |s|
    ensures forall k :: 0 <= k < |s| ==>
              t[k] == (if k == 0 || !IsCased(s[k - 1]) then ToUpper(s[k]) else ToLower(s[k]))
  {
    TitleAfter(' ', s)
  }

  /** The title-casing of `s` when the character just before it is `prev`. */
  function TitleAfter(prev: char, s: string): (t: string)
    ensures |t| == |s|
    ensures forall k :: 0 <= k < |s| ==>
              t[k] == (if !IsCased(if k == 0 then prev else s[k - 1]) then ToUpper(s[k]) else ToLower(s[k]))
    decreases |s|
  {
    if s == [] then []
    else [if IsCased(prev) then ToLower(s[0]) else ToUpper(s[0])] + TitleAfter(s[0], s[1..])
  }

  /** The variable a dotted expression applies its method to: the text before the first dot. */
  function BaseName(expression: string): (name: string)
    ensures !Contains(name, ".")
    ensures name <= expression
    ensures name == expression || (|name| < |expression| && expression[|name|] == '.')
  {
    var parts := Split(expression, ".");
    SplitSpec(expression, ".");
    JoinStartsWithHead(parts, ".");
    assert Find(expression, ".").Some? ==> expression[Find(expression, ".").value] == '.' by {
      if Find(expression, ".").Some? {
        var i := Find(expression, ".").value;
        assert expression[i..i + 1] == ".";
      }
    }
    parts[0]
  }

  /**
   * `evaluate_jinja_expression(expression, variables)`.  A known name evaluates to its
   * value before anything else is tried; a dotted expression over a known variable is
   * tested for the three transforms in order; everything else is `None`.
   */
  function EvaluateExpression(expression: string, variables: Variables): (r: Option<string>)
    ensures expression in variables ==> r == Some(variables[expression])
    ensures expression !in variables && !(Contains(expression, ".") && BaseName(expression) in variables)
            ==> r.None?
    ensures r.Some? && expression !in variables ==>
              |r.value| == |variables[BaseName(expression)]|
              && (Contains(expression, DashToUnderscore) || Contains(expression, DashToSpaceTitle)
                  || Contains(expression, UnderscoreToDash))
  {
    if expression in variables then Some(variables[expression])
    else if Contains(expression, ".") && BaseName(expression) in variables then
      var value := variables[BaseName(expression)];
      if Contains(expression, DashToUnderscore) then Some(ReplaceChar(value, '-', '_'))
      else if Contains(expression, DashToSpaceTitle) then Some(Title(ReplaceChar(value, '-', ' ')))
      else if Contains(expression, UnderscoreToDash) then Some(ReplaceChar(value, '_', '-'))
      else None
    else None
  }

  /** `name.replace('-', '_')`: every dash of the value becomes an underscore, and nothing else changes. */
  lemma DashToUnderscoreRule(expression: string, variables: Variables)
    requires expression !in variables && Contains(expression, ".")
    requires BaseName(expression) in variables && Contains(expression, DashToUnderscore)
    ensures var v, r := variables[BaseName(expression)], EvaluateExpression(expression, variables);
            r.Some? && '-' !in r.value && |r.value| == |v|
            && forall k :: 0 <= k < |v| ==> r.value[k] == (if v[k] == '-' then '_' else v[k])
  {
  }

  /** `name.replace('_', '-')`, reached only when neither dash transform is present. */
  lemma UnderscoreToDashRule(expression: string, variables: Variables)
    requires expression !in variables && Contains(expression, ".")
    requires BaseName(expression) in variables && Contains(expression, UnderscoreToDash)
    requires !Contains(expression, DashToUnderscore) && !Contains(expression, DashToSpaceTitle)
    ensures var v, r := variables[BaseName(expression)], EvaluateExpression(expression, variables);
            r.Some? && '_' !in r.value && |r.value| == |v|
            && forall k :: 0 <= k < |v| ==> r.value[k] == (if v[k] == '_' then '-' else v[k])
  {
  }

  /**
   * `name.replace('-', ' ').title()`: dashes become word breaks, each word starts with a
   * capital and continues in lower case.
   */
  lemma TitleRule(expression: string, variables: Variables)
    requires expression !in variables && Contains(expression, ".")
    requires BaseName(expression) in variables && Contains(expression, DashToSpaceTitle)
    requires !Contains(expression, DashToUnderscore)
    ensures var v, r := variables[BaseName(expression)], EvaluateExpression(expression, variables);
            r.Some? && '-' !in r.value && |r.value| == |v|
            && forall k :: 0 <= k < |v| ==>
                 (v[k] == '-' ==> r.value[k] == ' ')
                 && (!IsCased(v[k]) && v[k] != '-' ==> r.value[k] == v[k])
                 && (IsCased(v[k]) && (k == 0 || !IsCased(v[k - 1])) ==> r.value[k] == ToUpper(v[k]) && IsUpper(r.value[k]))
                 && (IsCased(v[k]) && k > 0 && IsCased(v[k - 1]) ==> r.value[k] == ToLower(v[k]) && IsLower(r.value[k]))
  {
    var v := variables[BaseName(expression)];
    var spaced := ReplaceChar(v, '-', ' ');
    var r := Title(spaced);
    forall k | 0 <= k < |v|
      ensures r[k] != '-' && (v[k] == '-' ==> r[k] == ' ') && (!IsCased(v[k]) && v[k] != '-' ==> r[k] == v[k])
      ensures IsCased(v[k]) && (k == 0 || !IsCased(v[k - 1])) ==> r[k] == ToUpper(v[k]) && IsUpper(r[k])
      ensures IsCased(v[k]) && k > 0 && IsCased(v[k - 1]) ==> r[k] == ToLower(v[k]) && IsLower(r[k])
    {
      assert IsCased(spaced[k]) == IsCased(v[k]) && spaced[k] != '-';
      if k > 0 {
        assert IsCased(spaced[k - 1]) == IsCased(v[k - 1]);
      }
    }
  }

  /** The two mirror transforms undo each other on a value that has no underscore. */
  lemma MirrorTransforms(value: string)
    requires '_' !in value
    ensures ReplaceChar(ReplaceChar(value, '-', '_'), '_', '-') == value
  {
    ReplaceCharBack(value, '-', '_');
  }
}
