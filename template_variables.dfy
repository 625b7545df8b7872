/**
 * `parse_template_variables`: the variables the template sees, built from the
 * project's recorded answers and the template's question defaults.  Defaults that are
 * Jinja templates may depend on other variables, so the questions are swept in
 * passes until a pass adds nothing, and at most ten times.
 */
module TemplateVariables {
  import opened Wrappers
  import opened Text
  import opened JinjaEval

  /** One entry of the template's question list: its name and its `default`, if it has one. */
  datatype Question = Question(name: string, default: Option<string>)

  /**
   * `render_jinja_string(default, result, script_dir)`: the rendered text, or `None`
   * where rendering raises.  Copier's Jinja environment is not part of this model.
   */
  type Renderer = (string, Variables) -> Option<string>

  const MaxIterations: nat := 10

  /** The answers file without Copier's own `_`-prefixed entries. */
  function UserAnswers(answers: Variables): (r: Variables)
    ensures forall k :: k in r <==> k in answers && !("_" <= k)
    ensures forall k :: k in r ==> r[k] == answers[k]
  {
    map k | k in answers && !("_" <= k) :: answers[k]
  }

  /** A default holding `{{` is rendered; any other default is taken literally. */
  predicate IsTemplated(default: string) {
    Contains(default, "{{")
  }

  /** The inner loop body for one question. */
  function Step(result: Variables, question: Question, render: Renderer): Variables {
    if question.name in result || question.default.None? then result
    else if IsTemplated(question.default.value) then
      match render(question.default.value, result)
      case Some(rendered) => result[question.name := rendered]
      case None => result
    else result[question.name := question.default.value]
  }

  /** One sweep over the questions, in order, each seeing what the earlier ones added. */
  function Pass(result: Variables, questions: seq<Question>, render: Renderer): Variables
    decreases |questions|
  {
    if questions == [] then result
    else Pass(Step(result, questions[0], render), questions[1..], render)
  }

  /** The outer loop with `remaining` sweeps left: stop after a sweep that adds nothing. */
  function Sweep(result: Variables, questions: seq<Question>, render: Renderer, remaining: nat): Variables
    decreases remaining
  {
    if remaining == 0 then result
    else
      var next := Pass(result, questions, render);
      if next.Keys == result.Keys then next
      else Sweep(next, questions, render, remaining - 1)
  }

  /** The variables `parse_template_variables()` returns. */
  function ParsedVariables(answers: Variables, questions: seq<Question>, render: Renderer): Variables {
    Sweep(UserAnswers(answers), questions, render, MaxIterations)
  }

  function Names(questions: seq<Question>): set<string> {
    set k | 0 <= k < |questions| :: questions[k].name
  }

  /** A further sweep would change nothing. */
  predicate Fixpoint(result: Variables, questions: seq<Question>, render: Renderer) {
    Pass(result, questions, render) == result
  }

  /** `b` keeps every entry of `a` unchanged. */
  predicate Extends(a: Variables, b: Variables) {
    a.Keys <= b.Keys && forall k :: k in a ==> b[k] == a[k]
  }

  /** The answers and defaults as `parse_template_variables` reads them, the loops written out. */
  method ParseTemplateVariables(answers: Variables, questions: seq<Question>, render: Renderer)
    returns (result: Variables)
    ensures result == ParsedVariables(answers, questions, render)
  {
    result := map k | k in answers && !("_" <= k) :: answers[k];
    var iteration := 0;
    while iteration < MaxIterations
      invariant iteration <= MaxIterations
      invariant Sweep(result, questions, render, MaxIterations - iteration) == ParsedVariables(answers, questions, render)
    {
      var changed := false;
      ghost var before := result;
      for q := 0 to |questions|
        invariant Pass(result, questions[q..], render) == Pass(before, questions, render)
        invariant Extends(before, result)
        invariant changed <==> result.Keys != before.Keys
      {
        var question := questions[q];
        assert questions[q..] == [question] + questions[q + 1..];
        if question.name !in result && question.default.Some? {
          var defaultValue := question.default.value;
          if Contains(defaultValue, "{{") {
            var rendered := render(defaultValue, result);
            if rendered.Some? {
              result := result[question.name := rendered.value];
              changed := true;
            }
          } else {
            result := result[question.name := defaultValue];
            changed := true;
          }
        }
      }
      if !changed {
        break;
      }
      iteration := iteration + 1;
    }
  }

  /** A question only ever adds its own name, and never overwrites. */
  lemma StepExtends(result: Variables, question: Question, render: Renderer)
    ensures Extends(result, Step(result, question, render))
    ensures Step(result, question, render).Keys <= result.Keys + {question.name}
  {
  }

  /** A sweep keeps every existing entry and adds only question names. */
  lemma {:induction false} PassExtends(result: Variables, questions: seq<Question>, render: Renderer)
    ensures Extends(result, Pass(result, questions, render))
    ensures Pass(result, questions, render).Keys <= result.Keys + Names(questions)
    decreases |questions|
  {
    if questions != [] {
      var next := Step(result, questions[0], render);
      StepExtends(result, questions[0], render);
      PassExtends(next, questions[1..], render);
      assert Names(questions) == {questions[0].name} + Names(questions[1..]) by {
        forall n | n in Names(questions) ensures n in {questions[0].name} + Names(questions[1..]) {
          var k :| 0 <= k < |questions| && questions[k].name == n;
          if k > 0 {
            assert questions[1..][k - 1].name == n;
          }
        }
      }
    }
  }

  /** A sweep that adds no key changes nothing at all. */
  lemma PassFixpoint(result: Variables, questions: seq<Question>, render: Renderer)
    requires Pass(result, questions, render).Keys == result.Keys
    ensures Fixpoint(result, questions, render)
  {
    PassExtends(result, questions, render);
  }

  /** All the sweeps together keep every existing entry and add only question names. */
  lemma {:induction false} SweepExtends(result: Variables, questions: seq<Question>, render: Renderer, remaining: nat)
    ensures Extends(result, Sweep(result, questions, render, remaining))
    ensures Sweep(result, questions, render, remaining).Keys <= result.Keys + Names(questions)
    decreases remaining
  {
    if remaining > 0 {
      var next := Pass(result, questions, render);
      PassExtends(result, questions, render);
      if next.Keys != result.Keys {
        SweepExtends(next, questions, render, remaining - 1);
      }
    }
  }

  /**
   * Every user answer reaches the result unchanged, and a `_`-prefixed key is there
   * only because some question carries that name.
   */
  lemma AnswersKept(answers: Variables, questions: seq<Question>, render: Renderer)
    ensures var result := ParsedVariables(answers, questions, render);
            (forall k :: k in answers && !("_" <= k) ==> k in result && result[k] == answers[k])
            && (forall k :: k in result && "_" <= k ==> k in Names(questions))
            && (forall k :: k in result ==> k in answers || k in Names(questions))
  {
    SweepExtends(UserAnswers(answers), questions, render, MaxIterations);
  }

  /**
   * The outer loop ends either at a sweep that adds nothing, leaving a result the next
   * sweep would not change, or after `remaining` sweeps that each added a variable.
   */
  lemma {:induction false} SweepStops(result: Variables, questions: seq<Question>, render: Renderer, remaining: nat)
    ensures Fixpoint(Sweep(result, questions, render, remaining), questions, render)
            || |Sweep(result, questions, render, remaining).Keys| >= |result.Keys| + remaining
    decreases remaining
  {
    if remaining > 0 {
      var next := Pass(result, questions, render);
      PassExtends(result, questions, render);
      if next.Keys == result.Keys {
        PassFixpoint(result, questions, render);
        assert Sweep(result, questions, render, remaining) == result;
      } else {
        SubsetCard(result.Keys, next.Keys);
        var final := Sweep(next, questions, render, remaining - 1);
        assert Sweep(result, questions, render, remaining) == final;
        SweepStops(next, questions, render, remaining - 1);
        if !Fixpoint(final, questions, render) {
          calc {
            |final.Keys|;
          >= |next.Keys| + (remaining - 1);
          >= |result.Keys| + remaining;
          }
        }
      }
    }
  }

  /**
   * With fewer than ten question names the ten sweeps always suffice: the result is a
   * fixpoint of a further sweep.
   */
  lemma FewQuestionsReachFixpoint(answers: Variables, questions: seq<Question>, render: Renderer)
    requires |Names(questions)| < MaxIterations
    ensures Fixpoint(ParsedVariables(answers, questions, render), questions, render)
  {
    var start := UserAnswers(answers);
    var result := ParsedVariables(answers, questions, render);
    SweepStops(start, questions, render, MaxIterations);
    SweepExtends(start, questions, render, MaxIterations);
    SubsetCard(result.Keys, start.Keys + Names(questions));
    assert |start.Keys + Names(questions)| <= |start.Keys| + |Names(questions)|;
  }

  lemma SubsetCard<T>(a: set<T>, b: set<T>)
    requires a <= b
    ensures |a| <= |b|
    ensures a != b ==> |a| < |b|
  {
    assert b == a + (b - a);
    if a != b {
      var x :| x in b && x !in a;
      assert x in b - a;
    }
  }

  /** A sweep gives a question with a literal default that value, unless its name is already set. */
  lemma {:induction false} PassAssignsLiteral(result: Variables, questions: seq<Question>, render: Renderer, i: nat)
    requires i < |questions| && questions[i].default.Some? && !IsTemplated(questions[i].default.value)
    requires questions[i].name !in result
    requires forall j :: 0 <= j < i ==> questions[j].name != questions[i].name
    ensures var next := Pass(result, questions, render);
            questions[i].name in next && next[questions[i].name] == questions[i].default.value
    decreases |questions|
  {
    var next := Step(result, questions[0], render);
    PassExtends(next, questions[1..], render);
    if i > 0 {
      StepExtends(result, questions[0], render);
      assert questions[i].name !in next;
      PassAssignsLiteral(next, questions[1..], render, i - 1);
    }
  }

  /** A question whose literal default is not overridden by an answer ends up with that default. */
  lemma LiteralDefaultsAssigned(answers: Variables, questions: seq<Question>, render: Renderer, i: nat)
    requires i < |questions| && questions[i].default.Some? && !IsTemplated(questions[i].default.value)
    requires questions[i].name !in answers || "_" <= questions[i].name
    requires forall j :: 0 <= j < i ==> questions[j].name != questions[i].name
    ensures var result := ParsedVariables(answers, questions, render);
            questions[i].name in result && result[questions[i].name] == questions[i].default.value
  {
    var start := UserAnswers(answers);
    var first := Pass(start, questions, render);
    PassAssignsLiteral(start, questions, render, i);
    if first.Keys != start.Keys {
      SweepExtends(first, questions, render, MaxIterations - 1);
    }
  }

  /** A variable whose only default never renders stays unset, however many sweeps run. */
  lemma {:induction false} PassSkipsUnrenderable(result: Variables, questions: seq<Question>, render: Renderer, name: string)
    requires name !in result
    requires forall k :: 0 <= k < |questions| && questions[k].name == name ==>
               questions[k].default.None?
               || (IsTemplated(questions[k].default.value)
                   && forall vars :: render(questions[k].default.value, vars).None?)
    ensures name !in Pass(result, questions, render)
    decreases |questions|
  {
    if questions != [] {
      var next := Step(result, questions[0], render);
      assert name !in next;
      PassSkipsUnrenderable(next, questions[1..], render, name);
    }
  }

  lemma {:induction false} SweepSkipsUnrenderable(result: Variables, questions: seq<Question>, render: Renderer,
                                                  remaining: nat, name: string)
    requires name !in result
    requires forall k :: 0 <= k < |questions| && questions[k].name == name ==>
               questions[k].default.None?
               || (IsTemplated(questions[k].default.value)
                   && forall vars :: render(questions[k].default.value, vars).None?)
    ensures name !in Sweep(result, questions, render, remaining)
    decreases remaining
  {
    if remaining > 0 {
      PassSkipsUnrenderable(result, questions, render, name);
      var next := Pass(result, questions, render);
      if next.Keys != result.Keys {
        SweepSkipsUnrenderable(next, questions, render, remaining - 1, name);
      }
    }
  }

  /** `parse_template_variables` leaves out a question whose default cannot be rendered. */
  lemma UnrenderableDefaultSkipped(answers: Variables, questions: seq<Question>, render: Renderer, name: string)
    requires name !in answers || "_" <= name
    requires forall k :: 0 <= k < |questions| && questions[k].name == name ==>
               questions[k].default.None?
               || (IsTemplated(questions[k].default.value)
                   && forall vars :: render(questions[k].default.value, vars).None?)
    ensures name !in ParsedVariables(answers, questions, render)
  {
    SweepSkipsUnrenderable(UserAnswers(answers), questions, render, MaxIterations, name);
  }

  /** A renderer that only knows `{{ b }}`, and only once `b` is set. */
  function RenderB(template: string, vars: Variables): Option<string> {
    if template == "{{ b }}" && "b" in vars then Some(vars["b"]) else None
  }

  /**
   * A default that depends on a later question is filled in on the second sweep; the
   * third sweep adds nothing and ends the loop.
   */
  lemma DependentDefaultExample()
    ensures var questions := [Question("a", Some("{{ b }}")), Question("b", Some("x"))];
            ParsedVariables(map["_commit" := "v1", "name" := "demo"], questions, RenderB)
            == map["name" := "demo", "b" := "x", "a" := "x"]
  {
    var questions := [Question("a", Some("{{ b }}")), Question("b", Some("x"))];
    var answers := map["_commit" := "v1", "name" := "demo"];
    var start := map["name" := "demo"];
    assert "_" <= "_commit";
    assert !("_" <= "name") by { assert "name"[0] != '_'; }
    assert UserAnswers(answers) == start;
    assert IsTemplated("{{ b }}") by { ContainsAt("{{ b }}", "{{", 0); }
    assert !IsTemplated("x") by { assert Find("x", "{{") == None; }
    var first := start["b" := "x"];
    assert Pass(start, questions, RenderB) == first by {
      assert questions[1..] == [Question("b", Some("x"))];
      assert Step(start, questions[0], RenderB) == start;
    }
    var second := first["a" := "x"];
    assert Pass(first, questions, RenderB) == second by {
      assert questions[1..] == [Question("b", Some("x"))];
    }
    assert Pass(second, questions, RenderB) == second by {
      assert questions[1..] == [Question("b", Some("x"))];
    }
    assert first.Keys != start.Keys by { assert "b" in first; }
    assert second.Keys != first.Keys by { assert "a" in second; }
    assert second == map["name" := "demo", "b" := "x", "a" := "x"];
  }
}
