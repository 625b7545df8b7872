/**
 * `map_materialized_to_template_path`: where in the template a file of the generated
 * project comes from.  The package directory `src/<project_name_snake>/` is written
 * `src/{{ project_name_snake }}/` in the template, and a file that is rendered from a
 * Jinja template carries the extra suffix `.jinja` there.
 */
module PathMapping {
  import opened Wrappers
  import opened Text
  import opened Paths
  import opened JinjaEval

  const SnakeVariable := "project_name_snake"
  const SnakeDirectory := "{{ project_name_snake }}"
  /** The value assumed when the variables have no `project_name_snake`. */
  const DefaultSnake := "test_proj"
  const JinjaSuffix := ".jinja"

  function ProjectSnake(variables: Variables): string {
    if SnakeVariable in variables then variables[SnakeVariable] else DefaultSnake
  }

  predicate InPackageDirectory(parts: seq<string>, snake: string) {
    |parts| >= 2 && parts[0] == "src" && parts[1] == snake
  }

  /**
   * The template path before the `.jinja` check: inside the package directory the
   * directory name becomes the variable's pattern and the rest of the path is kept;
   * any other path is kept as written.
   */
  function TemplateBase(materializedPath: string, variables: Variables): (base: string)
    ensures var parts := PathParts(materializedPath);
            InPackageDirectory(parts, ProjectSnake(variables)) ==>
              PathParts(base) == ["src", SnakeDirectory] + parts[2..]
    ensures !InPackageDirectory(PathParts(materializedPath), ProjectSnake(variables)) ==> base == materializedPath
  {
    var parts := PathParts(materializedPath);
    if InPackageDirectory(parts, ProjectSnake(variables)) then
      var rest := parts[2..];
      assert WellFormedPath(rest) by {
        forall k | 0 <= k < |rest| ensures WellFormedComponent(rest[k]) {
          assert rest[k] == parts[k + 2];
        }
      }
      PackagePathRoundTrip(rest);
      Join(["src", SnakeDirectory] + rest, "/")
    else materializedPath
  }

  lemma PackagePathRoundTrip(rest: seq<string>)
    requires WellFormedPath(rest)
    ensures PathParts(Join(["src", SnakeDirectory] + rest, "/")) == ["src", SnakeDirectory] + rest
  {
    PackagePartsWellFormed(rest);
    PathRoundTrip(["src", SnakeDirectory] + rest);
  }

  lemma PackagePartsWellFormed(rest: seq<string>)
    requires WellFormedPath(rest)
    ensures WellFormedPath(["src", SnakeDirectory] + rest)
  {
    PackagePrefixWellFormed();
    AppendWellFormed(["src", SnakeDirectory], rest);
  }

  lemma PackagePrefixWellFormed()
    ensures WellFormedPath(["src", SnakeDirectory])
  {
    AbsentChar("src", '/');
    AbsentChar(SnakeDirectory, '/');
  }

  lemma AppendWellFormed(a: Path, b: Path)
    requires WellFormedPath(a) && WellFormedPath(b)
    ensures WellFormedPath(a + b)
  {
    forall k | 0 <= k < |a + b| ensures WellFormedComponent((a + b)[k]) {
      if k >= |a| { assert (a + b)[k] == b[k - |a|]; }
    }
  }

  /** `map_materialized_to_template_path(script_dir, materialized_path)` over the template tree. */
  function MapToTemplatePath(materializedPath: string, variables: Variables, template: Tree): (r: string)
    ensures var base := TemplateBase(materializedPath, variables);
            (r == base + JinjaSuffix <==> Exists(template, PathParts(base + JinjaSuffix)))
            && (r == base || r == base + JinjaSuffix)
  {
    var base := TemplateBase(materializedPath, variables);
    var jinjaPath := base + JinjaSuffix;
    if Exists(template, PathParts(jinjaPath)) then jinjaPath else base
  }
}
