/**
 * Relative paths and the read-only view of a directory tree that the drift tooling
 * works on.  A path is the tuple `PurePosixPath(...).parts`; a tree maps each regular
 * file below a root to the text a UTF-8 text-mode `read()` of it returns (or to
 * `Undecodable` when that read raises `UnicodeDecodeError`).
 */
module Paths {
  import opened Wrappers
  import opened Text

  type Path = seq<string>

  datatype FileContent = Decoded(text: string) | Undecodable

  type Tree = map<Path, FileContent>

  /** An `open(...).read()` that raised: the path is a directory or its bytes are not UTF-8. */
  datatype IoError = Unreadable(path: Path)

  /** One segment of a normalised relative path. */
  predicate WellFormedComponent(c: string) {
    c != "" && c != "." && !Contains(c, "/")
  }

  predicate WellFormedPath(p: Path) {
    forall k :: 0 <= k < |p| ==> WellFormedComponent(p[k])
  }

  /** Drops the empty and `.` segments, keeping the others in order. */
  function DropTrivial(xs: seq<string>): (r: seq<string>)
    ensures forall k :: 0 <= k < |r| ==> r[k] != "" && r[k] != "."
    ensures (forall k :: 0 <= k < |r| ==> r[k] in xs)
    ensures (forall k :: 0 <= k < |xs| ==> xs[k] != "" && xs[k] != ".") ==> r == xs
  {
    if xs == [] then []
    else (if xs[0] == "" || xs[0] == "." then [] else [xs[0]]) + DropTrivial(xs[1..])
  }

  /**
   * `PurePosixPath(s).parts`: a leading `/` (or exactly two leading slashes) becomes a
   * root part, the rest is cut at `/`, and empty and `.` segments disappear.
   */
  function PathParts(s: string): (parts: seq<string>)
    ensures forall k :: 0 <= k < |parts| ==>
              WellFormedComponent(parts[k]) || (k == 0 && (parts[0] == "/" || parts[0] == "//"))
  {
    SplitSpec(s, "/");
    var rest := DropTrivial(Split(s, "/"));
    assert forall k :: 0 <= k < |rest| ==> WellFormedComponent(rest[k]);
    if |s| >= 2 && s[0] == '/' && s[1] == '/' && !(|s| >= 3 && s[2] == '/') then ["//"] + rest
    else if |s| >= 1 && s[0] == '/' then ["/"] + rest
    else rest
  }

  /** `str(path)`: the parts joined by `/`, and `.` for the empty path. */
  function PathString(p: Path): string {
    if p == [] then "." else Join(p, "/")
  }

  /** Printing a normalised path and parsing it again gives the same parts. */
  lemma PathRoundTrip(p: Path)
    requires WellFormedPath(p)
    ensures PathParts(PathString(p)) == p
  {
    if p == [] {
      assert Split(".", "/") == ["."] by {
        assert "."[0..1] != "/" by { assert "."[0..1][0] == '.'; }
        assert Find(".", "/") == None;
      }
    } else {
      var s := Join(p, "/");
      JoinStartsWithHead(p, "/");
      assert s[0] == p[0][0];
      if p[0][0] == '/' {
        assert OccursAt(p[0], "/", 0);
        ContainsAt(p[0], "/", 0);
      }
      SplitJoin(p, "/");
    }
  }

  /** `path.name`: the last part, or the empty string for an empty or root-only path. */
  function Name(p: Path): string {
    if |p| == 0 || (|p| == 1 && (p[0] == "/" || p[0] == "//")) then "" else p[|p| - 1]
  }

  /** `(root / p).exists()`: a file of the tree, or a directory holding one (the root itself included). */
  predicate Exists(t: Tree, p: Path) {
    p == [] || p in t || exists q :: q in t && p < q
  }

  /** Reading a file in text mode, with the failures the caller catches turned into `None`. */
  function ReadText(t: Tree, p: Path): (r: Option<string>)
    ensures r.Some? <==> p in t && t[p].Decoded?
    ensures r.Some? ==> t[p] == Decoded(r.value)
  {
    if p in t && t[p].Decoded? then Some(t[p].text) else None
  }
}
