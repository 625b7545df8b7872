/**
 * The handful of Python `str` operations the drift tooling relies on, written over
 * `string` (a sequence of Unicode scalar values): `in`, `find`, `split(sep)`,
 * `sep.join(...)`, `replace` of one character, `strip()`, `splitlines()` and
 * `endswith`.  `startswith` is Dafny's prefix test `p <= s`.
 */
module Text {
  import opened Wrappers

  /** Python's `str.isspace()` for one character; the regex class `\s` is the same set. */
  predicate IsSpace(c: char) {
    ('\t' <= c <= '\r') || ('\U{1C}' <= c <= ' ') || c == '\U{85}' || c == '\U{A0}'
    || c == '\U{1680}' || ('\U{2000}' <= c <= '\U{200A}') || c == '\U{2028}' || c == '\U{2029}'
    || c == '\U{202F}' || c == '\U{205F}' || c == '\U{3000}'
  }

  /** The line boundaries of Python's `str.splitlines()` (`\r\n` is handled as one). */
  predicate IsLineBreak(c: char) {
    c == '\n' || c == '\r' || c == '\U{0B}' || c == '\U{0C}' || ('\U{1C}' <= c <= '\U{1E}')
    || c == '\U{85}' || c == '\U{2028}' || c == '\U{2029}'
  }

  predicate OccursAt(s: string, sub: string, i: nat) {
    i + |sub| <= |s| && s[i..i + |sub|] == sub
  }

  /** `s.find(sub, i)`: the leftmost occurrence of `sub` at or after `i`. */
  function FindFrom(s: string, sub: string, i: nat): (r: Option<nat>)
    ensures r.Some? ==> i <= r.value && OccursAt(s, sub, r.value)
    ensures forall j :: i <= j && (r.None? || j < r.value) ==> !OccursAt(s, sub, j)
    decreases |s| - i
  {
    if i + |sub| > |s| then None
    else if s[i..i + |sub|] == sub then Some(i)
    else FindFrom(s, sub, i + 1)
  }

  function Find(s: string, sub: string): Option<nat> {
    FindFrom(s, sub, 0)
  }

  /** Python's `sub in s`. */
  predicate Contains(s: string, sub: string) {
    Find(s, sub).Some?
  }

  lemma ContainsAt(s: string, sub: string, i: nat)
    requires OccursAt(s, sub, i)
    ensures Contains(s, sub)
  {
  }

  /** A one-character string occurs only where that character does. */
  lemma AbsentChar(s: string, c: char)
    requires c !in s
    ensures !Contains(s, [c])
  {
    AbsentCharFrom(s, c, 0);
  }

  lemma {:induction false} AbsentCharFrom(s: string, c: char, i: nat)
    requires c !in s
    ensures FindFrom(s, [c], i).None?
    decreases |s| - i
  {
    if i + 1 <= |s| {
      assert s[i..i + 1] != [c] by {
        assert s[i..i + 1][0] == s[i];
      }
      AbsentCharFrom(s, c, i + 1);
    }
  }

  lemma OccursInPrefix(s: string, n: nat, sub: string, w: nat)
    requires n <= |s| && OccursAt(s[..n], sub, w)
    ensures OccursAt(s, sub, w) && w + |sub| <= n
  {
    assert s[..n][w..w + |sub|] == s[w..w + |sub|];
  }

  /** The text before the leftmost occurrence of `sub` does not contain `sub`. */
  lemma BeforeFirstOccurrence(s: string, sub: string, i: nat)
    requires sub != [] && Find(s, sub) == Some(i)
    ensures !Contains(s[..i], sub)
  {
    if Contains(s[..i], sub) {
      var w := Find(s[..i], sub).value;
      OccursInPrefix(s, i, sub, w);
    }
  }

  /** The first index at or after `i` whose character does not satisfy `p`. */
  function Span(s: string, i: nat, p: char -> bool): (k: nat)
    requires i <= |s|
    ensures i <= k <= |s|
    ensures forall j :: i <= j < k ==> p(s[j])
    ensures k < |s| ==> !p(s[k])
    decreases |s| - i
  {
    if i < |s| && p(s[i]) then Span(s, i + 1, p) else i
  }

  /** `sep.join(parts)`. */
  function Join(parts: seq<string>, sep: string): string
  {
    if |parts| == 0 then ""
    else if |parts| == 1 then parts[0]
    else parts[0] + sep + Join(parts[1..], sep)
  }

  lemma JoinStartsWithHead(parts: seq<string>, sep: string)
    requires |parts| >= 1
    ensures parts[0] <= Join(parts, sep)
  {
  }

  /**
   * `s.split(sep)` for a non-empty separator (Python raises `ValueError` on an empty
   * one): cut at the leftmost occurrences, left to right.
   */
  function Split(s: string, sep: string): (parts: seq<string>)
    requires sep != []
    ensures |parts| >= 1
    decreases |s|
  {
    match Find(s, sep)
    case None => [s]
    case Some(i) => [s[..i]] + Split(s[i + |sep|..], sep)
  }

  /**
   * The parts of a split: more than one exactly when the separator occurs, joining
   * them again gives back `s`, and no part contains the separator.
   */
  lemma {:induction false} SplitSpec(s: string, sep: string)
    requires sep != []
    ensures var parts := Split(s, sep);
            (|parts| == 1 <==> !Contains(s, sep))
            && Join(parts, sep) == s
            && forall k :: 0 <= k < |parts| ==> !Contains(parts[k], sep)
    decreases |s|
  {
    match Find(s, sep)
    case None =>
    case Some(i) =>
      SplitSpec(s[i + |sep|..], sep);
      SplitStep(s, sep, i, Split(s[i + |sep|..], sep));
  }

  /** Cutting at the leftmost occurrence keeps `Split`'s promises. */
  lemma SplitStep(s: string, sep: string, i: nat, rest: seq<string>)
    requires sep != [] && Find(s, sep) == Some(i)
    requires |rest| >= 1 && Join(rest, sep) == s[i + |sep|..]
    requires forall k :: 0 <= k < |rest| ==> !Contains(rest[k], sep)
    ensures Join([s[..i]] + rest, sep) == s
    ensures forall k :: 0 <= k < |rest| + 1 ==> !Contains(([s[..i]] + rest)[k], sep)
  {
    var parts := [s[..i]] + rest;
    assert Join(parts, sep) == s by {
      JoinCons(s[..i], rest, sep);
      CutAt(s, sep, i);
    }
    forall k | 0 <= k < |parts| ensures !Contains(parts[k], sep) {
      if k == 0 {
        BeforeFirstOccurrence(s, sep, i);
      } else {
        assert parts[k] == rest[k - 1];
      }
    }
  }

  lemma JoinCons(head: string, tail: seq<string>, sep: string)
    requires |tail| >= 1
    ensures Join([head] + tail, sep) == head + sep + Join(tail, sep)
  {
    assert ([head] + tail)[1..] == tail;
  }

  /** An occurrence of `sub` at `i` cuts `s` into the text before, `sub`, and the text after. */
  lemma CutAt(s: string, sub: string, i: nat)
    requires OccursAt(s, sub, i)
    ensures s == s[..i] + sub + s[i + |sub|..]
  {
    assert s[i..] == sub + s[i + |sub|..] by {
      assert s[i..][..|sub|] == s[i..i + |sub|] == sub;
      assert s[i..][|sub|..] == s[i + |sub|..];
      assert s[i..] == s[i..][..|sub|] + s[i..][|sub|..];
    }
    assert s == s[..i] + s[i..];
    assert s[..i] + sub + s[i + |sub|..] == s[..i] + (sub + s[i + |sub|..]);
  }

  lemma OccursAtJoinHead(head: string, sep: string, tail: string, j: nat)
    requires |sep| == 1 && j < |head| && !Contains(head, sep)
    ensures !OccursAt(head + sep + tail, sep, j)
  {
    if OccursAt(head + sep + tail, sep, j) {
      assert (head + sep + tail)[j] == head[j];
      assert head[j..j + 1] == sep;
      ContainsAt(head, sep, j);
    }
  }

  /** For a one-character separator that no part contains, splitting undoes joining. */
  lemma {:induction false} SplitJoin(parts: seq<string>, sep: string)
    requires |sep| == 1 && |parts| >= 1
    requires forall k :: 0 <= k < |parts| ==> !Contains(parts[k], sep)
    ensures Split(Join(parts, sep), sep) == parts
    decreases |parts|
  {
    if |parts| == 1 {
      assert Join(parts, sep) == parts[0];
    } else {
      var head, tail := parts[0], Join(parts[1..], sep);
      var s := head + sep + tail;
      assert Join(parts, sep) == s;
      forall j | 0 <= j < |head| ensures !OccursAt(s, sep, j) {
        OccursAtJoinHead(head, sep, tail, j);
      }
      assert s[|head|..|head| + 1] == sep;
      assert OccursAt(s, sep, |head|);
      assert Find(s, sep) == Some(|head|);
      assert s[..|head|] == head;
      assert s[|head| + 1..] == tail;
      SplitJoin(parts[1..], sep);
    }
  }

  /** Python's `s.endswith(suffix)`. */
  predicate EndsWith(s: string, suffix: string) {
    |suffix| <= |s| && s[|s| - |suffix|..] == suffix
  }

  /** `s.replace(from, to)` for one-character arguments: every `from` becomes `to`. */
  function ReplaceChar(s: string, from: char, to: char): (r: string)
    ensures |r| == |s|
    ensures forall k :: 0 <= k < |s| ==> r[k] == (if s[k] == from then to else s[k])
  {
    if s == [] then [] else [if s[0] == from then to else s[0]] + ReplaceChar(s[1..], from, to)
  }

  /** Swapping `a` for `b` and back restores a string that had no `b` in it. */
  lemma ReplaceCharBack(s: string, a: char, b: char)
    requires b !in s
    ensures ReplaceChar(ReplaceChar(s, a, b), b, a) == s
  {
    var r := ReplaceChar(ReplaceChar(s, a, b), b, a);
    forall k | 0 <= k < |s| ensures r[k] == s[k] {
      assert s[k] != b;
    }
  }

  /** `s.lstrip()`: drops the leading whitespace, and only that. */
  function StripLeft(s: string): (r: string)
    ensures |r| <= |s| && r == s[|s| - |r|..]
    ensures forall j :: 0 <= j < |s| - |r| ==> IsSpace(s[j])
    ensures r != [] ==> !IsSpace(r[0])
  {
    if s != [] && IsSpace(s[0]) then StripLeft(s[1..]) else s
  }

  /** `s.rstrip()`: drops the trailing whitespace, and only that. */
  function StripRight(s: string): (r: string)
    ensures |r| <= |s| && r == s[..|r|]
    ensures forall j :: |r| <= j < |s| ==> IsSpace(s[j])
    ensures r != [] ==> !IsSpace(r[|r| - 1])
  {
    if s != [] && IsSpace(s[|s| - 1]) then StripRight(s[..|s| - 1]) else s
  }

  /** `s.strip()`. */
  function Strip(s: string): string {
    StripRight(StripLeft(s))
  }

  predicate NoLineBreak(line: string) {
    forall j :: 0 <= j < |line| ==> !IsLineBreak(line[j])
  }

  /**
   * `s.splitlines()`: the text between line boundaries; a boundary at the very end
   * does not open an empty last line, and the empty string has no lines.
   */
  function SplitLines(s: string): (lines: seq<string>)
    ensures lines == [] <==> s == []
    ensures forall k :: 0 <= k < |lines| ==> NoLineBreak(lines[k])
    decreases |s|
  {
    if s == [] then []
    else
      var k := Span(s, 0, c => !IsLineBreak(c));
      if k == |s| then [s]
      else
        var next := if s[k] == '\r' && k + 1 < |s| && s[k + 1] == '\n' then k + 2 else k + 1;
        [s[..k]] + SplitLines(s[next..])
  }

  /** At a `\n` boundary the first line is cut off and the text after it is split on. */
  lemma NewlineCut(s: string, k: nat)
    requires k < |s| && k == Span(s, 0, c => !IsLineBreak(c)) && s[k] == '\n'
    ensures SplitLines(s) == [s[..k]] + SplitLines(s[k + 1..])
    ensures s == s[..k] + "\n" + s[k + 1..]
  {
    assert s[k..k + 1] == "\n";
    CutAt(s, "\n", k);
  }

  /** `\n` is the only line boundary in `s`. */
  predicate NewlinesOnly(s: string) {
    forall j :: 0 <= j < |s| && IsLineBreak(s[j]) ==> s[j] == '\n'
  }

  /**
   * `"\n".join(s.splitlines())` gives `s` back exactly when `\n` is the only boundary
   * in `s` and `s` does not end with one: a final line break is lost, and so is every
   * other kind of boundary.
   */
  lemma JoinSplitLines(s: string)
    ensures Join(SplitLines(s), "\n") == s <==> NewlinesOnly(s) && (s == [] || s[|s| - 1] != '\n')
  {
    if NewlinesOnly(s) && (s == [] || s[|s| - 1] != '\n') {
      JoinSplitLinesWhen(s);
    }
    if Join(SplitLines(s), "\n") == s {
      JoinSplitLinesOnlyWhen(s);
    }
  }

  lemma {:induction false} JoinSplitLinesWhen(s: string)
    requires NewlinesOnly(s)
    requires s == [] || s[|s| - 1] != '\n'
    ensures Join(SplitLines(s), "\n") == s
    decreases |s|
  {
    if s != [] {
      var k := Span(s, 0, c => !IsLineBreak(c));
      if k < |s| {
        var rest := s[k + 1..];
        assert s[k] == '\n' && rest != [];
        JoinSplitLinesWhen(rest);
        NewlineCut(s, k);
        JoinCons(s[..k], SplitLines(rest), "\n");
      }
    }
  }

  lemma {:induction false} JoinSplitLinesOnlyWhen(s: string)
    requires Join(SplitLines(s), "\n") == s
    ensures NewlinesOnly(s) && (s == [] || s[|s| - 1] != '\n')
    decreases |s|
  {
    if s != [] {
      var k := Span(s, 0, c => !IsLineBreak(c));
      if k < |s| {
        var next := if s[k] == '\r' && k + 1 < |s| && s[k + 1] == '\n' then k + 2 else k + 1;
        var rest := s[next..];
        LinesCut(s, k, next);
        CutAtNewline(s, k, next, SplitLines(rest));
        JoinSplitLinesOnlyWhen(rest);
        assert rest == s[k + 1..] && rest[|rest| - 1] == s[k + 1..][|s| - k - 2];
        NewlinesOnlyAfter(s, k);
      }
    }
  }

  /** The first boundary, where the lines are split, is where the first line of the text is cut. */
  lemma LinesCut(s: string, k: nat, next: nat)
    requires s != [] && k == Span(s, 0, c => !IsLineBreak(c)) && k < |s|
    requires next == if s[k] == '\r' && k + 1 < |s| && s[k + 1] == '\n' then k + 2 else k + 1
    ensures SplitLines(s) == [s[..k]] + SplitLines(s[next..])
  {
  }

  /** A text that is its first line, `\n` and the join of the other lines has a `\n` boundary there. */
  lemma CutAtNewline(s: string, k: nat, next: nat, lines: seq<string>)
    requires k < next <= |s| && next <= k + 2 && (next == k + 2 ==> s[k] == '\r')
    requires lines == [] <==> next == |s|
    requires s == Join([s[..k]] + lines, "\n")
    ensures next == k + 1 < |s| && s[k] == '\n' && s[k + 1..] == s[next..] == Join(lines, "\n")
  {
    if lines != [] {
      JoinCons(s[..k], lines, "\n");
    }
  }

  lemma NewlinesOnlyAfter(s: string, k: nat)
    requires k < |s| && s[k] == '\n' && forall j :: 0 <= j < k ==> !IsLineBreak(s[j])
    requires k + 1 < |s| && NewlinesOnly(s[k + 1..]) && s[k + 1..][|s| - k - 2] != '\n'
    ensures NewlinesOnly(s) && s[|s| - 1] != '\n'
  {
    forall j | 0 <= j < |s| && IsLineBreak(s[j]) ensures s[j] == '\n' {
      if j > k {
        assert s[j] == s[k + 1..][j - k - 1];
      }
    }
  }
}
