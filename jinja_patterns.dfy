/**
 * `find_simple_jinja_patterns`: the two regular expressions
 *   plain      \{\{\s*([a-zA-Z_][a-zA-Z0-9_]*)\s*\}\}
 *   transform  \{\{\s*([a-zA-Z_][a-zA-Z0-9_]*\.[a-zA-Z_().\-\'" ]+)\s*\}\}
 * run with `re.finditer` over one template line, plain matches first.
 *
 * `IsMatch` is the language of each expression read declaratively; `MatchAt` is the
 * greedy match the regex engine returns at one position (no backtracking alternative
 * can succeed where the greedy attempt fails, so one left-to-right scan decides it);
 * `Scan` is `finditer`: try each position, resume after a match.
 */
module JinjaPatterns {
  import opened Wrappers
  import opened Text

  datatype Kind = Plain | Transform

  /**
   * A match of either expression: `{{` at `start`, the captured group in
   * `[nameStart, nameEnd)`, its leading identifier ending at `identEnd`, and `}}`
   * ending at `end`.
   */
  datatype Match = Match(start: nat, nameStart: nat, identEnd: nat, nameEnd: nat, end: nat)

  /** One `(pattern, variable_name)` pair: the whole matched text and its group 1. */
  datatype JinjaPattern = JinjaPattern(text: string, name: string)

  predicate IsIdentStart(c: char) {
    ('a' <= c <= 'z') || ('A' <= c <= 'Z') || c == '_'
  }

  predicate IsIdentChar(c: char) {
    IsIdentStart(c) || ('0' <= c <= '9')
  }

  /** The class `[a-zA-Z_().\-\'" ]` after the dot of a transform. */
  predicate IsTransformChar(c: char) {
    IsIdentStart(c) || c == '(' || c == ')' || c == '.' || c == '-' || c == '\'' || c == '"' || c == ' '
  }

  predicate IsIdentifier(s: string) {
    |s| >= 1 && IsIdentStart(s[0]) && forall k :: 1 <= k < |s| ==> IsIdentChar(s[k])
  }

  /** The three character classes the expressions repeat: `\s`, `[a-zA-Z0-9_]`, and the transform class. */
  datatype CharClass = Space | Ident | TransformText

  predicate InClass(c: char, cls: CharClass) {
    match cls
    case Space => IsSpace(c)
    case Ident => IsIdentChar(c)
    case TransformText => IsTransformChar(c)
  }

  /** Every character of `line[i..j]` is in the class. */
  predicate AllIn(line: string, i: nat, j: nat, cls: CharClass)
    requires j <= |line|
    decreases j - i
  {
    i >= j || (InClass(line[i], cls) && AllIn(line, i + 1, j, cls))
  }

  lemma {:induction false} AllInAt(line: string, i: nat, j: nat, cls: CharClass, k: nat)
    requires j <= |line| && AllIn(line, i, j, cls) && i <= k < j
    ensures InClass(line[k], cls)
    decreases k - i
  {
    if i < k {
      AllInAt(line, i + 1, j, cls, k);
    }
  }

  /** Greedy repetition of a class from `i`: the first index whose character is outside it. */
  function Skip(line: string, i: nat, cls: CharClass): (k: nat)
    requires i <= |line|
    ensures i <= k <= |line|
    decreases |line| - i
  {
    if i < |line| && InClass(line[i], cls) then Skip(line, i + 1, cls) else i
  }

  /** `Skip` consumes only characters of the class and stops at the first one outside it. */
  lemma {:induction false} SkipSpec(line: string, i: nat, cls: CharClass)
    requires i <= |line|
    ensures AllIn(line, i, Skip(line, i, cls), cls)
    ensures Skip(line, i, cls) < |line| ==> !InClass(line[Skip(line, i, cls)], cls)
    decreases |line| - i
  {
    if i < |line| && InClass(line[i], cls) {
      SkipSpec(line, i + 1, cls);
    }
  }

  /** `m` is a match of the `kind` expression in `line` (any match, greedy or not). */
  predicate IsMatch(kind: Kind, line: string, m: Match) {
    && m.start + 2 <= m.nameStart < m.identEnd <= m.nameEnd
    && m.nameEnd + 2 <= m.end <= |line|
    && line[m.start] == '{' && line[m.start + 1] == '{'
    && AllIn(line, m.start + 2, m.nameStart, Space)
    && IsIdentStart(line[m.nameStart])
    && AllIn(line, m.nameStart + 1, m.identEnd, Ident)
    && (match kind
        case Plain => m.nameEnd == m.identEnd
        case Transform =>
          m.identEnd + 1 < m.nameEnd && line[m.identEnd] == '.'
          && AllIn(line, m.identEnd + 1, m.nameEnd, TransformText))
    && AllIn(line, m.nameEnd, m.end - 2, Space)
    && line[m.end - 2] == '}' && line[m.end - 1] == '}'
  }

  /** The match the regex engine reports when it tries position `i`, if any. */
  function MatchAt(kind: Kind, line: string, i: nat): (r: Option<Match>)
    ensures r.Some? ==> r.value.start == i < r.value.end <= |line|
  {
    if !(i + 2 <= |line| && line[i] == '{' && line[i + 1] == '{') then None
    else
      var nameStart := Skip(line, i + 2, Space);
      if !(nameStart < |line| && IsIdentStart(line[nameStart])) then None
      else
        var identEnd := Skip(line, nameStart + 1, Ident);
        match kind
        case Plain => CloseAt(line, i, nameStart, identEnd, identEnd)
        case Transform =>
          if identEnd + 1 < |line| && line[identEnd] == '.' && IsTransformChar(line[identEnd + 1])
          then CloseAt(line, i, nameStart, identEnd, Skip(line, identEnd + 1, TransformText))
          else None
  }

  /** The trailing `\s*\}\}` after the group, which ends at `nameEnd`. */
  function CloseAt(line: string, i: nat, nameStart: nat, identEnd: nat, nameEnd: nat): (r: Option<Match>)
    requires i < nameEnd <= |line|
    ensures r.Some? ==> r.value.start == i < r.value.end <= |line|
  {
    var close := Skip(line, nameEnd, Space);
    if close + 2 <= |line| && line[close] == '}' && line[close + 1] == '}'
    then Some(Match(i, nameStart, identEnd, nameEnd, close + 2))
    else None
  }

  /** The pieces the engine has consumed form a match. */
  lemma Assemble(kind: Kind, line: string, i: nat, nameStart: nat, identEnd: nat, nameEnd: nat, close: nat)
    requires i + 2 <= nameStart < |line| && line[i] == '{' && line[i + 1] == '{'
    requires AllIn(line, i + 2, nameStart, Space) && IsIdentStart(line[nameStart])
    requires nameStart < identEnd <= nameEnd <= close && close + 2 <= |line|
    requires AllIn(line, nameStart + 1, identEnd, Ident)
    requires kind == Plain ==> nameEnd == identEnd
    requires kind == Transform ==>
               identEnd + 1 < nameEnd && line[identEnd] == '.' && AllIn(line, identEnd + 1, nameEnd, TransformText)
    requires AllIn(line, nameEnd, close, Space)
    requires line[close] == '}' && line[close + 1] == '}'
    ensures IsMatch(kind, line, Match(i, nameStart, identEnd, nameEnd, close + 2))
  {
  }

  /** The positions the engine computes for a match it reports, step by step. */
  predicate EngineSteps(kind: Kind, line: string, m: Match) {
    && m.start + 2 <= |line| && line[m.start] == '{' && line[m.start + 1] == '{'
    && m.nameStart == Skip(line, m.start + 2, Space)
    && m.nameStart < |line| && IsIdentStart(line[m.nameStart])
    && m.identEnd == Skip(line, m.nameStart + 1, Ident)
    && (match kind
        case Plain => m.nameEnd == m.identEnd
        case Transform =>
          && m.identEnd + 1 < |line| && line[m.identEnd] == '.' && IsTransformChar(line[m.identEnd + 1])
          && m.nameEnd == Skip(line, m.identEnd + 1, TransformText))
    && m.nameEnd + 2 <= m.end <= |line|
    && m.end - 2 == Skip(line, m.nameEnd, Space)
    && line[m.end - 2] == '}' && line[m.end - 1] == '}'
  }

  lemma MatchAtSteps(kind: Kind, line: string, i: nat)
    ensures MatchAt(kind, line, i).Some? ==> EngineSteps(kind, line, MatchAt(kind, line, i).value)
  {
  }

  /** The engine's steps consume a match of the expression. */
  lemma StepsSound(kind: Kind, line: string, m: Match)
    requires EngineSteps(kind, line, m)
    ensures IsMatch(kind, line, m)
  {
    SkipSpec(line, m.start + 2, Space);
    SkipSpec(line, m.nameStart + 1, Ident);
    if kind == Transform {
      SkipSpec(line, m.identEnd + 1, TransformText);
      assert InClass(line[m.identEnd + 1], TransformText);
    }
    SkipSpec(line, m.nameEnd, Space);
    Assemble(kind, line, m.start, m.nameStart, m.identEnd, m.nameEnd, m.end - 2);
  }

  /** The engine reports whatever its steps reach. */
  lemma StepsReported(kind: Kind, line: string, m: Match)
    requires EngineSteps(kind, line, m)
    ensures MatchAt(kind, line, m.start) == Some(m)
  {
  }

  /** What the engine reports at `i` is a match of the expression starting at `i`. */
  lemma MatchAtSound(kind: Kind, line: string, i: nat)
    ensures MatchAt(kind, line, i).Some? ==> IsMatch(kind, line, MatchAt(kind, line, i).value)
  {
    MatchAtSteps(kind, line, i);
    if MatchAt(kind, line, i).Some? {
      StepsSound(kind, line, MatchAt(kind, line, i).value);
    }
  }

  lemma {:induction false} AllInWithin(line: string, i: nat, j: nat, i': nat, cls: CharClass)
    requires i <= i' <= j <= |line| && AllIn(line, i, j, cls)
    ensures AllIn(line, i', j, cls)
    decreases i' - i
  {
    if i < i' {
      AllInWithin(line, i + 1, j, i', cls);
    }
  }

  lemma {:induction false} SkipStopsAt(line: string, i: nat, j: nat, cls: CharClass)
    requires i <= j < |line| && AllIn(line, i, j, cls) && !InClass(line[j], cls)
    ensures Skip(line, i, cls) == j
    decreases j - i
  {
    if i < j {
      SkipStopsAt(line, i + 1, j, cls);
    }
  }

  lemma {:induction false} SkipReaches(line: string, i: nat, j: nat, cls: CharClass)
    requires i <= j <= |line| && AllIn(line, i, j, cls)
    ensures Skip(line, i, cls) >= j
    decreases j - i
  {
    if i < j {
      SkipReaches(line, i + 1, j, cls);
    }
  }

  /**
   * Wherever the expression matches, the engine finds a match at that position: the
   * same one for the plain expression, and for the transform one the same matched
   * text with the greedy (longest) group.
   */
  lemma MatchAtComplete(kind: Kind, line: string, m: Match)
    requires IsMatch(kind, line, m)
    ensures MatchAt(kind, line, m.start).Some?
    ensures var f := MatchAt(kind, line, m.start).value;
            f.start == m.start && f.nameStart == m.nameStart && f.identEnd == m.identEnd
            && f.end == m.end && f.nameEnd >= m.nameEnd
    ensures kind == Plain ==> MatchAt(kind, line, m.start) == Some(m)
  {
    var f := GreedySteps(kind, line, m);
    StepsReported(kind, line, f);
  }

  /** From any match, the engine's steps reach the same match with the greedy group. */
  lemma GreedySteps(kind: Kind, line: string, m: Match) returns (f: Match)
    requires IsMatch(kind, line, m)
    ensures EngineSteps(kind, line, f)
    ensures f.start == m.start && f.nameStart == m.nameStart && f.identEnd == m.identEnd
            && f.end == m.end && f.nameEnd >= m.nameEnd
    ensures kind == Plain ==> f == m
  {
    match kind
    case Plain =>
      PlainSteps(line, m);
      f := m;
    case Transform =>
      f := TransformSteps(line, m);
  }

  lemma PlainSteps(line: string, m: Match)
    requires IsMatch(Plain, line, m)
    ensures EngineSteps(Plain, line, m)
  {
    SkipStopsAt(line, m.start + 2, m.nameStart, Space);
    if m.nameEnd < m.end - 2 {
      assert InClass(line[m.nameEnd], Space);
    }
    SkipStopsAt(line, m.nameStart + 1, m.identEnd, Ident);
    SkipStopsAt(line, m.nameEnd, m.end - 2, Space);
  }

  lemma TransformSteps(line: string, m: Match) returns (f: Match)
    requires IsMatch(Transform, line, m)
    ensures EngineSteps(Transform, line, f)
    ensures f.start == m.start && f.nameStart == m.nameStart && f.identEnd == m.identEnd
            && f.end == m.end && f.nameEnd >= m.nameEnd
  {
    assert Skip(line, m.start + 2, Space) == m.nameStart by {
      SkipStopsAt(line, m.start + 2, m.nameStart, Space);
    }
    assert Skip(line, m.nameStart + 1, Ident) == m.identEnd by {
      SkipStopsAt(line, m.nameStart + 1, m.identEnd, Ident);
    }
    assert IsTransformChar(line[m.identEnd + 1]) by {
      assert InClass(line[m.identEnd + 1], TransformText);
    }
    var te := GreedyGroupEnd(line, m);
    f := Match(m.start, m.nameStart, m.identEnd, te, m.end);
  }

  /** The greedy transform group swallows the group of any match and stops before its `}}`. */
  lemma GreedyGroupEnd(line: string, m: Match) returns (te: nat)
    requires IsMatch(Transform, line, m)
    ensures te == Skip(line, m.identEnd + 1, TransformText)
    ensures m.nameEnd <= te <= m.end - 2 && Skip(line, te, Space) == m.end - 2
  {
    te := Skip(line, m.identEnd + 1, TransformText);
    SkipReaches(line, m.identEnd + 1, m.nameEnd, TransformText);
    SkipSpec(line, m.identEnd + 1, TransformText);
    if te > m.end - 2 {
      AllInAt(line, m.identEnd + 1, te, TransformText, m.end - 2);
    }
    AllInWithin(line, m.nameEnd, m.end - 2, te, Space);
    SkipStopsAt(line, te, m.end - 2, Space);
  }

  /** Inside a match (past its `{{`) there is no `{`. */
  lemma NoBraceInside(kind: Kind, line: string, m: Match, j: nat)
    requires IsMatch(kind, line, m) && m.start + 2 <= j < m.end
    ensures line[j] != '{'
  {
    if j < m.nameStart {
      AllInAt(line, m.start + 2, m.nameStart, Space, j);
    } else if j == m.nameStart {
    } else if j < m.identEnd {
      AllInAt(line, m.nameStart + 1, m.identEnd, Ident, j);
    } else if j < m.nameEnd {
      if j > m.identEnd {
        AllInAt(line, m.identEnd + 1, m.nameEnd, TransformText, j);
      }
    } else if j < m.end - 2 {
      AllInAt(line, m.nameEnd, m.end - 2, Space, j);
    }
  }

  /** No match starts inside another, so `finditer`'s resumption skips none. */
  lemma NoMatchStartsInside(k1: Kind, k2: Kind, line: string, m1: Match, m2: Match)
    requires IsMatch(k1, line, m1) && IsMatch(k2, line, m2) && m1.start < m2.start
    ensures m1.end <= m2.start
  {
    if m2.start < m1.end {
      if m2.start == m1.start + 1 {
        NoBraceInside(k1, line, m1, m1.start + 2);
      } else {
        NoBraceInside(k1, line, m1, m2.start);
      }
    }
  }

  /** `re.finditer` from position `i`: the successive non-overlapping matches, left to right. */
  function Scan(kind: Kind, line: string, i: nat): (ms: seq<Match>)
    decreases |line| - i
  {
    if i >= |line| then []
    else match MatchAt(kind, line, i)
      case Some(m) => [m] + Scan(kind, line, m.end)
      case None => Scan(kind, line, i + 1)
  }

  /** The matches `finditer` yields lie at or after `i`, inside the line, each ending before the next starts. */
  lemma {:induction false} ScanOrdered(kind: Kind, line: string, i: nat)
    ensures var ms := Scan(kind, line, i);
            (forall k :: 0 <= k < |ms| ==> i <= ms[k].start < ms[k].end <= |line|)
            && forall k :: 0 <= k < |ms| - 1 ==> ms[k].end <= ms[k + 1].start
    decreases |line| - i
  {
    if i < |line| {
      var here := MatchAt(kind, line, i);
      if here.Some? {
        ScanHit(kind, line, i, here.value);
        ScanOrdered(kind, line, here.value.end);
      } else {
        ScanMiss(kind, line, i);
        ScanOrdered(kind, line, i + 1);
      }
    }
  }

  lemma ScanHit(kind: Kind, line: string, i: nat, m1: Match)
    requires i < |line| && MatchAt(kind, line, i) == Some(m1)
    ensures Scan(kind, line, i) == [m1] + Scan(kind, line, m1.end)
  {
  }

  lemma ScanMiss(kind: Kind, line: string, i: nat)
    requires i < |line| && MatchAt(kind, line, i).None?
    ensures Scan(kind, line, i) == Scan(kind, line, i + 1)
  {
  }

  /** Each element `finditer` yields is a match, and the one the engine finds at its start. */
  lemma {:induction false} ScanMatches(kind: Kind, line: string, i: nat)
    ensures forall k :: 0 <= k < |Scan(kind, line, i)| ==>
              IsMatch(kind, line, Scan(kind, line, i)[k])
              && MatchAt(kind, line, Scan(kind, line, i)[k].start) == Some(Scan(kind, line, i)[k])
    decreases |line| - i
  {
    if i < |line| {
      var here := MatchAt(kind, line, i);
      if here.Some? {
        MatchAtSound(kind, line, i);
        ScanHit(kind, line, i, here.value);
        ScanMatches(kind, line, here.value.end);
      } else {
        ScanMiss(kind, line, i);
        ScanMatches(kind, line, i + 1);
      }
    }
  }

  /** Every match of the expression in the line is among those `finditer` reports. */
  lemma {:induction false} ScanFindsEveryMatch(kind: Kind, line: string, i: nat, m: Match) returns (k: nat)
    requires IsMatch(kind, line, m) && i <= m.start
    ensures k < |Scan(kind, line, i)| && Scan(kind, line, i)[k].start == m.start
    decreases |line| - i, 1
  {
    var here := MatchAt(kind, line, i);
    if here.Some? {
      ScanHit(kind, line, i, here.value);
      if here.value.start == m.start {
        k := 0;
      } else {
        MatchAtSound(kind, line, i);
        k := ScanFindsPastHit(kind, line, i, here.value, m);
      }
    } else {
      MatchAtComplete(kind, line, m);
      ScanMiss(kind, line, i);
      k := ScanFindsEveryMatch(kind, line, i + 1, m);
    }
  }

  /** The case where `finditer` reports an earlier match at `i` first. */
  lemma {:induction false} ScanFindsPastHit(kind: Kind, line: string, i: nat, m1: Match, m: Match) returns (k: nat)
    requires IsMatch(kind, line, m1) && m1.start == i < |line|
    requires Scan(kind, line, i) == [m1] + Scan(kind, line, m1.end)
    requires IsMatch(kind, line, m) && i < m.start
    ensures k < |Scan(kind, line, i)| && Scan(kind, line, i)[k].start == m.start
    decreases |line| - i, 0
  {
    NoMatchStartsInside(kind, kind, line, m1, m);
    var rest := Scan(kind, line, m1.end);
    var k' := ScanFindsEveryMatch(kind, line, m1.end, m);
    k := k' + 1;
    assert Scan(kind, line, i)[k] == rest[k'];
  }

  function ToPattern(kind: Kind, line: string, m: Match): JinjaPattern
    requires IsMatch(kind, line, m)
  {
    JinjaPattern(line[m.start..m.end], line[m.nameStart..m.nameEnd])
  }

  predicate WellShaped(kind: Kind, line: string, p: JinjaPattern) {
    && "{{" <= p.text && EndsWith(p.text, "}}") && Contains(line, p.text)
    && (kind == Plain <==> IsIdentifier(p.name))
    && (kind == Transform ==> '.' in p.name)
  }

  lemma PatternShape(kind: Kind, line: string, m: Match)
    requires IsMatch(kind, line, m)
    ensures WellShaped(kind, line, ToPattern(kind, line, m))
  {
    var p := ToPattern(kind, line, m);
    assert p.text[0] == '{' && p.text[1] == '{';
    assert p.text[|p.text| - 2..] == "}}";
    assert OccursAt(line, p.text, m.start);
    ContainsAt(line, p.text, m.start);
    NameShape(kind, line, m);
  }

  lemma NameShape(kind: Kind, line: string, m: Match)
    requires IsMatch(kind, line, m)
    ensures var name := line[m.nameStart..m.nameEnd];
            (kind == Plain <==> IsIdentifier(name)) && (kind == Transform ==> '.' in name)
  {
    var name := line[m.nameStart..m.nameEnd];
    if kind == Plain {
      forall k | 1 <= k < |name| ensures IsIdentChar(name[k]) {
        AllInAt(line, m.nameStart + 1, m.identEnd, Ident, m.nameStart + k);
      }
    } else {
      assert name[m.identEnd - m.nameStart] == '.';
    }
  }

  /** The `(pattern, name)` pairs of a run of `finditer` matches. */
  function Patterns(kind: Kind, line: string, ms: seq<Match>): (ps: seq<JinjaPattern>)
    requires forall k :: 0 <= k < |ms| ==> IsMatch(kind, line, ms[k])
    ensures |ps| == |ms|
    ensures forall k :: 0 <= k < |ms| ==> ps[k] == ToPattern(kind, line, ms[k])
  {
    if ms == [] then [] else [ToPattern(kind, line, ms[0])] + Patterns(kind, line, ms[1..])
  }

  lemma PatternsShape(kind: Kind, line: string, ms: seq<Match>)
    requires forall k :: 0 <= k < |ms| ==> IsMatch(kind, line, ms[k])
    ensures forall k :: 0 <= k < |ms| ==> WellShaped(kind, line, Patterns(kind, line, ms)[k])
  {
    forall k | 0 <= k < |ms| ensures WellShaped(kind, line, Patterns(kind, line, ms)[k]) {
      PatternShape(kind, line, ms[k]);
    }
  }

  /** The plain `{{ name }}` matches of the line, which `find_simple_jinja_patterns` lists first. */
  function PlainPatterns(line: string): seq<JinjaPattern> {
    ScanMatches(Plain, line, 0);
    Patterns(Plain, line, Scan(Plain, line, 0))
  }

  function TransformPatterns(line: string): seq<JinjaPattern> {
    ScanMatches(Transform, line, 0);
    Patterns(Transform, line, Scan(Transform, line, 0))
  }

  lemma NoPatternIff(line: string)
    ensures (Scan(Plain, line, 0) == [] && Scan(Transform, line, 0) == [])
            <==> forall m :: !IsMatch(Plain, line, m) && !IsMatch(Transform, line, m)
  {
    forall m | IsMatch(Plain, line, m) || IsMatch(Transform, line, m)
      ensures Scan(Plain, line, 0) != [] || Scan(Transform, line, 0) != []
    {
      if IsMatch(Plain, line, m) {
        var k := ScanFindsEveryMatch(Plain, line, 0, m);
      } else {
        var k := ScanFindsEveryMatch(Transform, line, 0, m);
      }
    }
    ScanMatches(Plain, line, 0);
    ScanMatches(Transform, line, 0);
    if Scan(Plain, line, 0) != [] {
      assert IsMatch(Plain, line, Scan(Plain, line, 0)[0]);
    }
    if Scan(Transform, line, 0) != [] {
      assert IsMatch(Transform, line, Scan(Transform, line, 0)[0]);
    }
  }

  /**
   * `find_simple_jinja_patterns(line)`: every plain match, then every transform match.
   * Each pattern is a piece of the line that opens with `{{` and closes with `}}`; the
   * plain ones, and only they, are named by an identifier, and a transform's name holds
   * a dot.
   */
  function FindSimplePatterns(line: string): (r: seq<JinjaPattern>)
    ensures forall k :: 0 <= k < |r| ==>
              WellShaped(if k < |PlainPatterns(line)| then Plain else Transform, line, r[k])
  {
    var plain, transform := PlainPatterns(line), TransformPatterns(line);
    FindShapes(line);
    plain + transform
  }

  /** The list is empty exactly when neither expression matches anywhere in the line. */
  lemma NoPatternsIff(line: string)
    ensures FindSimplePatterns(line) == [] <==> forall m :: !IsMatch(Plain, line, m) && !IsMatch(Transform, line, m)
  {
    NoPatternIff(line);
  }

  lemma FindShapes(line: string)
    ensures var plain, transform := PlainPatterns(line), TransformPatterns(line);
            forall k :: 0 <= k < |plain + transform| ==>
              WellShaped(if k < |plain| then Plain else Transform, line, (plain + transform)[k])
  {
    ScanMatches(Plain, line, 0);
    ScanMatches(Transform, line, 0);
    PatternsShape(Plain, line, Scan(Plain, line, 0));
    PatternsShape(Transform, line, Scan(Transform, line, 0));
    ConcatShapes(line, PlainPatterns(line), TransformPatterns(line));
  }

  lemma ConcatShapes(line: string, plain: seq<JinjaPattern>, transform: seq<JinjaPattern>)
    requires forall k :: 0 <= k < |plain| ==> WellShaped(Plain, line, plain[k])
    requires forall k :: 0 <= k < |transform| ==> WellShaped(Transform, line, transform[k])
    ensures var r := plain + transform;
            forall k :: 0 <= k < |r| ==> WellShaped(if k < |plain| then Plain else Transform, line, r[k])
  {
    var r := plain + transform;
    forall k | 0 <= k < |r|
      ensures WellShaped(if k < |plain| then Plain else Transform, line, r[k])
    {
      if k < |plain| {
        assert r[k] == plain[k];
      } else {
        assert r[k] == transform[k - |plain|];
      }
    }
  }

  /** Every plain `{{ name }}` occurrence in the line is reported with its exact text and name. */
  lemma EveryPlainMatchReported(line: string, m: Match)
    requires IsMatch(Plain, line, m)
    ensures ToPattern(Plain, line, m) in FindSimplePatterns(line)
  {
    var k := ScanFindsEveryMatch(Plain, line, 0, m);
    MatchAtComplete(Plain, line, m);
    ScanMatches(Plain, line, 0);
    assert Scan(Plain, line, 0)[k] == m;
    assert FindSimplePatterns(line)[k] == ToPattern(Plain, line, m);
  }
}
