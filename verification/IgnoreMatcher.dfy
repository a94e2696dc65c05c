/**
 Matching of ignore patterns against paths (helpers/ignore.go).

 `filepath.Match` appears as a parameter: `g(pattern, part)` holds when it reports a match without error.
 Paths use forward slashes.
 */
module IgnoreMatcher {
  import opened Strings
  import opened Wrappers

  type Glob = (string, string) -> bool

  datatype Pattern = Pattern(text: string, negation: bool, dirOnly: bool)

  // ---- Parsing and loading patterns

  /** The pattern on a line, if there is one: blank lines and comments have none. */
  function ParsePattern(line: string): (r: Option<Pattern>)
    ensures r.Some? ==> r.value.text != "" && Trimmed(r.value.text)
  {
    var line1 := TrimSpace(line);
    if line1 == "" || "#" <= line1 then None else
    var negation := "!" <= line1;
    var line2 := if negation then TrimSpace(TrimPrefix(line1, "!")) else line1;
    if line2 == "" then None else
    ParseDirectory(negation, line2)
  }

  /** What is left of a line behind a negation mark: a trailing slash restricts the pattern to directories. */
  function ParseDirectory(negation: bool, line: string): (r: Option<Pattern>)
    requires Trimmed(line)
    ensures r.Some? ==> r.value.text != "" && Trimmed(r.value.text)
  {
    var dirOnly := HasSuffix(line, "/");
    var rest := if dirOnly then TrimSpace(TrimSuffix(line, "/")) else line;
    if rest == "" then None else Some(Pattern(rest, negation, dirOnly))
  }

  /** The patterns of the lines that have one, in order. */
  function Parsed(lines: seq<string>): seq<Pattern> {
    if lines == [] then []
    else
      var before := Parsed(lines[..|lines| - 1]);
      match ParsePattern(lines[|lines| - 1])
      case None => before
      case Some(p) => before + [p]
  }

  lemma ParsedSnoc(lines: seq<string>, i: nat)
    requires i < |lines|
    ensures Parsed(lines[..i + 1]) ==
      Parsed(lines[..i]) + (if ParsePattern(lines[i]).Some? then [ParsePattern(lines[i]).value] else [])
  {
    assert lines[..i + 1][..i] == lines[..i];
  }

  /** What reading `.epinioignore` comes to. */
  datatype IgnoreFile = NotThere | OpenFails | Content(lines: seq<string>, readFails: bool)

  /** The loop over the lines of a source of patterns. */
  method ReadPatterns(lines: seq<string>) returns (found: seq<Pattern>)
    ensures found == Parsed(lines)
  {
    found := [];
    for i := 0 to |lines|
      invariant found == Parsed(lines[..i])
    {
      var parsed := ParsePattern(lines[i]);
      ParsedSnoc(lines, i);
      if parsed.Some? {
        found := found + [parsed.value];
      }
    }
    assert lines[..|lines|] == lines;
  }

  /** Manifest patterns come first, those of the file after them. */
  method LoadIgnoreMatcher(manifest: seq<string>, file: IgnoreFile) returns (patterns: Result<seq<Pattern>>)
    ensures patterns.Err? <==> file.OpenFails? || (file.Content? && file.readFails)
    ensures patterns.Ok? ==> patterns.value == Parsed(manifest) + (if file.Content? then Parsed(file.lines) else [])
  {
    var found := ReadPatterns(manifest);
    match file
    case NotThere => return Ok(found);
    case OpenFails => return Err;
    case Content(lines, readFails) =>
      var more := ReadPatterns(lines);
      return if readFails then Err else Ok(found + more);
  }

  // ---- What it means for a pattern to match

  /** The pattern's parts match the parts of the path one by one, from position `at` on. */
  predicate Fits(g: Glob, pattern: seq<string>, path: seq<string>, at: nat) {
    at + |pattern| <= |path| && forall j :: 0 <= j < |pattern| ==> g(pattern[j], path[at + j])
  }

  ghost predicate FitsAnywhere(g: Glob, pattern: seq<string>, path: seq<string>) {
    exists at: nat :: Fits(g, pattern, path, at)
  }

  function PartGlob(g: Glob): Glob {
    (p, x) => p == x || g(p, x)
  }

  predicate AtStart(g: Glob, pattern: string, path: string) {
    pattern == path || pattern + "/" <= path || g(pattern, path) || g(pattern, Split(path, "/")[0])
  }

  ghost predicate Anywhere(g: Glob, pattern: string, path: string) {
    pattern == path || FitsAnywhere(g, Split(pattern, "/"), Split(path, "/"))
  }

  /** In-order, non-overlapping positions of the segments in the path, the first at or after `from`. */
  ghost predicate Placed(g: Glob, segs: seq<seq<string>>, path: seq<string>, from: nat, pos: seq<nat>) {
    && |pos| == |segs|
    && (forall i :: 0 <= i < |segs| ==> Fits(g, segs[i], path, pos[i]))
    && (forall i :: 0 <= i < |segs| ==> pos[i] >= Behind(segs, from, pos, i))
  }

  /** The first position a segment can take, given those of the segments before it. */
  function Behind(segs: seq<seq<string>>, from: nat, pos: seq<nat>, i: nat): nat
    requires i < |segs| == |pos|
  {
    if i == 0 then from else pos[i - 1] + |segs[i - 1]|
  }

  ghost predicate Placeable(g: Glob, segs: seq<seq<string>>, path: seq<string>, from: nat) {
    exists pos: seq<nat> :: Placed(g, segs, path, from, pos)
  }

  predicate IsSlash(c: char) {
    c == '/'
  }

  function TrimSlashes(s: string): string {
    TrimRight(TrimLeft(s, IsSlash), IsSlash)
  }

  function NonEmptySegments(segments: seq<string>): seq<string> {
    if segments == [] then []
    else
      var before := NonEmptySegments(segments[..|segments| - 1]);
      var seg := TrimSlashes(segments[|segments| - 1]);
      if seg == "" then before else before + [seg]
  }

  function SplitAll(segments: seq<string>): (r: seq<seq<string>>)
    ensures |r| == |segments| && forall i :: 0 <= i < |r| ==> r[i] == Split(segments[i], "/") && |r[i]| >= 1
  {
    seq(|segments|, i requires 0 <= i < |segments| => Split(segments[i], "/"))
  }

  ghost predicate DoubleStar(g: Glob, segments: seq<string>, path: string) {
    Placeable(g, SplitAll(NonEmptySegments(segments)), Split(path, "/"), 0)
  }

  ghost predicate GlobPattern(g: Glob, pattern: string, path: string) {
    var segments := Split(pattern, "**");
    if |segments| == 1 then Anywhere(g, pattern, path)
    else if "**/" <= pattern then Anywhere(g, TrimPrefix(pattern, "**/"), path)
    else if HasSuffix(pattern, "/**") then
      TrimSuffix(pattern, "/**") + "/" <= path || path == TrimSuffix(pattern, "/**")
    else DoubleStar(g, segments, path)
  }

  ghost predicate Matches(g: Glob, p: Pattern, path: string, isDir: bool) {
    && (p.dirOnly ==> isDir)
    && if "/" <= p.text then AtStart(g, TrimPrefix(p.text, "/"), path)
       else if Contains(p.text, "**") then GlobPattern(g, p.text, path)
       else FitsAnywhere(PartGlob(g), Split(p.text, "/"), Split(path, "/"))
  }

  /** The last pattern that matches, if any, is no negation. */
  ghost predicate LastMatchIgnores(g: Glob, patterns: seq<Pattern>, path: string, isDir: bool) {
    exists k :: 0 <= k < |patterns| && Matches(g, patterns[k], path, isDir) && !patterns[k].negation
      && forall j :: k < j < |patterns| ==> !Matches(g, patterns[j], path, isDir)
  }

  /** The path relative to the base directory is ignored; None stands for a path that cannot be made relative. */
  ghost predicate Ignored(g: Glob, patterns: seq<Pattern>, rel: Option<string>, isDir: bool) {
    rel.Some? && rel.value != "." && rel.value != "" && LastMatchIgnores(g, patterns, rel.value, isDir)
  }

  // ---- Placing segments

  /** The first segment can stand at `p`, with the others behind it. */
  ghost predicate FirstAt(g: Glob, segs: seq<seq<string>>, path: seq<string>, p: nat)
    requires segs != []
  {
    Fits(g, segs[0], path, p) && Placeable(g, segs[1..], path, p + |segs[0]|)
  }

  lemma PlaceFirst(g: Glob, segs: seq<seq<string>>, path: seq<string>, from: nat) returns (p: nat)
    requires segs != [] && Placeable(g, segs, path, from)
    ensures p >= from && FirstAt(g, segs, path, p)
  {
    var pos: seq<nat> :| Placed(g, segs, path, from, pos);
    p := pos[0];
    assert p >= Behind(segs, from, pos, 0);
    var rest: seq<nat> := pos[1..];
    forall i | 0 <= i < |segs[1..]|
      ensures Fits(g, segs[1..][i], path, rest[i])
      ensures rest[i] >= Behind(segs[1..], p + |segs[0]|, rest, i)
    {
      assert rest[i] == pos[i + 1] && segs[1..][i] == segs[i + 1];
      assert pos[i + 1] >= Behind(segs, from, pos, i + 1);
    }
    assert Placed(g, segs[1..], path, p + |segs[0]|, rest);
  }

  lemma BehindCons(segs: seq<seq<string>>, from: nat, p: nat, rest: seq<nat>, i: nat)
    requires |segs| == |rest| + 1 && 0 < i < |segs|
    ensures Behind(segs, from, [p] + rest, i) == Behind(segs[1..], p + |segs[0]|, rest, i - 1)
  {
  }

  lemma PlaceBehind(g: Glob, segs: seq<seq<string>>, path: seq<string>, from: nat, p: nat)
    requires segs != [] && p >= from && FirstAt(g, segs, path, p)
    ensures Placeable(g, segs, path, from)
  {
    var rest: seq<nat> :| Placed(g, segs[1..], path, p + |segs[0]|, rest);
    var pos := [p] + rest;
    forall i | 0 <= i < |segs| ensures Fits(g, segs[i], path, pos[i]) && pos[i] >= Behind(segs, from, pos, i) {
      if i > 0 {
        assert Fits(g, segs[1..][i - 1], path, rest[i - 1]);
        BehindCons(segs, from, p, rest, i);
      }
    }
    assert Placed(g, segs, path, from, pos);
  }

  lemma NothingToPlace(g: Glob, path: seq<string>, from: nat)
    ensures Placeable(g, [], path, from)
  {
    assert Placed(g, [], path, from, []);
  }

  /** An earlier start only helps. */
  lemma PlaceableEarlier(g: Glob, segs: seq<seq<string>>, path: seq<string>, from: nat, earlier: nat)
    requires Placeable(g, segs, path, from) && earlier <= from
    ensures Placeable(g, segs, path, earlier)
  {
    var pos: seq<nat> :| Placed(g, segs, path, from, pos);
    assert forall i :: 0 <= i < |segs| ==> pos[i] >= Behind(segs, from, pos, i) >= Behind(segs, earlier, pos, i);
    assert Placed(g, segs, path, earlier, pos);
  }

  /** The leftmost position of a segment at or after `from`. */
  function Leftmost(g: Glob, seg: seq<string>, path: seq<string>, from: nat): (r: Option<nat>)
    ensures r.Some? ==> r.value >= from && Fits(g, seg, path, r.value)
    ensures forall p :: from <= p && (r.Some? ==> p < r.value) ==> !Fits(g, seg, path, p)
    decreases |path| - from
  {
    if from + |seg| > |path| then None
    else if Fits(g, seg, path, from) then Some(from)
    else if from == |path| then None
    else Leftmost(g, seg, path, from + 1)
  }

  /** One pass without backtracking: every segment goes to its leftmost position behind the one before. */
  predicate Greedy(g: Glob, segs: seq<seq<string>>, path: seq<string>, from: nat)
    decreases segs
  {
    segs == [] ||
    match Leftmost(g, segs[0], path, from)
    case None => false
    case Some(p) => Greedy(g, segs[1..], path, p + |segs[0]|)
  }

  /** Backtracking is unnecessary: segments can be placed at all exactly when the greedy pass places them. */
  lemma {:induction false} GreedyPlaces(g: Glob, segs: seq<seq<string>>, path: seq<string>, from: nat)
    ensures Greedy(g, segs, path, from) <==> Placeable(g, segs, path, from)
    decreases segs
  {
    if segs == [] {
      NothingToPlace(g, path, from);
    } else {
      match Leftmost(g, segs[0], path, from)
      case None =>
        if Placeable(g, segs, path, from) {
          var p := PlaceFirst(g, segs, path, from);
        }
      case Some(first) =>
        GreedyPlaces(g, segs[1..], path, first + |segs[0]|);
        if Placeable(g, segs, path, from) {
          var p := PlaceFirst(g, segs, path, from);
          PlaceableEarlier(g, segs[1..], path, p + |segs[0]|, first + |segs[0]|);
        }
        if Placeable(g, segs[1..], path, first + |segs[0]|) {
          PlaceBehind(g, segs, path, from, first);
        }
    }
  }

  // ---- The matcher as the source performs it

  /** The backtracking search finds exactly what can be placed. */
  method MatchSegmentsRecursive(g: Glob, segments: seq<string>, segIndex: nat, pathParts: seq<string>, pathIndex: nat)
    returns (found: bool)
    requires segIndex <= |segments|
    ensures found <==> Placeable(g, SplitAll(segments)[segIndex..], pathParts, pathIndex)
    decreases |segments| - segIndex
  {
    ghost var segs := SplitAll(segments)[segIndex..];
    if segIndex >= |segments| {
      assert segs == [];
      NothingToPlace(g, pathParts, pathIndex);
      return true;
    }
    if pathIndex >= |pathParts| {
      NotPlaceable(g, segs, pathParts, pathIndex);
      return false;
    }
    var segmentParts := Split(segments[segIndex], "/");
    assert segs[0] == segmentParts;
    assert segs[1..] == SplitAll(segments)[segIndex + 1..];
    var isLastSegment := segIndex == |segments| - 1;
    var start := pathIndex;
    while start <= |pathParts|
      invariant pathIndex <= start
      invariant forall p :: pathIndex <= p < start ==> !FirstAt(g, segs, pathParts, p)
    {
      if isLastSegment && |segmentParts| == 1 {
        found := MatchLastPart(g, segmentParts, pathParts, start);
        LastSegment(g, segs, pathParts, pathIndex, start);
        return;
      }
      if start + |segmentParts| <= |pathParts| {
        var fits := PartsFit(g, segmentParts, pathParts, start);
        if fits {
          var restFound := MatchSegmentsRecursive(g, segments, segIndex + 1, pathParts, start + |segmentParts|);
          if restFound {
            PlaceBehind(g, segs, pathParts, pathIndex, start);
            return true;
          }
        }
      }
      start := start + 1;
    }
    NotPlaceable(g, segs, pathParts, pathIndex);
    return false;
  }

  lemma NotPlaceable(g: Glob, segs: seq<seq<string>>, path: seq<string>, from: nat)
    requires segs != [] && |segs[0]| >= 1
    requires forall p :: from <= p <= |path| ==> !FirstAt(g, segs, path, p)
    ensures !Placeable(g, segs, path, from)
  {
    if Placeable(g, segs, path, from) {
      var p := PlaceFirst(g, segs, path, from);
    }
  }

  /** With one segment left, a position at or after `start` is as good as any, none before it having fitted. */
  lemma LastSegment(g: Glob, segs: seq<seq<string>>, path: seq<string>, from: nat, start: nat)
    requires |segs| == 1 && from <= start
    requires forall p :: from <= p < start ==> !FirstAt(g, segs, path, p)
    ensures Placeable(g, segs, path, from) <==> exists p :: p >= start && Fits(g, segs[0], path, p)
  {
    if Placeable(g, segs, path, from) {
      var p := PlaceFirst(g, segs, path, from);
    }
    if p :| p >= start && Fits(g, segs[0], path, p) {
      NothingToPlace(g, path, p + |segs[0]|);
      assert segs[1..] == [];
      PlaceBehind(g, segs, path, from, p);
    }
  }

  /** The shortcut for a last segment of a single part. */
  method MatchLastPart(g: Glob, segmentParts: seq<string>, pathParts: seq<string>, start: nat) returns (found: bool)
    requires |segmentParts| == 1
    ensures found <==> exists p :: p >= start && Fits(g, segmentParts, pathParts, p)
    ensures found <==> exists p :: start <= p < |pathParts| && g(segmentParts[0], pathParts[p])
  {
    var i := start;
    while i < |pathParts|
      invariant start <= i
      invariant forall p :: start <= p < i ==> !Fits(g, segmentParts, pathParts, p)
      invariant forall p :: start <= p < i && p < |pathParts| ==> !g(segmentParts[0], pathParts[p])
    {
      if g(segmentParts[0], pathParts[i]) {
        assert Fits(g, segmentParts, pathParts, i);
        return true;
      }
      i := i + 1;
    }
    return false;
  }

  method PartsFit(g: Glob, pattern: seq<string>, path: seq<string>, at: nat) returns (fits: bool)
    requires at + |pattern| <= |path|
    ensures fits == Fits(g, pattern, path, at)
    ensures fits <==> forall j :: 0 <= j < |pattern| ==> g(pattern[j], path[at + j])
  {
    for j := 0 to |pattern|
      invariant forall k :: 0 <= k < j ==> g(pattern[k], path[at + k])
    {
      if !g(pattern[j], path[at + j]) {
        return false;
      }
    }
    return true;
  }

  method MatchWithDoubleStar(g: Glob, segments: seq<string>, path: string) returns (matched: bool)
    ensures matched <==> DoubleStar(g, segments, path)
    ensures matched == Greedy(g, SplitAll(NonEmptySegments(segments)), Split(path, "/"), 0)
  {
    var pathParts := Split(path, "/");
    GreedyPlaces(g, SplitAll(NonEmptySegments(segments)), pathParts, 0);
    var nonEmpty := [];
    for i := 0 to |segments|
      invariant nonEmpty == NonEmptySegments(segments[..i])
    {
      var seg := TrimSlashes(segments[i]);
      assert segments[..i + 1][..i] == segments[..i];
      if seg != "" {
        nonEmpty := nonEmpty + [seg];
      }
    }
    assert segments[..|segments|] == segments;
    assert SplitAll(nonEmpty)[0..] == SplitAll(nonEmpty);
    if |nonEmpty| == 0 {
      NothingToPlace(g, pathParts, 0);
      return true;
    }
    matched := MatchSegmentsRecursive(g, nonEmpty, 0, pathParts, 0);
  }

  /** Both the loop over single parts and the loop over windows look for a position where the parts fit. */
  method MatchPartsAnywhere(g: Glob, patternParts: seq<string>, pathParts: seq<string>) returns (matched: bool)
    requires |patternParts| >= 1
    ensures matched <==> FitsAnywhere(g, patternParts, pathParts)
  {
    if |patternParts| == 1 {
      matched := MatchLastPart(g, patternParts, pathParts, 0);
      return;
    }
    var i := 0;
    while i <= |pathParts| - |patternParts|
      invariant 0 <= i
      invariant forall p: nat :: p < i ==> !Fits(g, patternParts, pathParts, p)
    {
      var fits := PartsFit(g, patternParts, pathParts, i);
      if fits {
        return true;
      }
      i := i + 1;
    }
    return false;
  }

  method MatchPatternAnywhere(g: Glob, pattern: string, path: string) returns (matched: bool)
    ensures matched <==> Anywhere(g, pattern, path)
  {
    if pattern == path {
      return true;
    }
    matched := MatchPartsAnywhere(g, Split(pattern, "/"), Split(path, "/"));
  }

  method MatchGlobPattern(g: Glob, pattern: string, path: string) returns (matched: bool)
    ensures matched <==> GlobPattern(g, pattern, path)
  {
    var segments := Split(pattern, "**");
    if |segments| == 1 {
      matched := MatchPatternAnywhere(g, pattern, path);
    } else if "**/" <= pattern {
      matched := MatchPatternAnywhere(g, TrimPrefix(pattern, "**/"), path);
    } else if HasSuffix(pattern, "/**") {
      var prefix := TrimSuffix(pattern, "/**");
      matched := prefix + "/" <= path || path == prefix;
    } else {
      matched := MatchWithDoubleStar(g, segments, path);
    }
  }

  method MatchesPattern(g: Glob, p: Pattern, path: string, isDir: bool) returns (matched: bool)
    ensures matched <==> Matches(g, p, path, isDir)
  {
    if p.dirOnly && !isDir {
      return false;
    }
    if "/" <= p.text {
      return AtStart(g, TrimPrefix(p.text, "/"), path);
    }
    if Contains(p.text, "**") {
      matched := MatchGlobPattern(g, p.text, path);
      return;
    }
    matched := MatchPartsAnywhere(PartGlob(g), Split(p.text, "/"), Split(path, "/"));
  }

  /** The loop with two flags decides by the last matching pattern alone. */
  method ShouldIgnore(g: Glob, patterns: seq<Pattern>, rel: Option<string>, isDir: bool) returns (ignored: bool)
    ensures ignored <==> Ignored(g, patterns, rel, isDir)
    ensures rel == None || rel == Some("") || rel == Some(".") ==> !ignored
    ensures rel.Some? && rel.value != "" && rel.value != "." ==>
      (ignored <==> LastMatchIgnores(g, patterns, rel.value, isDir))
  {
    if rel.None? || rel.value == "." || rel.value == "" {
      return false;
    }
    ignored := false;
    var matchedByNonNegation := false;
    for i := 0 to |patterns|
      invariant matchedByNonNegation == ignored
      invariant ignored <==> LastMatchIgnores(g, patterns[..i], rel.value, isDir)
    {
      var matched := MatchesPattern(g, patterns[i], rel.value, isDir);
      OnePatternMore(g, patterns[..i], patterns[i], rel.value, isDir);
      assert patterns[..i + 1] == patterns[..i] + [patterns[i]];
      if matched {
        if patterns[i].negation {
          if matchedByNonNegation {
            ignored := false;
            matchedByNonNegation := false;
          }
        } else {
          ignored := true;
          matchedByNonNegation := true;
        }
      }
    }
    assert patterns[..|patterns|] == patterns;
  }

  lemma OnePatternMore(g: Glob, patterns: seq<Pattern>, p: Pattern, path: string, isDir: bool)
    ensures LastMatchIgnores(g, patterns + [p], path, isDir) <==>
      if Matches(g, p, path, isDir) then !p.negation else LastMatchIgnores(g, patterns, path, isDir)
  {
    var all := patterns + [p];
    assert all[|patterns|] == p && forall k :: 0 <= k < |patterns| ==> all[k] == patterns[k];
    if Matches(g, p, path, isDir) && !p.negation {
      assert Matches(g, all[|patterns|], path, isDir);
    }
    if !Matches(g, p, path, isDir) && LastMatchIgnores(g, patterns, path, isDir) {
      var k :| 0 <= k < |patterns| && Matches(g, patterns[k], path, isDir) && !patterns[k].negation
        && forall j :: k < j < |patterns| ==> !Matches(g, patterns[j], path, isDir);
      assert Matches(g, all[k], path, isDir) && !all[k].negation;
    }
  }
}
