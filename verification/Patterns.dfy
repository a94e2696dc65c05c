/**
 What ignore patterns mean, told by their text: how a line is read, and which paths each kind of pattern matches
 (helpers/ignore.go).
 */
module Patterns {
  import opened IgnoreMatcher
  import opened Picking
  import opened Strings
  import opened Wrappers

  // ---- Reading lines

  ghost predicate Blank(s: string) {
    forall c :: c in s ==> IsSpace(c)
  }

  lemma {:induction false} TrimSpacePadded(before: string, s: string, after: string)
    requires Blank(before) && Blank(after) && Trimmed(s)
    ensures TrimSpace(before + s + after) == s
    decreases |before| + |after|
  {
    if before != "" {
      assert before[0] in before && forall c :: c in before[1..] ==> c in before;
      assert before + s + after == [before[0]] + (before[1..] + s + after);
      TrimSpacePadded(before[1..], s, after);
      TrimPadded(before[1..] + s + after, before[0]);
    } else if after != "" {
      var n := |after| - 1;
      assert after[n] in after && forall c :: c in after[..n] ==> c in after;
      assert before + s + after == (before + s + after[..n]) + [after[n]];
      TrimSpacePadded(before, s, after[..n]);
      TrimPadded(before + s + after[..n], after[n]);
    } else {
      assert before + s + after == s;
      TrimSpaceOfTrimmed(s);
    }
  }

  /** A pattern as a line may have it: white space at both ends, behind the negation mark, and before the slash. */
  function Written(p: Pattern, indent: string, gap: string, tail: string, trail: string): string {
    indent + (if p.negation then "!" + gap else "") + (p.text + (if p.dirOnly then tail + "/" else "")) + trail
  }

  /** A pattern is read back from every way of writing it. */
  lemma ParseOfWritten(p: Pattern, indent: string, gap: string, tail: string, trail: string)
    requires p.text != "" && Trimmed(p.text) && Blank(indent) && Blank(gap) && Blank(tail) && Blank(trail)
    requires !p.negation ==> p.text[0] != '#' && p.text[0] != '!'
    requires !p.dirOnly ==> p.text[|p.text| - 1] != '/'
    ensures ParsePattern(Written(p, indent, gap, tail, trail)) == Some(p)
  {
    var unmarked := Unmarked(p, tail);
    var marked := (if p.negation then "!" + gap else "") + unmarked;
    assert unmarked[0] == p.text[0];
    assert marked[0] == (if p.negation then '!' else p.text[0]) && marked[|marked| - 1] == unmarked[|unmarked| - 1];
    assert Written(p, indent, gap, tail, trail) == indent + marked + trail;
    TrimSpacePadded(indent, marked, trail);
    ReadMark(p.negation, gap, unmarked, indent + marked + trail);
    ReadDirectory(p, tail);
  }

  /** What comes behind the negation mark. */
  function Unmarked(p: Pattern, tail: string): (r: string)
    requires p.text != "" && Trimmed(p.text)
    ensures r != "" && Trimmed(r)
  {
    p.text + (if p.dirOnly then tail + "/" else "")
  }

  lemma ReadMark(negation: bool, gap: string, unmarked: string, line: string)
    requires unmarked != "" && Trimmed(unmarked) && Blank(gap) && (!negation ==> unmarked[0] != '!' && unmarked[0] != '#')
    requires TrimSpace(line) == (if negation then "!" + gap else "") + unmarked
    ensures ParsePattern(line) == ParseDirectory(negation, unmarked)
  {
    if negation {
      ReadNegated(gap, unmarked, line);
    } else {
      assert "" + unmarked == unmarked;
    }
  }

  lemma ReadNegated(gap: string, unmarked: string, line: string)
    requires unmarked != "" && Trimmed(unmarked) && Blank(gap) && TrimSpace(line) == "!" + gap + unmarked
    ensures ParsePattern(line) == ParseDirectory(true, unmarked)
  {
    var marked := "!" + gap + unmarked;
    assert marked[0] == '!' && TrimPrefix(marked, "!") == gap + unmarked + "";
    TrimSpacePadded(gap, unmarked, "");
  }

  lemma ReadDirectory(p: Pattern, tail: string)
    requires p.text != "" && Trimmed(p.text) && Blank(tail) && (!p.dirOnly ==> p.text[|p.text| - 1] != '/')
    ensures ParseDirectory(p.negation, Unmarked(p, tail)) == Some(p)
  {
    var unmarked := Unmarked(p, tail);
    assert unmarked[|unmarked| - 1..] == [unmarked[|unmarked| - 1]];
    if p.dirOnly {
      assert TrimSuffix(unmarked, "/") == "" + p.text + tail;
      TrimSpacePadded("", p.text, tail);
    } else {
      assert unmarked == p.text;
    }
  }

  /** A line has no pattern exactly when it is blank, a comment, or nothing but a negation mark and a slash. */
  lemma NoPatternIff(line: string)
    ensures var s := TrimSpace(line);
      ParsePattern(line).None? <==>
      || s == "" || s[0] == '#' || s == "/"
      || (s[0] == '!' && (TrimSpace(s[1..]) == "" || TrimSpace(s[1..]) == "/"))
  {
    var s := TrimSpace(line);
    if s != "" {
      assert ("#" <= s <==> s[0] == '#') && ("!" <= s <==> s[0] == '!');
      assert s[0] == '!' ==> TrimPrefix(s, "!") == s[1..];
      NoDirectoryIff(false, s);
      NoDirectoryIff(true, TrimSpace(s[1..]));
    }
  }

  lemma NoDirectoryIff(negation: bool, line: string)
    requires Trimmed(line)
    ensures ParseDirectory(negation, line).None? <==> line == "" || line == "/"
  {
    assert TrimSpace("") == "";
    if HasSuffix(line, "/") && |line| > 1 {
      NotBlank(TrimSuffix(line, "/"));
    } else if HasSuffix(line, "/") {
      assert line == "/";
    }
  }

  lemma NotBlank(s: string)
    requires s != "" && !IsSpace(s[0])
    ensures TrimSpace(s) != ""
  {
    var after := TrimRightMeans(s, IsSpace);
    assert s[0] in s && ("" + after == after);
  }

  /** The patterns of the lines that have one, in order. */
  lemma {:induction false} ParsedPicks(lines: seq<string>)
    ensures Parsed(lines) == Pick(ParsePattern, lines)
  {
    if lines != [] {
      ParsedPicks(lines[..|lines| - 1]);
    }
  }

  // ---- Splitting at the double stars

  lemma TrimSlashesMean(s: string) returns (before: string, after: string)
    ensures s == before + TrimSlashes(s) + after
    ensures (forall c :: c in before ==> c == '/') && (forall c :: c in after ==> c == '/')
    ensures TrimSlashes(s) != "" ==> TrimSlashes(s)[0] != '/' && TrimSlashes(s)[|TrimSlashes(s)| - 1] != '/'
  {
    before := TrimLeftMeans(s, IsSlash);
    after := TrimRightMeans(TrimLeft(s, IsSlash), IsSlash);
  }

  function SegmentPick(): string -> Option<string> {
    s => if TrimSlashes(s) != "" then Some(TrimSlashes(s)) else None
  }

  lemma {:induction false} NonEmptySegmentsPick(segments: seq<string>)
    ensures NonEmptySegments(segments) == Pick(SegmentPick(), segments)
  {
    if segments != [] {
      NonEmptySegmentsPick(segments[..|segments| - 1]);
    }
  }

  /** Some names with slashes between them, as they may stand between double stars. */
  ghost predicate Segment(s: string) {
    s != "" && s[0] != '/' && s[|s| - 1] != '/' && forall i: nat :: !OccursAt(s, "**", i)
  }

  ghost predicate StarFree(s: string) {
    forall i: nat :: !OccursAt(s, "**", i)
  }

  lemma FirstStars(before: string, rest: string)
    requires StarFree(before) && (before != "" ==> before[|before| - 1] != '*')
    ensures Index(before + "**" + rest, "**") == Some(|before|)
  {
    var s := before + "**" + rest;
    IndexMeans(s, "**");
    assert OccursAt(s, "**", |before|);
    forall j: nat | j < |before| ensures !OccursAt(s, "**", j) {
      if j + 2 <= |before| {
        assert s[j..j + 2] == before[j..j + 2];
        assert !OccursAt(before, "**", j);
      } else {
        assert s[j..j + 2][0] == before[|before| - 1];
      }
    }
  }

  lemma {:induction false} SplitOfStars(parts: seq<string>)
    requires parts != [] && forall k :: 0 <= k < |parts| ==> StarFree(parts[k])
    requires forall k :: 0 <= k < |parts| - 1 ==> parts[k] != "" ==> parts[k][|parts[k]| - 1] != '*'
    ensures Split(Join(parts, "**"), "**") == parts
  {
    if |parts| == 1 {
      IndexMeans(parts[0], "**");
    } else {
      var rest := Join(parts[1..], "**");
      FirstStars(parts[0], rest);
      var s := parts[0] + "**" + rest;
      assert s[..|parts[0]|] == parts[0] && s[|parts[0]| + 2..] == rest;
      SplitOfStars(parts[1..]);
    }
  }

  /** The segments with the slashes that stand between them and the double stars. */
  function Padded(segs: seq<string>): seq<string> {
    seq(|segs|, i requires 0 <= i < |segs| =>
      (if i > 0 then "/" else "") + segs[i] + (if i < |segs| - 1 then "/" else ""))
  }

  lemma PaddedTail(segs: seq<string>)
    requires |segs| > 1
    ensures var rest := Padded(segs[1..]);
      Padded(segs)[1..] == rest[0 := "/" + rest[0]] && Padded(segs)[0] == segs[0] + "/"
  {
    var all, rest := Padded(segs), Padded(segs[1..]);
    var tail := if |segs| > 2 then "/" else "";
    assert all[1] == "/" + rest[0] by {
      assert rest[0] == "" + segs[1] + tail && all[1] == "/" + segs[1] + tail;
      assert "" + segs[1] == segs[1] && "/" + segs[1] + tail == "/" + (segs[1] + tail);
    }
    assert "" + segs[0] + "/" == segs[0] + "/";
    forall k | 1 < k < |segs| ensures all[k] == rest[k - 1] {
    }
  }

  lemma {:induction false} JoinOfPadded(segs: seq<string>)
    requires segs != []
    ensures Join(Padded(segs), "**") == Join(segs, "/**/")
  {
    if |segs| == 1 {
      assert Padded(segs) == ["" + segs[0] + ""];
      assert "" + segs[0] + "" == segs[0];
    } else {
      var rest := Padded(segs[1..]);
      JoinOfPadded(segs[1..]);
      JoinFirst(rest, "**", "/");
      PaddedTail(segs);
      assert segs[0] + "/" + "**" + ("/" + Join(segs[1..], "/**/")) == segs[0] + "/**/" + Join(segs[1..], "/**/");
    }
  }

  lemma PaddedStarFree(s: string, left: string, right: string)
    requires Segment(s) && left in ["", "/"] && right in ["", "/"]
    ensures StarFree(left + s + right)
  {
    var padded, at := left + s + right, |left|;
    assert padded[at..at + |s|] == s;
    forall i: nat ensures !OccursAt(padded, "**", i) {
      if i >= at && i + 2 <= at + |s| {
        assert padded[i..i + 2] == padded[at..at + |s|][i - at..i - at + 2];
        assert !OccursAt(s, "**", i - at);
      } else if i + 2 <= |padded| {
        assert padded[i..i + 2][0] == padded[i] && padded[i..i + 2][1] == padded[i + 1];
      }
    }
  }

  lemma TrimsLeft(tail: string, left: string)
    requires tail != "" && tail[0] != '/' && left in ["", "/"]
    ensures TrimLeft(left + tail, IsSlash) == tail
  {
    assert left == "/" ==> (left + tail)[1..] == tail;
    assert left == "" ==> left + tail == tail;
  }

  lemma TrimsRight(s: string, right: string)
    requires s != "" && s[|s| - 1] != '/' && right in ["", "/"]
    ensures TrimRight(s + right, IsSlash) == s
  {
    assert right == "/" ==> (s + right)[..|s|] == s;
    assert right == "" ==> s + right == s;
  }

  lemma PaddedTrims(s: string, left: string, right: string)
    requires Segment(s) && left in ["", "/"] && right in ["", "/"]
    ensures TrimSlashes(left + s + right) == s
  {
    assert left + s + right == left + (s + right);
    TrimsLeft(s + right, left);
    TrimsRight(s, right);
  }

  lemma {:induction false} PaddedTrim(segs: seq<string>, parts: seq<string>)
    requires |parts| == |segs| && forall k :: 0 <= k < |segs| ==> segs[k] != "" && TrimSlashes(parts[k]) == segs[k]
    ensures NonEmptySegments(parts) == segs
  {
    if segs != [] {
      var n := |segs| - 1;
      PaddedTrim(segs[..n], parts[..n]);
      assert segs == segs[..n] + [segs[n]];
    }
  }

  /** A pattern made of segments is split into just these. */
  lemma SegmentsOf(segs: seq<string>)
    requires |segs| >= 1 && forall k :: 0 <= k < |segs| ==> Segment(segs[k])
    ensures Split(Join(segs, "/**/"), "**") == Padded(segs)
    ensures NonEmptySegments(Split(Join(segs, "/**/"), "**")) == segs
  {
    var parts := Padded(segs);
    forall k | 0 <= k < |parts| ensures StarFree(parts[k]) && TrimSlashes(parts[k]) == segs[k] {
      PaddedStarFree(segs[k], if k > 0 then "/" else "", if k < |segs| - 1 then "/" else "");
      PaddedTrims(segs[k], if k > 0 then "/" else "", if k < |segs| - 1 then "/" else "");
    }
    SplitOfStars(parts);
    JoinOfPadded(segs);
    PaddedTrim(segs, parts);
  }

  // ---- What the kinds of patterns match

  /** A pattern with a slash in front matches from the start of the path on: the path itself, everything below it, and
      what the glob makes of the path or of its first name. */
  lemma RootedMeans(g: Glob, text: string, negation: bool, dirOnly: bool, path: string, isDir: bool)
    ensures Matches(g, Pattern("/" + text, negation, dirOnly), path, isDir) <==>
      (dirOnly ==> isDir) &&
      (text == path || text + "/" <= path || g(text, path) || g(text, Split(path, "/")[0]))
  {
    assert TrimPrefix("/" + text, "/") == text;
  }

  /** The names of the pattern are, or match, successive names of the path. */
  ghost predicate NamesAt(g: Glob, names: seq<string>, parts: seq<string>, at: nat) {
    at + |names| <= |parts| && forall k :: 0 <= k < |names| ==> names[k] == parts[at + k] || g(names[k], parts[at + k])
  }

  /** A pattern without double stars and without a slash in front matches successive names anywhere in the path. */
  lemma PlainMeans(g: Glob, text: string, negation: bool, dirOnly: bool, path: string, isDir: bool)
    requires StarFree(text) && !("/" <= text)
    ensures Matches(g, Pattern(text, negation, dirOnly), path, isDir) <==>
      (dirOnly ==> isDir) && exists at: nat :: NamesAt(g, Split(text, "/"), Split(path, "/"), at)
  {
    IndexMeans(text, "**");
    var names, parts := Split(text, "/"), Split(path, "/");
    if at: nat :| NamesAt(g, names, parts, at) {
      assert Fits(PartGlob(g), names, parts, at);
    }
    if at: nat :| Fits(PartGlob(g), names, parts, at) {
      assert NamesAt(g, names, parts, at);
      assert exists at: nat :: NamesAt(g, Split(text, "/"), Split(path, "/"), at);
    }
  }

  /** Behind a leading double star the pattern matches the whole path, or successive names anywhere in it. */
  lemma LeadingStarsMean(g: Glob, text: string, negation: bool, dirOnly: bool, path: string, isDir: bool)
    ensures Matches(g, Pattern("**/" + text, negation, dirOnly), path, isDir) <==>
      (dirOnly ==> isDir) && (text == path || FitsAnywhere(g, Split(text, "/"), Split(path, "/")))
  {
    var all := "**/" + text;
    assert all[0] == '*' && all[0..2] == "**" && !("/" <= all) && TrimPrefix(all, "**/") == text;
    HasStars(all, 0);
  }

  /** Before a trailing double star the pattern matches the path it says, and everything below it. */
  lemma TrailingStarsMean(g: Glob, text: string, negation: bool, dirOnly: bool, path: string, isDir: bool)
    requires !("/" <= text + "/**") && !("**/" <= text + "/**")
    ensures Matches(g, Pattern(text + "/**", negation, dirOnly), path, isDir) <==>
      (dirOnly ==> isDir) && (text + "/" <= path || text == path)
  {
    var all := text + "/**";
    SuffixMeans(text, "/**");
    HasStars(all, |text| + 1);
  }

  lemma HasStars(s: string, i: nat)
    requires OccursAt(s, "**", i)
    ensures Contains(s, "**") && |Split(s, "**")| > 1
  {
    IndexMeans(s, "**");
  }

  /** A pattern of double stars and slashes alone, and not ending in a slash and double stars, matches everything. */
  lemma StarsAlone(g: Glob, negation: bool, dirOnly: bool, path: string, isDir: bool)
    ensures Matches(g, Pattern("**", negation, dirOnly), path, isDir) <==> (dirOnly ==> isDir)
  {
    var text := "**";
    assert text[0] == '*' && OccursAt(text, "**", 0) && |text| == 2;
    SplitOfStars(["", ""]);
    assert Split(text, "**") == ["", ""] by {
      assert Join(["", ""], "**") == text;
    }
    NonEmptySegmentsPick(["", ""]);
    assert ["", ""][..1] == [""] && [""][..0] == [] && TrimSlashes("") == "";
    assert Pick(SegmentPick(), ["", ""]) == [] && SplitAll([]) == [];
    NothingToPlace(g, Split(path, "/"), 0);
    GeneralMeans(g, text, negation, dirOnly, path, isDir);
  }

  /** Any other pattern with double stars goes by the segments between them. */
  lemma GeneralMeans(g: Glob, text: string, negation: bool, dirOnly: bool, path: string, isDir: bool)
    requires !("/" <= text) && !("**/" <= text) && !HasSuffix(text, "/**") && exists i: nat :: OccursAt(text, "**", i)
    ensures Matches(g, Pattern(text, negation, dirOnly), path, isDir) <==>
      (dirOnly ==> isDir) &&
      Placeable(g, SplitAll(Pick(SegmentPick(), Split(text, "**"))), Split(path, "/"), 0)
  {
    var i: nat :| OccursAt(text, "**", i);
    HasStars(text, i);
    NonEmptySegmentsPick(Split(text, "**"));
  }

  lemma StartsWithSegment(s: string, rest: string)
    requires Segment(s)
    ensures var text := s + "/**/" + rest;
      !("/" <= text) && !("**/" <= text) && OccursAt(text, "**", |s| + 1)
  {
    var text := s + "/**/" + rest;
    assert text[0] == s[0] && text[..|s|] == s && text[|s|] == '/';
    assert text[|s| + 1..|s| + 3] == "**";
    if |s| >= 2 {
      assert s[0..2] == text[0..2];
      assert !OccursAt(s, "**", 0);
    }
    assert text[0..2] == [text[0], text[1]];
  }

  lemma SuffixStars(s: string)
    requires HasSuffix(s, "/**")
    ensures |s| >= 3 && s[|s| - 1] == '*' && s[|s| - 2] == '*'
  {
    var suffix := s[|s| - 3..];
    assert suffix[2] == s[|s| - 1] && suffix[1] == s[|s| - 2];
  }

  lemma NotTwoStars(s: string)
    requires StarFree(s) && |s| >= 2
    ensures s[|s| - 1] != '*' || s[|s| - 2] != '*'
  {
    assert !OccursAt(s, "**", |s| - 2);
    assert s[|s| - 2..|s|] == [s[|s| - 2], s[|s| - 1]];
  }

  lemma EndsInSegment(front: string, s: string)
    requires Segment(s)
    ensures !HasSuffix(front + "/**/" + s, "/**")
  {
    var text := front + "/**/" + s;
    assert text[|text| - 1] == s[|s| - 1];
    if |s| >= 2 {
      assert text[|text| - 2] == s[|s| - 2];
      NotTwoStars(s);
    } else {
      assert text[|text| - 2] == '/';
    }
    if HasSuffix(text, "/**") {
      SuffixStars(text);
    }
  }

  lemma {:induction false} JoinSplitsLast(parts: seq<string>, sep: string) returns (front: string)
    requires |parts| >= 2
    ensures Join(parts, sep) == front + sep + parts[|parts| - 1]
  {
    if |parts| == 2 {
      front := parts[0];
    } else {
      var rest := JoinSplitsLast(parts[1..], sep);
      front := parts[0] + sep + rest;
      assert parts[0] + sep + (rest + sep + parts[|parts| - 1]) == front + sep + parts[|parts| - 1];
    }
  }

  /** Each segment's names match successive names of the path, from its own place on and behind those of the segment
      before it. */
  ghost predicate InOrder(g: Glob, segs: seq<string>, parts: seq<string>, pos: seq<nat>) {
    && |pos| == |segs|
    && (forall i :: 0 <= i < |segs| ==> Fits(g, Split(segs[i], "/"), parts, pos[i]))
    && (forall i :: 0 < i < |segs| ==> pos[i - 1] + |Split(segs[i - 1], "/")| <= pos[i])
  }

  lemma PlacedIsInOrder(g: Glob, segs: seq<string>, parts: seq<string>)
    ensures Placeable(g, SplitAll(segs), parts, 0) <==> exists pos: seq<nat> :: InOrder(g, segs, parts, pos)
  {
    forall pos: seq<nat> | Placed(g, SplitAll(segs), parts, 0, pos) ensures InOrder(g, segs, parts, pos) {
      assert forall i :: 0 < i < |segs| ==> pos[i] >= Behind(SplitAll(segs), 0, pos, i);
    }
    forall pos: seq<nat> | InOrder(g, segs, parts, pos) ensures Placed(g, SplitAll(segs), parts, 0, pos) {
    }
  }

  /** A pattern of segments with double stars between them matches exactly when the names of the segments have in-order,
      non-overlapping places in the path. */
  lemma BetweenStarsMeans(g: Glob, segs: seq<string>, negation: bool, dirOnly: bool, path: string, isDir: bool)
    requires |segs| >= 2 && forall k :: 0 <= k < |segs| ==> Segment(segs[k])
    ensures Matches(g, Pattern(Join(segs, "/**/"), negation, dirOnly), path, isDir) <==>
      (dirOnly ==> isDir) && exists pos: seq<nat> :: InOrder(g, segs, Split(path, "/"), pos)
  {
    var text := Join(segs, "/**/");
    StartsWithSegment(segs[0], Join(segs[1..], "/**/"));
    var front := JoinSplitsLast(segs, "/**/");
    EndsInSegment(front, segs[|segs| - 1]);
    GeneralMeans(g, text, negation, dirOnly, path, isDir);
    SegmentsOf(segs);
    NonEmptySegmentsPick(Split(text, "**"));
    PlacedIsInOrder(g, segs, Split(path, "/"));
  }

  /** The one run of names has its place before the other's. */
  ghost predicate PairAt(g: Glob, ps: seq<string>, qs: seq<string>, parts: seq<string>, i: nat, j: nat) {
    Fits(g, ps, parts, i) && Fits(g, qs, parts, j) && i + |ps| <= j
  }

  lemma TwoInOrder(g: Glob, p: string, q: string, parts: seq<string>)
    ensures (exists pos: seq<nat> :: InOrder(g, [p, q], parts, pos)) <==>
      exists i: nat, j: nat :: PairAt(g, Split(p, "/"), Split(q, "/"), parts, i, j)
  {
    if pos: seq<nat> :| InOrder(g, [p, q], parts, pos) {
      assert Fits(g, Split([p, q][0], "/"), parts, pos[0]) && Fits(g, Split([p, q][1], "/"), parts, pos[1]);
      assert PairAt(g, Split(p, "/"), Split(q, "/"), parts, pos[0], pos[1]);
    }
    if i: nat, j: nat :| PairAt(g, Split(p, "/"), Split(q, "/"), parts, i, j) {
      var pos: seq<nat> := [i, j];
      assert Split([p, q][0], "/") == Split(p, "/") && Split([p, q][1], "/") == Split(q, "/");
      assert InOrder(g, [p, q], parts, pos);
    }
  }

  /** In particular with one double star between two segments. */
  lemma TwoSegmentsMean(g: Glob, p: string, q: string, negation: bool, dirOnly: bool, path: string, isDir: bool)
    requires Segment(p) && Segment(q)
    ensures Matches(g, Pattern(p + "/**/" + q, negation, dirOnly), path, isDir) <==>
      (dirOnly ==> isDir) && exists i: nat, j: nat :: PairAt(g, Split(p, "/"), Split(q, "/"), Split(path, "/"), i, j)
  {
    assert Join([p, q], "/**/") == p + "/**/" + q;
    BetweenStarsMeans(g, [p, q], negation, dirOnly, path, isDir);
    TwoInOrder(g, p, q, Split(path, "/"));
  }
}
