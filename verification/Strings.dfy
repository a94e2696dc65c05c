/** The parts of Go's `strings` package the model needs. */
module Strings {
  import opened Wrappers

  /** strings.Index: where `sep` occurs first. */
  function Index(s: string, sep: string): (r: Option<nat>)
    requires sep != ""
    ensures r.Some? ==> r.value + |sep| <= |s|
    decreases |s|
  {
    if |s| < |sep| then None
    else if sep <= s then Some(0)
    else match Index(s[1..], sep)
      case None => None
      case Some(i) => Some(i + 1)
  }

  /** strings.Split for a separator that is not empty. */
  function Split(s: string, sep: string): (parts: seq<string>)
    requires sep != ""
    ensures |parts| >= 1
    decreases |s|
  {
    match Index(s, sep)
    case None => [s]
    case Some(i) => [s[..i]] + Split(s[i + |sep|..], sep)
  }

  /** strings.Join. */
  function Join(parts: seq<string>, sep: string): string {
    if |parts| == 0 then ""
    else if |parts| == 1 then parts[0]
    else parts[0] + sep + Join(parts[1..], sep)
  }

  predicate HasSuffix(s: string, suffix: string) {
    |suffix| <= |s| && s[|s| - |suffix|..] == suffix
  }

  function TrimPrefix(s: string, prefix: string): string {
    if prefix <= s then s[|prefix|..] else s
  }

  function TrimSuffix(s: string, suffix: string): string {
    if HasSuffix(s, suffix) then s[..|s| - |suffix|] else s
  }

  predicate Contains(s: string, sub: string)
    requires sub != ""
  {
    Index(s, sub).Some?
  }

  /** unicode.IsSpace. */
  predicate IsSpace(c: char) {
    c == ' ' || '\t' <= c <= '\r' || c == '\U{85}' || c == '\U{A0}' || c == '\U{1680}' ||
    '\U{2000}' <= c <= '\U{200A}' || c == '\U{2028}' || c == '\U{2029}' || c == '\U{202F}' ||
    c == '\U{205F}' || c == '\U{3000}'
  }

  /** The code points of white space. */
  lemma IsSpaceMeans(c: char)
    ensures IsSpace(c) <==>
      c as int in {9, 10, 11, 12, 13, 32, 0x85, 0xA0, 0x1680, 0x2028, 0x2029, 0x202F, 0x205F, 0x3000} ||
      0x2000 <= c as int <= 0x200A
  {
  }

  function TrimLeft(s: string, cut: char -> bool): (r: string)
    ensures |r| <= |s|
    ensures r != "" ==> !cut(r[0])
    decreases |s|
  {
    if s != "" && cut(s[0]) then TrimLeft(s[1..], cut) else s
  }

  function TrimRight(s: string, cut: char -> bool): (r: string)
    ensures r <= s
    ensures r != "" ==> !cut(r[|r| - 1])
    decreases |s|
  {
    if s != "" && cut(s[|s| - 1]) then TrimRight(s[..|s| - 1], cut) else s
  }

  /** strings.TrimSpace. */
  function TrimSpace(s: string): (r: string)
    ensures Trimmed(r)
  {
    TrimRight(TrimLeft(s, IsSpace), IsSpace)
  }

  /** No white space at either end. */
  predicate Trimmed(s: string) {
    s != "" ==> !IsSpace(s[0]) && !IsSpace(s[|s| - 1])
  }

  lemma TrimSpaceOfTrimmed(s: string)
    requires Trimmed(s)
    ensures TrimSpace(s) == s
  {
  }

  // ---- Splitting and joining

  lemma {:induction false} IndexAfterPart(part: string, c: char, rest: string)
    requires c !in part
    ensures Index(part + [c] + rest, [c]) == Some(|part|)
  {
    var s := part + [c] + rest;
    if part == "" {
      assert [c] <= s;
    } else {
      IndexAfterPart(part[1..], c, rest);
      assert s[1..] == part[1..] + [c] + rest;
      assert s[0] == part[0] && s[0] in part;
    }
  }

  lemma {:induction false} IndexOfAbsent(s: string, c: char)
    requires c !in s
    ensures Index(s, [c]) == None
  {
    if s != "" {
      assert s[0] in s;
      IndexOfAbsent(s[1..], c);
    }
  }

  /** Splitting undoes joining when the parts are free of the separator. */
  lemma {:induction false} SplitOfJoin(parts: seq<string>, c: char)
    requires |parts| > 0 && forall p :: p in parts ==> c !in p
    ensures Split(Join(parts, [c]), [c]) == parts
  {
    assert parts[0] in parts;
    if |parts| == 1 {
      IndexOfAbsent(parts[0], c);
    } else {
      var rest := Join(parts[1..], [c]);
      assert Join(parts, [c]) == parts[0] + [c] + rest;
      IndexAfterPart(parts[0], c, rest);
      assert (parts[0] + [c] + rest)[|parts[0]| + 1..] == rest;
      assert (parts[0] + [c] + rest)[..|parts[0]|] == parts[0];
      SplitOfJoin(parts[1..], c);
    }
  }

  lemma {:induction false} IndexIsFirst(s: string, c: char)
    ensures match Index(s, [c]) case Some(i) => s[i] == c && c !in s[..i] case None => c !in s
  {
    if s == "" || s[0] == c {
    } else {
      IndexIsFirst(s[1..], c);
      match Index(s[1..], [c])
      case Some(i) => assert s[..i + 1] == [s[0]] + s[1..][..i];
      case None => assert s == [s[0]] + s[1..];
    }
  }

  // ---- What the functions mean

  ghost predicate OccursAt(s: string, sep: string, i: nat) {
    i + |sep| <= |s| && s[i..i + |sep|] == sep
  }

  lemma OccursInTail(s: string, sep: string, j: nat)
    requires 0 < j && s != ""
    ensures OccursAt(s, sep, j) <==> OccursAt(s[1..], sep, j - 1)
  {
    if j + |sep| <= |s| {
      var a, b := s[j..j + |sep|], s[1..][j - 1..j - 1 + |sep|];
      assert |a| == |b| == |sep| && forall k :: 0 <= k < |sep| ==> a[k] == s[j + k] == b[k];
      assert a == b;
    }
  }

  /** Index finds the first place where the separator occurs, if there is one. */
  lemma {:induction false} IndexMeans(s: string, sep: string)
    requires sep != ""
    ensures match Index(s, sep)
      case Some(i) => OccursAt(s, sep, i) && forall j: nat :: j < i ==> !OccursAt(s, sep, j)
      case None => forall j: nat :: !OccursAt(s, sep, j)
    decreases |s|
  {
    if |s| >= |sep| && !(sep <= s) {
      IndexMeans(s[1..], sep);
      forall j: nat ensures j > 0 ==> (OccursAt(s, sep, j) <==> OccursAt(s[1..], sep, j - 1)) {
        if j > 0 {
          OccursInTail(s, sep, j);
        }
      }
    }
  }

  /** The parts of a split do not contain the separator, and joining them gives the string back. */
  lemma {:induction false} SplitMeans(s: string, sep: string)
    requires sep != ""
    ensures Join(Split(s, sep), sep) == s
    ensures forall p :: p in Split(s, sep) ==> Index(p, sep).None?
    decreases |s|
  {
    IndexMeans(s, sep);
    match Index(s, sep)
    case None =>
    case Some(i) =>
      SplitMeans(s[i + |sep|..], sep);
      BeforeFirst(s, sep, i);
      JoinedAt(s, sep, i);
  }

  lemma JoinedAt(s: string, sep: string, i: nat)
    requires sep != "" && Index(s, sep) == Some(i) && OccursAt(s, sep, i)
    requires Join(Split(s[i + |sep|..], sep), sep) == s[i + |sep|..]
    ensures Join(Split(s, sep), sep) == s
  {
    var rest := s[i + |sep|..];
    assert Split(s, sep)[1..] == Split(rest, sep);
    assert s == s[..i] + sep + rest;
  }

  /** With a single character between them the parts are free of it. */
  lemma JoinOfSplit(s: string, c: char)
    ensures Join(Split(s, [c]), [c]) == s
    ensures forall p :: p in Split(s, [c]) ==> c !in p
  {
    SplitMeans(s, [c]);
    forall p | p in Split(s, [c]) ensures c !in p {
      IndexIsFirst(p, c);
    }
  }

  lemma BeforeFirst(s: string, sep: string, i: nat)
    requires sep != "" && i <= |s| && forall j: nat :: j < i ==> !OccursAt(s, sep, j)
    ensures Index(s[..i], sep).None?
  {
    IndexMeans(s[..i], sep);
    forall j: nat ensures !OccursAt(s[..i], sep, j) {
      if j + |sep| <= i {
        assert s[..i][j..j + |sep|] == s[j..j + |sep|];
        assert !OccursAt(s, sep, j);
      }
    }
  }

  lemma ContainsMeans(s: string, sub: string)
    requires sub != ""
    ensures Contains(s, sub) <==> exists i: nat :: OccursAt(s, sub, i)
  {
    IndexMeans(s, sub);
  }

  lemma SuffixMeans(s: string, suffix: string)
    ensures HasSuffix(s + suffix, suffix) && TrimSuffix(s + suffix, suffix) == s
    ensures HasSuffix(s, suffix) ==> s == TrimSuffix(s, suffix) + suffix
    ensures !HasSuffix(s, suffix) ==> TrimSuffix(s, suffix) == s
  {
    assert (s + suffix)[|s|..] == suffix && (s + suffix)[..|s|] == s;
  }

  lemma PrefixMeans(s: string, prefix: string)
    ensures prefix <= prefix + s && TrimPrefix(prefix + s, prefix) == s
    ensures prefix <= s ==> s == prefix + TrimPrefix(s, prefix)
    ensures !(prefix <= s) ==> TrimPrefix(s, prefix) == s
  {
  }

  /** What is cut off at the left is all to be cut, and what is left does not begin so. */
  lemma {:induction false} TrimLeftMeans(s: string, cut: char -> bool) returns (before: string)
    ensures s == before + TrimLeft(s, cut) && forall c :: c in before ==> cut(c)
    ensures TrimLeft(s, cut) != "" ==> !cut(TrimLeft(s, cut)[0])
  {
    before := "";
    if s != "" && cut(s[0]) {
      var more := TrimLeftMeans(s[1..], cut);
      before := [s[0]] + more;
      assert s == [s[0]] + s[1..];
    }
  }

  lemma {:induction false} TrimRightMeans(s: string, cut: char -> bool) returns (after: string)
    ensures s == TrimRight(s, cut) + after && forall c :: c in after ==> cut(c)
    ensures TrimRight(s, cut) != "" ==> !cut(TrimRight(s, cut)[|TrimRight(s, cut)| - 1])
  {
    after := "";
    if s != "" && cut(s[|s| - 1]) {
      var more := TrimRightMeans(s[..|s| - 1], cut);
      after := more + [s[|s| - 1]];
      assert s == s[..|s| - 1] + [s[|s| - 1]];
    }
  }

  /** Trimming takes white space off both ends, and no more than that. */
  lemma TrimSpaceMeans(s: string) returns (before: string, after: string)
    ensures s == before + TrimSpace(s) + after && Trimmed(TrimSpace(s))
    ensures (forall c :: c in before ==> IsSpace(c)) && (forall c :: c in after ==> IsSpace(c))
  {
    before := TrimLeftMeans(s, IsSpace);
    after := TrimRightMeans(TrimLeft(s, IsSpace), IsSpace);
  }

  // ---- Splitting what has been put together

  lemma {:induction false} JoinConcat(a: seq<string>, b: seq<string>, sep: string)
    requires a != [] && b != []
    ensures Join(a + b, sep) == Join(a, sep) + sep + Join(b, sep)
  {
    if |a| == 1 {
      assert (a + b)[1..] == b;
    } else {
      JoinConcat(a[1..], b, sep);
      assert (a + b)[1..] == a[1..] + b;
      assert a[0] + sep + (Join(a[1..], sep) + sep + Join(b, sep)) == a[0] + sep + Join(a[1..], sep) + sep + Join(b, sep);
    }
  }

  lemma SplitConcat(a: string, c: char, b: string)
    ensures Split(a + [c] + b, [c]) == Split(a, [c]) + Split(b, [c])
  {
    JoinOfSplit(a, c);
    JoinOfSplit(b, c);
    JoinConcat(Split(a, [c]), Split(b, [c]), [c]);
    SplitOfJoin(Split(a, [c]) + Split(b, [c]), c);
  }

  lemma {:induction false} JoinHasParts(parts: seq<string>, c: char, p: string)
    requires p in parts && c !in p
    ensures p in Split(Join(parts, [c]), [c])
  {
    if |parts| == 1 {
      IndexOfAbsent(p, c);
    } else {
      SplitConcat(parts[0], c, Join(parts[1..], [c]));
      if p == parts[0] {
        IndexOfAbsent(p, c);
      } else {
        assert p in parts[1..];
        JoinHasParts(parts[1..], c, p);
      }
    }
  }

  lemma {:induction false} JoinLast(parts: seq<string>, sep: string, x: string)
    requires parts != []
    ensures Join(parts[|parts| - 1 := parts[|parts| - 1] + x], sep) == Join(parts, sep) + x
  {
    var n := |parts| - 1;
    if n > 0 {
      JoinLast(parts[1..], sep, x);
      var more := parts[n := parts[n] + x];
      assert more[1..] == parts[1..][n - 1 := parts[1..][n - 1] + x];
      assert more[0] == parts[0];
    }
  }

  lemma JoinFirst(parts: seq<string>, sep: string, x: string)
    requires parts != []
    ensures Join(parts[0 := x + parts[0]], sep) == x + Join(parts, sep)
  {
    var more := parts[0 := x + parts[0]];
    assert more[1..] == parts[1..];
  }

  /** A character other than the separator goes to the first part, or to the last. */
  lemma SplitPaddedLeft(s: string, c: char, d: char)
    requires c != d
    ensures Split([d] + s, [c]) == Split(s, [c])[0 := [d] + Split(s, [c])[0]]
  {
    var parts := Split(s, [c]);
    JoinOfSplit(s, c);
    PartsFree(parts, c, 0, [d] + parts[0]);
    JoinFirst(parts, [c], [d]);
    SplitOfJoin(parts[0 := [d] + parts[0]], c);
  }

  lemma SplitPaddedRight(s: string, c: char, d: char)
    requires c != d
    ensures var parts := Split(s, [c]);
      Split(s + [d], [c]) == parts[|parts| - 1 := parts[|parts| - 1] + [d]]
  {
    var parts := Split(s, [c]);
    JoinOfSplit(s, c);
    PartsFree(parts, c, |parts| - 1, parts[|parts| - 1] + [d]);
    JoinLast(parts, [c], [d]);
    SplitOfJoin(parts[|parts| - 1 := parts[|parts| - 1] + [d]], c);
  }

  lemma PartsFree(parts: seq<string>, c: char, k: nat, x: string)
    requires k < |parts| && c !in x && forall p :: p in parts ==> c !in p
    ensures forall p :: p in parts[k := x] ==> c !in p
  {
  }

  lemma {:induction false} TrimPadded(s: string, d: char)
    requires IsSpace(d)
    ensures TrimSpace([d] + s) == TrimSpace(s) && TrimSpace(s + [d]) == TrimSpace(s)
  {
    assert ([d] + s)[1..] == s;
    TrimLeftSnoc(s, d);
  }

  lemma {:induction false} TrimLeftSnoc(s: string, d: char)
    requires IsSpace(d)
    ensures TrimLeft(s + [d], IsSpace) == if TrimLeft(s, IsSpace) == "" then "" else TrimLeft(s, IsSpace) + [d]
    ensures TrimRight(TrimLeft(s + [d], IsSpace), IsSpace) == TrimRight(TrimLeft(s, IsSpace), IsSpace)
    decreases |s|
  {
    if s == "" {
      assert (s + [d])[1..] == "";
    } else if IsSpace(s[0]) {
      assert (s + [d])[1..] == s[1..] + [d];
      TrimLeftSnoc(s[1..], d);
    } else {
      assert (s + [d])[..|s|] == s;
    }
  }
}
