/** Sorting of strings, and of the keys of a set, as `sort.Strings` does it. */
module Sorting {

  /** The lexicographic order. */
  predicate Below(a: string, b: string) {
    b != "" && (a == "" || a[0] < b[0] || (a[0] == b[0] && Below(a[1..], b[1..])))
  }

  /** The strings first differ at place `k`. */
  ghost predicate FirstDiffer(a: string, b: string, k: nat) {
    k <= |a| && k <= |b| && a[..k] == b[..k] && k < |b| && (k == |a| || a[k] < b[k])
  }

  /** One string is below another exactly when it is a proper beginning of it, or has the smaller character where
      they first differ. */
  lemma {:induction false} BelowMeans(a: string, b: string)
    ensures Below(a, b) <==> exists k: nat :: FirstDiffer(a, b, k)
  {
    if Below(a, b) {
      if a == "" || a[0] < b[0] {
        assert FirstDiffer(a, b, 0);
      } else {
        BelowMeans(a[1..], b[1..]);
        var k: nat :| FirstDiffer(a[1..], b[1..], k);
        assert a[..k + 1] == [a[0]] + a[1..][..k] && b[..k + 1] == [b[0]] + b[1..][..k];
        assert FirstDiffer(a, b, k + 1);
      }
    }
    if k: nat :| FirstDiffer(a, b, k) {
      if k > 0 {
        assert a[0] == a[..k][0] == b[..k][0] == b[0];
        assert a[1..][..k - 1] == a[..k][1..] && b[1..][..k - 1] == b[..k][1..];
        assert FirstDiffer(a[1..], b[1..], k - 1);
        BelowMeans(a[1..], b[1..]);
      }
    }
  }

  lemma {:induction false} BelowTotal(a: string, b: string)
    ensures Below(a, b) || Below(b, a) || a == b
  {
    if a != "" && b != "" && a[0] == b[0] {
      BelowTotal(a[1..], b[1..]);
      assert a == [a[0]] + a[1..] && b == [b[0]] + b[1..];
    }
  }

  lemma {:induction false} BelowTransitive(a: string, b: string, c: string)
    requires Below(a, b) && Below(b, c)
    ensures Below(a, c)
  {
    if a != "" && a[0] == b[0] && b[0] == c[0] {
      BelowTransitive(a[1..], b[1..], c[1..]);
    }
  }

  lemma {:induction false} BelowIrreflexive(a: string)
    ensures !Below(a, a)
  {
    if a != "" {
      BelowIrreflexive(a[1..]);
    }
  }

  lemma BelowAsymmetric(a: string, b: string)
    requires Below(a, b)
    ensures !Below(b, a)
  {
    if Below(b, a) {
      BelowTransitive(a, b, a);
      BelowIrreflexive(a);
    }
  }

  ghost predicate Sorted(s: seq<string>) {
    forall i, j :: 0 <= i < j < |s| ==> !Below(s[j], s[i])
  }

  ghost predicate StrictlySorted(s: seq<string>) {
    forall i, j :: 0 <= i < j < |s| ==> Below(s[i], s[j])
  }

  function Elements(s: seq<string>): set<string> {
    set x | x in s
  }

  lemma ElementsSnoc(s: seq<string>, x: string)
    ensures Elements(s + [x]) == Elements(s) + {x}
  {
  }

  // ---- Sorting with repetitions, by a key

  ghost predicate SortedBy<T>(key: T -> string, s: seq<T>) {
    forall i, j :: 0 <= i < j < |s| ==> !Below(key(s[j]), key(s[i]))
  }

  function InsertBy<T>(key: T -> string, x: T, s: seq<T>): (r: seq<T>)
    ensures multiset(r) == multiset(s) + multiset{x}
  {
    if s == [] then [x]
    else if Below(key(s[0]), key(x)) then
      assert s == [s[0]] + s[1..];
      [s[0]] + InsertBy(key, x, s[1..])
    else [x] + s
  }

  /** sort.Slice, by a string. */
  function SortBy<T>(key: T -> string, s: seq<T>): (r: seq<T>)
    ensures multiset(r) == multiset(s)
  {
    if s == [] then []
    else
      assert s == [s[0]] + s[1..];
      InsertBy(key, s[0], SortBy(key, s[1..]))
  }

  lemma {:induction false} InsertBySorted<T>(key: T -> string, x: T, s: seq<T>)
    requires SortedBy(key, s)
    ensures SortedBy(key, InsertBy(key, x, s))
  {
    if s != [] && Below(key(s[0]), key(x)) {
      var r := InsertBy(key, x, s[1..]);
      InsertBySorted(key, x, s[1..]);
      forall j | 0 <= j < |r| ensures !Below(key(r[j]), key(s[0])) {
        assert r[j] in multiset(r);
        if r[j] == x {
          BelowAsymmetric(key(s[0]), key(x));
        } else {
          assert r[j] in multiset(s[1..]);
          var k :| 0 <= k < |s[1..]| && s[1..][k] == r[j];
          assert s[k + 1] == r[j];
        }
      }
    } else {
      forall j | 0 <= j < |s| ensures !Below(key(s[j]), key(x)) {
        if Below(key(s[j]), key(x)) {
          BelowTotal(key(s[0]), key(s[j]));
          if Below(key(s[0]), key(s[j])) {
            BelowTransitive(key(s[0]), key(s[j]), key(x));
          }
        }
      }
    }
  }

  lemma {:induction false} SortBySorted<T>(key: T -> string, s: seq<T>)
    ensures SortedBy(key, SortBy(key, s))
  {
    if s != [] {
      SortBySorted(key, s[1..]);
      InsertBySorted(key, s[0], SortBy(key, s[1..]));
    }
  }

  lemma SortByLength<T>(key: T -> string, s: seq<T>)
    ensures |SortBy(key, s)| == |s|
  {
    assert |multiset(SortBy(key, s))| == |multiset(s)|;
  }

  method Overwrite<T>(a: array<T>, s: seq<T>)
    requires |s| == a.Length
    modifies a
    ensures a[..] == s
  {
    for i := 0 to a.Length
      invariant a[..i] == s[..i]
    {
      a[i] := s[i];
    }
  }

  /** Sorts in place, as sort.Slice does. */
  method SortArrayBy<T>(key: T -> string, a: array<T>)
    modifies a
    ensures a[..] == SortBy(key, old(a[..]))
  {
    SortByLength(key, a[..]);
    Overwrite(a, SortBy(key, a[..]));
  }

  function Itself(s: string): string {
    s
  }

  /** sort.Strings. */
  function Sort(s: seq<string>): (r: seq<string>)
    ensures multiset(r) == multiset(s)
  {
    SortBy(Itself, s)
  }

  lemma SortSorted(s: seq<string>)
    ensures Sorted(Sort(s))
  {
    SortBySorted(Itself, s);
    var r := Sort(s);
    forall i, j | 0 <= i < j < |r| ensures !Below(r[j], r[i]) {
      assert !Below(Itself(r[j]), Itself(r[i]));
    }
  }

  lemma TailMultiset(s: seq<string>)
    requires s != []
    ensures multiset(s[1..]) == multiset(s) - multiset{s[0]}
  {
    assert s == [s[0]] + s[1..];
  }

  lemma SmallestFirst(a: seq<string>, b: seq<string>)
    requires Sorted(a) && Sorted(b) && multiset(a) == multiset(b) && a != [] && b != []
    ensures a[0] == b[0]
  {
    assert a[0] in multiset(b) && b[0] in multiset(a);
    var i :| 0 <= i < |b| && b[i] == a[0];
    var j :| 0 <= j < |a| && a[j] == b[0];
    BelowIrreflexive(a[0]);
    BelowTotal(a[0], b[0]);
  }

  /** There is only one sorted arrangement of a multiset. */
  lemma {:induction false} SortedUnique(a: seq<string>, b: seq<string>)
    requires Sorted(a) && Sorted(b) && multiset(a) == multiset(b)
    ensures a == b
  {
    assert |multiset(a)| == |multiset(b)|;
    if a != [] {
      SmallestFirst(a, b);
      TailMultiset(a);
      TailMultiset(b);
      SortedUnique(a[1..], b[1..]);
      assert a == [a[0]] + a[1..] && b == [b[0]] + b[1..];
    }
  }

  /** Two lists sort to the same list exactly when they are the same multiset. */
  lemma SameSort(a: seq<string>, b: seq<string>)
    ensures Sort(a) == Sort(b) <==> multiset(a) == multiset(b)
  {
    SortSorted(a);
    SortSorted(b);
    if multiset(a) == multiset(b) {
      SortedUnique(Sort(a), Sort(b));
    }
  }

  // ---- Sorting without repetitions

  /** There is only one strictly sorted arrangement of a set. */
  lemma {:induction false} StrictlySortedUnique(a: seq<string>, b: seq<string>)
    requires StrictlySorted(a) && StrictlySorted(b) && Elements(a) == Elements(b)
    ensures a == b
  {
    if a == [] {
      assert forall k :: 0 <= k < |b| ==> b[k] in Elements(b);
    } else {
      assert a[0] in Elements(b) && (b != [] ==> b[0] in Elements(a));
      var i :| 0 <= i < |b| && b[i] == a[0];
      var j :| 0 <= j < |a| && a[j] == b[0];
      FirstsAgree(a, b, i, j);
      TailElements(a);
      TailElements(b);
      StrictlySortedUnique(a[1..], b[1..]);
      assert a == [a[0]] + a[1..] && b == [b[0]] + b[1..];
    }
  }

  lemma FirstsAgree(a: seq<string>, b: seq<string>, i: nat, j: nat)
    requires StrictlySorted(a) && StrictlySorted(b) && i < |b| && j < |a| && b[i] == a[0] && a[j] == b[0]
    ensures a[0] == b[0]
  {
    if i > 0 && j > 0 {
      assert Below(b[0], b[i]);
      BelowAsymmetric(a[0], a[j]);
    }
  }

  lemma TailElements(s: seq<string>)
    requires StrictlySorted(s) && s != []
    ensures Elements(s[1..]) == Elements(s) - {s[0]}
  {
    BelowIrreflexive(s[0]);
    assert s == [s[0]] + s[1..];
    forall x | x in s[1..] ensures x != s[0] {
      var k :| 0 <= k < |s[1..]| && s[1..][k] == x;
      assert s[k + 1] == x && Below(s[0], s[k + 1]);
    }
  }

  function InsertNew(x: string, s: seq<string>): (r: seq<string>)
    ensures forall y :: y in r <==> y == x || y in s
  {
    if s == [] then [x]
    else if s[0] == x then s
    else if Below(s[0], x) then [s[0]] + InsertNew(x, s[1..])
    else [x] + s
  }

  /** The distinct strings of a list, sorted. */
  function SortUnique(s: seq<string>): (r: seq<string>)
    ensures Elements(r) == Elements(s)
  {
    if s == [] then []
    else
      assert s == [s[0]] + s[1..];
      var r := InsertNew(s[0], SortUnique(s[1..]));
      assert forall y :: y in SortUnique(s[1..]) <==> y in Elements(SortUnique(s[1..]));
      assert forall y :: y in s[1..] <==> y in Elements(s[1..]);
      r
  }

  lemma {:induction false} InsertNewSorted(x: string, s: seq<string>)
    requires StrictlySorted(s)
    ensures StrictlySorted(InsertNew(x, s))
  {
    if s != [] && s[0] != x {
      BelowTotal(s[0], x);
      if Below(s[0], x) {
        InsertNewSorted(x, s[1..]);
        var r := InsertNew(x, s[1..]);
        forall j | 0 <= j < |r| ensures Below(s[0], r[j]) {
          if r[j] != x {
            assert r[j] in s[1..];
            var k :| 0 <= k < |s[1..]| && s[1..][k] == r[j];
            assert s[k + 1] == r[j];
          }
        }
      } else {
        forall j | 0 < j < |s| ensures Below(x, s[j]) {
          BelowTransitive(x, s[0], s[j]);
        }
      }
    }
  }

  lemma {:induction false} SortUniqueSorted(s: seq<string>)
    ensures StrictlySorted(SortUnique(s))
  {
    if s != [] {
      SortUniqueSorted(s[1..]);
      InsertNewSorted(s[0], SortUnique(s[1..]));
    }
  }

  /** The result depends on the set of strings alone, and sorting a sorted list changes nothing. */
  lemma SortUniqueIsCanonical(a: seq<string>, b: seq<string>)
    requires Elements(a) == Elements(b)
    ensures SortUnique(a) == SortUnique(b)
    ensures StrictlySorted(b) ==> SortUnique(a) == b
  {
    SortUniqueSorted(a);
    SortUniqueSorted(b);
    StrictlySortedUnique(SortUnique(a), SortUnique(b));
    if StrictlySorted(b) {
      StrictlySortedUnique(SortUnique(b), b);
    }
  }

  lemma {:induction false} StrictlySortedLength(s: seq<string>)
    requires StrictlySorted(s)
    ensures |s| == |Elements(s)|
  {
    if s == [] {
      assert Elements(s) == {};
    } else {
      TailElements(s);
      StrictlySortedLength(s[1..]);
      assert s[0] in Elements(s);
    }
  }

  /** maps.Keys followed by sort.Strings: whatever order the keys come in, the result is the same. */
  method SortedKeys(keys: set<string>) returns (r: seq<string>)
    ensures StrictlySorted(r) && Elements(r) == keys
  {
    var listed, rest := [], keys;
    while rest != {}
      invariant rest <= keys && Elements(listed) == keys - rest
    {
      var key :| key in rest;
      ElementsSnoc(listed, key);
      listed, rest := listed + [key], rest - {key};
    }
    r := SortUnique(listed);
    SortUniqueSorted(listed);
  }

  /** The distinct strings of a list, sorted, by way of a set. */
  method UniqueAndSort(s: seq<string>) returns (r: seq<string>)
    ensures r == SortUnique(s)
  {
    var unique: set<string> := {};
    for i := 0 to |s|
      invariant unique == Elements(s[..i])
    {
      unique := unique + {s[i]};
      ElementsSnoc(s[..i], s[i]);
      assert s[..i + 1] == s[..i] + [s[i]];
    }
    assert s[..|s|] == s;
    r := SortedKeys(unique);
    SortUniqueIsCanonical(s, r);
  }
}
