/** What a loop that goes through a list and keeps something of some of its elements comes to. */
module Picking {
  import opened Wrappers

  /** What `pick` gives for the elements of a list, in their order, without those for which it gives nothing. */
  function Pick<A, B>(pick: A -> Option<B>, all: seq<A>): seq<B> {
    if all == [] then []
    else
      var front := Pick(pick, all[..|all| - 1]);
      var last := pick(all[|all| - 1]);
      if last.Some? then front + [last.value] else front
  }

  /** Together with the two cases of a single element this determines what is picked. */
  lemma {:induction false} PickDistributes<A, B>(pick: A -> Option<B>, a: seq<A>, b: seq<A>)
    ensures Pick(pick, a + b) == Pick(pick, a) + Pick(pick, b)
  {
    if b == [] {
      assert a + b == a;
    } else {
      var n := |b| - 1;
      PickDistributes(pick, a, b[..n]);
      assert (a + b)[..|a + b| - 1] == a + b[..n] && (a + b)[|a + b| - 1] == b[n];
    }
  }

  lemma PickOne<A, B>(pick: A -> Option<B>, x: A)
    ensures Pick(pick, [x]) == if pick(x).Some? then [pick(x).value] else []
  {
    assert [x][..0] == [];
  }

  lemma {:induction false} PickMembers<A, B>(pick: A -> Option<B>, all: seq<A>, y: B)
    ensures y in Pick(pick, all) <==> exists x :: x in all && pick(x) == Some(y)
  {
    if all != [] {
      PickMembers(pick, all[..|all| - 1], y);
      assert all == all[..|all| - 1] + [all[|all| - 1]];
    }
  }

  /** What two elements cannot both give is picked once at most. */
  lemma {:induction false} PickOnce<A, B>(pick: A -> Option<B>, all: seq<A>, y: B)
    requires forall i, j :: 0 <= i < j < |all| ==> !(pick(all[i]) == Some(y) && pick(all[j]) == Some(y))
    ensures multiset(Pick(pick, all))[y] <= 1
  {
    if all != [] {
      var n := |all| - 1;
      PickOnce(pick, all[..n], y);
      PickMembers(pick, all[..n], y);
      if y in Pick(pick, all[..n]) {
        var x :| x in all[..n] && pick(x) == Some(y);
        var i :| 0 <= i < n && all[i] == x;
        assert pick(all[n]) != Some(y);
      }
    }
  }

  /** Picking from what was picked is picking once. */
  lemma {:induction false} PickTwice<A, B, C>(first: A -> Option<B>, then_: B -> Option<C>, both: A -> Option<C>,
      all: seq<A>)
    requires forall x :: x in all ==> both(x) == if first(x).Some? then then_(first(x).value) else None
    ensures Pick(then_, Pick(first, all)) == Pick(both, all)
  {
    if all != [] {
      var n := |all| - 1;
      assert all[n] in all && forall x :: x in all[..n] ==> x in all;
      PickTwice(first, then_, both, all[..n]);
      var front := Pick(first, all[..n]);
      if first(all[n]).Some? {
        assert (front + [first(all[n]).value])[..|front|] == front;
      }
    }
  }

  lemma {:induction false} PickNone<A, B>(pick: A -> Option<B>, all: seq<A>)
    requires forall x :: x in all ==> pick(x) == None
    ensures Pick(pick, all) == []
  {
    if all != [] {
      assert all[|all| - 1] in all && forall x :: x in all[..|all| - 1] ==> x in all;
      PickNone(pick, all[..|all| - 1]);
    }
  }

  /** Picks that agree on a list give the same for it. */
  lemma {:induction false} PickAgrees<A, B>(p: A -> Option<B>, q: A -> Option<B>, all: seq<A>)
    requires forall x :: x in all ==> p(x) == q(x)
    ensures Pick(p, all) == Pick(q, all)
  {
    if all != [] {
      assert all[|all| - 1] in all && forall x :: x in all[..|all| - 1] ==> x in all;
      PickAgrees(p, q, all[..|all| - 1]);
    }
  }

  /** What `each` gives for the elements of a list, one after the other. */
  function Flat<A, B>(each: A -> seq<B>, all: seq<A>): seq<B> {
    if all == [] then [] else Flat(each, all[..|all| - 1]) + each(all[|all| - 1])
  }

  lemma {:induction false} FlatDistributes<A, B>(each: A -> seq<B>, a: seq<A>, b: seq<A>)
    ensures Flat(each, a + b) == Flat(each, a) + Flat(each, b)
  {
    if b == [] {
      assert a + b == a;
    } else {
      var n := |b| - 1;
      assert Flat(each, a + b) == Flat(each, a + b[..n]) + each(b[n]) by {
        assert (a + b)[..|a + b| - 1] == a + b[..n] && (a + b)[|a + b| - 1] == b[n];
      }
      FlatDistributes(each, a, b[..n]);
    }
  }

  lemma FlatOne<A, B>(each: A -> seq<B>, x: A)
    ensures Flat(each, [x]) == each(x)
  {
    assert [x][..0] == [];
  }
}
