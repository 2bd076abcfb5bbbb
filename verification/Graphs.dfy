/** Finite directed graphs given by successor lists, with walks and reachability. */
module Graphs {

  /** A node without an entry has no successors. */
  type Graph<T> = map<T, seq<T>>

  function Succ<T>(g: Graph<T>, x: T): seq<T> {
    if x in g then g[x] else []
  }

  ghost predicate Closed<T>(g: Graph<T>) {
    forall x, y :: x in g && y in g[x] ==> y in g
  }

  ghost function Elems<T>(s: seq<T>): set<T> {
    set x | x in s
  }

  ghost predicate Distinct<T>(s: seq<T>) {
    forall i, j :: 0 <= i < j < |s| ==> s[i] != s[j]
  }

  /** A nonempty sequence of nodes, each a successor of the one before. */
  ghost predicate IsWalk<T>(g: Graph<T>, p: seq<T>) {
    && 0 < |p|
    && forall i :: 0 < i < |p| ==> p[i] in Succ(g, p[i - 1])
  }

  ghost predicate WalkFrom<T>(g: Graph<T>, p: seq<T>, x: T, y: T) {
    IsWalk(g, p) && p[0] == x && p[|p| - 1] == y
  }

  ghost predicate Reach<T(!new)>(g: Graph<T>, x: T, y: T) {
    exists p :: WalkFrom(g, p, x, y)
  }

  lemma ReachRefl<T(!new)>(g: Graph<T>, x: T)
    ensures Reach(g, x, x)
  {
    assert WalkFrom(g, [x], x, x);
  }

  lemma ReachTrans<T(!new)>(g: Graph<T>, x: T, y: T, z: T)
    requires Reach(g, x, y) && Reach(g, y, z)
    ensures Reach(g, x, z)
  {
    var p :| WalkFrom(g, p, x, y);
    var q :| WalkFrom(g, q, y, z);
    var w := p + q[1..];
    forall i | 0 < i < |w|
      ensures w[i] in Succ(g, w[i - 1])
    {
      if i >= |p| {
        assert w[i] == q[i - |p| + 1];
        assert w[i - 1] == q[i - |p|];
      }
    }
    assert WalkFrom(g, w, x, z);
  }

  lemma ReachStep<T(!new)>(g: Graph<T>, x: T, c: T, y: T)
    requires c in Succ(g, x) && Reach(g, c, y)
    ensures Reach(g, x, y)
  {
    assert WalkFrom(g, [x, c], x, c);
    ReachTrans(g, x, c, y);
  }

  /** A set closed under successors contains every walk that starts in it. */
  lemma {:induction false} WalkStaysIn<T>(g: Graph<T>, s: set<T>, p: seq<T>)
    requires forall x, y :: x in s && y in Succ(g, x) ==> y in s
    requires IsWalk(g, p) && p[0] in s
    ensures Elems(p) <= s
    decreases |p|
  {
    if |p| > 1 {
      var q := p[..|p| - 1];
      assert IsWalk(g, q);
      WalkStaysIn(g, s, q);
      assert q[|q| - 1] in s;
      assert p == q + [p[|p| - 1]];
    }
  }

  lemma ReachStaysIn<T(!new)>(g: Graph<T>, s: set<T>, x: T, y: T)
    requires forall a, b :: a in s && b in Succ(g, a) ==> b in s
    requires x in s && Reach(g, x, y)
    ensures y in s
  {
    var p :| WalkFrom(g, p, x, y);
    WalkStaysIn(g, s, p);
    assert p[|p| - 1] in p;
  }
}
