/** Dependency ordering by depth-first search with cycle extraction (utils/topo.go). */
module Topo {
  import opened Graphs

  /** Every listed node occurs once and after all of its dependencies. */
  ghost predicate Ordered<T>(g: Graph<T>, o: seq<T>) {
    && Distinct(o)
    && forall k, d :: 0 <= k < |o| && d in Succ(g, o[k]) ==> d in o[..k]
  }

  /** A simple cycle: closed, along dependency edges, no node repeated inside. */
  ghost predicate SimpleCycle<T>(g: Graph<T>, c: seq<T>) {
    && 2 <= |c|
    && c[0] == c[|c| - 1]
    && IsWalk(g, c)
    && Distinct(c[..|c| - 1])
  }

  /** A closed walk of at least one edge, with or without repeated nodes. */
  ghost predicate ClosedWalk<T>(g: Graph<T>, c: seq<T>) {
    2 <= |c| && c[0] == c[|c| - 1] && IsWalk(g, c)
  }

  ghost predicate ReachableFrom<T(!new)>(g: Graph<T>, roots: seq<T>, x: T) {
    exists r :: r in roots && Reach(g, r, x)
  }

  /** The search state: the history is a simple path to i and shares nothing with the order so far. */
  ghost predicate SearchState<T>(g: Graph<T>, i: T, history: seq<T>, o: seq<T>) {
    && Closed(g) && i in g
    && Distinct(history)
    && IsWalk(g, history + [i])
    && Elems(history) <= g.Keys
    && Elems(history) !! Elems(o)
    && Ordered(g, o)
  }

  method IndexOf<T(==)>(s: seq<T>, x: T) returns (k: int)
    ensures 0 <= k ==> k < |s| && s[k] == x
    ensures k < 0 ==> x !in s
  {
    k := 0;
    while k < |s|
      invariant 0 <= k <= |s|
      invariant x !in s[..k]
    {
      if s[k] == x { return; }
      k := k + 1;
    }
    k := -1;
  }

  lemma CycleInHistory<T>(g: Graph<T>, i: T, history: seq<T>, k: nat)
    requires Distinct(history) && IsWalk(g, history + [i])
    requires k < |history| && history[k] == i
    ensures SimpleCycle(g, history[k..] + [i])
  {
    var c := history[k..] + [i];
    var h := history + [i];
    assert c == h[k..];
    forall j | 0 < j < |c|
      ensures c[j] in Succ(g, c[j - 1])
    {
      assert c[j] == h[k + j] && c[j - 1] == h[k + j - 1];
    }
    assert c[..|c| - 1] == history[k..];
  }

  lemma ExtendOrder<T>(g: Graph<T>, o: seq<T>, i: T)
    requires Ordered(g, o) && i !in o
    requires forall d :: d in Succ(g, i) ==> d in o
    ensures Ordered(g, o + [i])
  {
    var o' := o + [i];
    forall k, d | 0 <= k < |o'| && d in Succ(g, o'[k])
      ensures d in o'[..k]
    {
      if k < |o| {
        assert o'[..k] == o[..k];
      } else {
        assert o'[..k] == o;
      }
    }
  }

  /** Visits i. An empty cycle stands for the nil result. */
  method Visit<T(==,!new)>(g: Graph<T>, i: T, history: seq<T>, o: seq<T>) returns (cycle: seq<T>, o': seq<T>)
    requires SearchState(g, i, history, o)
    ensures cycle == [] ==>
              && Ordered(g, o') && o <= o' && i in o'
              && Elems(history) !! Elems(o')
              && forall x :: x in o' ==> x in o || Reach(g, i, x)
    ensures cycle != [] ==>
              && SimpleCycle(g, cycle)
              && (cycle[0] in history || Reach(g, i, cycle[0]))
    decreases g.Keys - Elems(history)
  {
    o' := o;
    var idx := IndexOf(history, i);
    if 0 <= idx {
      CycleInHistory(g, i, history, idx);
      return history[idx..] + [i], o';
    }
    ReachRefl(g, i);
    if i !in o' {
      var path := history + [i];
      assert Elems(path) == Elems(history) + {i};
      var deps := g[i];
      for k := 0 to |deps|
        invariant Ordered(g, o') && o <= o'
        invariant Elems(path) !! Elems(o')
        invariant forall j :: 0 <= j < k ==> deps[j] in o'
        invariant forall x :: x in o' ==> x in o || Reach(g, i, x)
      {
        assert deps[k] in Succ(g, i);
        var sub := path + [deps[k]];
        assert IsWalk(g, sub) by {
          forall j | 0 < j < |sub|
            ensures sub[j] in Succ(g, sub[j - 1])
          {
            if j < |path| {
              assert sub[j] == path[j] && sub[j - 1] == path[j - 1];
            }
          }
        }
        ghost var before := o';
        cycle, o' := Visit(g, deps[k], path, o');
        if cycle != [] {
          assert path[|path| - 1] == i;
          if cycle[0] !in history && cycle[0] != i {
            ReachStep(g, i, deps[k], cycle[0]);
          }
          return;
        }
        forall x | x in o'
          ensures x in o || Reach(g, i, x)
        {
          if x !in before {
            ReachStep(g, i, deps[k], x);
          }
        }
      }
      assert i in Elems(path);
      ExtendOrder(g, o', i);
      o' := o' + [i];
    }
    cycle := [];
  }

  /** An order listing a node lists everything reachable from it. */
  lemma OrderClosed<T(!new)>(g: Graph<T>, o: seq<T>, x: T, y: T)
    requires Ordered(g, o) && x in o && Reach(g, x, y)
    ensures y in o
  {
    forall a, b | a in Elems(o) && b in Succ(g, a)
      ensures b in Elems(o)
    {
      var k :| 0 <= k < |o| && o[k] == a;
      assert b in o[..k];
    }
    ReachStaysIn(g, Elems(o), x, y);
  }

  /** Along a walk through an ordered list positions strictly fall. */
  lemma {:induction false} WalkFallsInOrder<T>(g: Graph<T>, o: seq<T>, w: seq<T>, k: nat)
    requires Ordered(g, o) && IsWalk(g, w)
    requires k < |o| && o[k] == w[0]
    ensures exists j :: 0 <= j && j + |w| <= k + 1 && o[j] == w[|w| - 1]
    decreases |w|
  {
    if |w| == 1 {
      assert 0 <= k && k + |w| <= k + 1 && o[k] == w[|w| - 1];
    } else {
      assert w[1] in Succ(g, o[k]);
      assert w[1] in o[..k];
      var m :| 0 <= m < k && o[m] == w[1];
      var v := w[1..];
      assert IsWalk(g, v);
      WalkFallsInOrder(g, o, v, m);
      var j :| 0 <= j && j + |v| <= m + 1 && o[j] == v[|v| - 1];
      assert j + |w| <= k + 1 && o[j] == w[|w| - 1];
    }
  }

  /** An ordered list excludes closed walks through any of its nodes. */
  lemma OrderedHasNoCycle<T>(g: Graph<T>, o: seq<T>, c: seq<T>)
    requires Ordered(g, o) && ClosedWalk(g, c)
    ensures c[0] !in o
  {
    if c[0] in o {
      var k :| 0 <= k < |o| && o[k] == c[0];
      WalkFallsInOrder(g, o, c, k);
      assert false;
    }
  }

  /** Sorts everything the roots require, or reports a cycle. */
  method TopoSort<T(==,!new)>(g: Graph<T>, roots: seq<T>) returns (order: seq<T>, cycle: seq<T>)
    requires Closed(g) && forall r :: r in roots ==> r in g
    // the order: exactly the required nodes, once each, dependencies first
    ensures cycle == [] ==> Ordered(g, order)
    ensures cycle == [] ==> forall x :: x in order <==> ReachableFrom(g, roots, x)
    // the cycle: genuine, simple and required
    ensures cycle != [] ==> order == [] && SimpleCycle(g, cycle) && ReachableFrom(g, roots, cycle[0])
    // and reported exactly when there is one
    ensures cycle != [] <==> exists c :: ClosedWalk(g, c) && ReachableFrom(g, roots, c[0])
  {
    var o: seq<T> := [];
    for k := 0 to |roots|
      invariant Ordered(g, o)
      invariant forall j :: 0 <= j < k ==> roots[j] in o
      invariant forall x :: x in o ==> ReachableFrom(g, roots, x)
    {
      ghost var before := o;
      assert [] + [roots[k]] == [roots[k]];
      cycle, o := Visit(g, roots[k], [], o);
      if cycle != [] {
        assert Reach(g, roots[k], cycle[0]);
        assert ClosedWalk(g, cycle);
        return [], cycle;
      }
      forall x | x in o
        ensures ReachableFrom(g, roots, x)
      {
        if x !in before {
          assert roots[k] in roots && Reach(g, roots[k], x);
        }
      }
    }
    forall x | ReachableFrom(g, roots, x)
      ensures x in o
    {
      var r :| r in roots && Reach(g, r, x);
      OrderClosed(g, o, r, x);
    }
    forall c | ClosedWalk(g, c)
      ensures !ReachableFrom(g, roots, c[0])
    {
      OrderedHasNoCycle(g, o, c);
    }
    return o, [];
  }
}
