/** Untyped indices by cluster (index/clusteruntyped.go). The index of each cluster is the part of one table with
    the slots of that cluster. */
module ClusterIndex {
  import opened Index
  import opened RelationTables

  datatype Slot = Slot(cluster: string, relation: string)

  predicate HasEdge(v: View<Slot>, cluster: string, r: string, a: Key, b: Key) {
    (a, b) in EdgesOf(v, Slot(cluster, r))
  }

  function SlotsOf(v: View<Slot>, cluster: string): set<Slot> {
    set s | s in v && s.cluster == cluster
  }

  /** The indices: the clusters that have one, and what they hold. */
  datatype Indices = Indices(clusters: set<string>, view: View<Slot>) {
    /** Every cluster with an index has a relation in it, and relations are held for those clusters only. */
    ghost predicate Consistent() {
      && (forall s :: s in view ==> s.cluster in clusters)
      && (forall c :: c in clusters ==> exists s :: s in view && s.cluster == c)
    }
  }

  datatype Op =
    | AddOp(r: string, cluster: string, a: Key, b: Key)
    | ReplaceOp(r: string, cluster: string, a: Key, targets: seq<Key>)
    | RemoveOp(r: string, cluster: string, a: Key, b: Key)
    | RemoveObjectOp(cluster: string, o: Key)
    | ClearOp(r: string, cluster: string)

  /** The effect of an operation. Only Add gives a cluster an index; the other ones drop out without one. */
  function Step(x: Indices, op: Op): Indices {
    if !op.AddOp? && op.cluster !in x.clusters then x
    else match op
      case AddOp(r, c, a, b) =>
        Indices(x.clusters + {c}, x.view[Slot(c, r) := EdgesOf(x.view, Slot(c, r)) + {(a, b)}])
      case ReplaceOp(r, c, a, targets) =>
        x.(view := x.view[Slot(c, r) := Replaced(EdgesOf(x.view, Slot(c, r)), a, set t | t in targets)])
      case RemoveOp(r, c, a, b) =>
        if Slot(c, r) !in x.view then x else x.(view := x.view[Slot(c, r) := x.view[Slot(c, r)] - {(a, b)}])
      case RemoveObjectOp(c, o) => x.(view := Leaving(x.view, o, SlotsOf(x.view, c), {}))
      case ClearOp(r, c) => if Slot(c, r) !in x.view then x else x.(view := x.view[Slot(c, r) := {}])
  }

  /** What an operation is meant to do to the edge from p to q in relation s of cluster d. */
  predicate Meant(x: Indices, op: Op, d: string, s: string, p: Key, q: Key) {
    if op.cluster != d then HasEdge(x.view, d, s, p, q)
    else match op
      case AddOp(r, _, a, b) => HasEdge(x.view, d, s, p, q) || (s == r && p == a && q == b)
      case ReplaceOp(r, _, a, targets) => if s == r && p == a then q in targets else HasEdge(x.view, d, s, p, q)
      case RemoveOp(r, _, a, b) => HasEdge(x.view, d, s, p, q) && !(s == r && p == a && q == b)
      case RemoveObjectOp(_, o) => HasEdge(x.view, d, s, p, q) && p != o && q != o
      case ClearOp(r, _) => HasEdge(x.view, d, s, p, q) && s != r
  }

  /** Every operation does what it is meant to, in its own cluster only, unless it sets targets in a cluster that
      has no index: those are lost. */
  lemma StepMeansExactly(x: Indices, op: Op)
    requires x.Consistent()
    ensures (forall d, s, p, q :: HasEdge(Step(x, op).view, d, s, p, q) <==> Meant(x, op, d, s, p, q)) <==>
            !(op.ReplaceOp? && op.cluster !in x.clusters && op.targets != [])
  {
    if op.ReplaceOp? && op.cluster !in x.clusters {
      assert forall s :: !HasEdge(x.view, op.cluster, s, op.a, op.a);
      if op.targets != [] {
        assert op.targets[0] in op.targets;
        assert Meant(x, op, op.cluster, op.r, op.a, op.targets[0]);
        assert !HasEdge(Step(x, op).view, op.cluster, op.r, op.a, op.targets[0]);
      }
    }
  }

  lemma StepKeepsConsistent(x: Indices, op: Op)
    requires x.Consistent()
    ensures Step(x, op).Consistent() && x.clusters <= Step(x, op).clusters
    ensures op.cluster in x.clusters ==> SlotsOf(Step(x, op).view, op.cluster) != {}
  {
    var y := Step(x, op);
    assert op.AddOp? ==> Slot(op.cluster, op.r) in y.view;
    assert forall s :: s in x.view ==> s in y.view;
    if op.cluster in x.clusters {
      var s :| s in x.view && s.cluster == op.cluster;
      assert s in SlotsOf(y.view, op.cluster);
    }
  }

  lemma AddStep(x: Indices, r: string, c: string, a: Key, b: Key)
    ensures Step(x, AddOp(r, c, a, b)) ==
            Indices(x.clusters + {c}, x.view[Slot(c, r) := EdgesOf(x.view, Slot(c, r)) + {(a, b)}])
  {}

  lemma RemoveObjectStep(x: Indices, c: string, o: Key)
    ensures Step(x, RemoveObjectOp(c, o)) ==
            if c in x.clusters then Indices(x.clusters, Leaving(x.view, o, SlotsOf(x.view, c), {})) else x
  {}

  lemma ClearStep(x: Indices, r: string, c: string)
    ensures Step(x, ClearOp(r, c)) ==
            if c !in x.clusters || Slot(c, r) !in x.view then x else Indices(x.clusters, x.view[Slot(c, r) := {}])
  {}

  function Run(x: Indices, ops: seq<Op>): Indices {
    if ops == [] then x else Step(Run(x, ops[..|ops| - 1]), ops[|ops| - 1])
  }

  /** A cluster has an index exactly from the first Add for it on: clearing relations never drops one. */
  lemma {:induction false} IndicesStay(ops: seq<Op>, c: string)
    ensures Run(Indices({}, map[]), ops).Consistent()
    ensures c in Run(Indices({}, map[]), ops).clusters <==>
            exists i :: 0 <= i < |ops| && ops[i].AddOp? && ops[i].cluster == c
  {
    if ops != [] {
      var front, last := ops[..|ops| - 1], ops[|ops| - 1];
      IndicesStay(front, c);
      StepKeepsConsistent(Run(Indices({}, map[]), front), last);
    }
  }

  /** The first replacement for a cluster is lost; after an edge has been added and removed again it is kept. */
  lemma FirstReplacementIsLost(r: string, c: string, a: Key, b: Key)
    ensures var start, replace := Indices({}, map[]), ReplaceOp(r, c, a, [b]);
            && !HasEdge(Run(start, [replace]).view, c, r, a, b)
            && HasEdge(Run(start, [AddOp(r, c, a, b), RemoveOp(r, c, a, b), replace]).view, c, r, a, b)
  {
    var start, replace := Indices({}, map[]), ReplaceOp(r, c, a, [b]);
    var add, remove := AddOp(r, c, a, b), RemoveOp(r, c, a, b);
    assert [add, remove, replace][..2] == [add, remove] && [add, remove][..1] == [add];
    assert Run(start, [add]) == Step(start, add);
    assert Run(start, [add, remove]) == Step(Step(start, add), remove);
    assert b in [b];
  }

  class ClusterUntyped {
    const table: RelationTable<Slot>
    var clusters: set<string>

    constructor ()
      ensures Valid() && Value() == Indices({}, map[]) && fresh(table) && fresh(table.repr)
    {
      table := new RelationTable<Slot>();
      clusters := {};
    }

    ghost predicate Valid()
      reads this, table, table.repr
    {
      this !in table.repr && table !in table.repr && table.Valid() && Value().Consistent()
    }

    ghost function Value(): Indices
      reads this, table
    {
      Indices(clusters, table.view)
    }

    method SlotsIn(cluster: string) returns (slots: set<Slot>)
      requires Valid()
      ensures slots == SlotsOf(table.view, cluster) && slots <= table.relations.Keys
    {
      hide RelationTable.Valid;
      table.KeysAgree();
      slots := set s | s in table.relations && s.cluster == cluster;
    }

    method Add(r: string, cluster: string, a: Key, b: Key) returns (added: bool)
      requires Valid()
      modifies this, table, table.repr
      ensures Valid() && fresh(table.repr - old(table.repr))
      ensures Value() == Step(old(Value()), AddOp(r, cluster, a, b))
      ensures added <==> !HasEdge(old(table.view), cluster, r, a, b)
    {
      hide RelationTable.Valid, Indices.Consistent;
      StepKeepsConsistent(Value(), AddOp(r, cluster, a, b));
      AddStep(Value(), r, cluster, a, b);
      hide Step, EdgesOf;
      if cluster !in clusters {
        clusters := clusters + {cluster};
      }
      added := table.Add(Slot(cluster, r), a, b);
      assert Value() == Step(old(Value()), AddOp(r, cluster, a, b));
    }

    method Replace(r: string, cluster: string, a: Key, b: seq<Key>) returns (ok: bool)
      requires Valid()
      modifies table, table.repr
      ensures Valid() && fresh(table.repr - old(table.repr))
      ensures Value() == Step(old(Value()), ReplaceOp(r, cluster, a, b))
      ensures ok <==> cluster in clusters && (Uses(EdgesOf(old(table.view), Slot(cluster, r)), a) != {} || b != [])
    {
      hide RelationTable.Valid;
      StepKeepsConsistent(Value(), ReplaceOp(r, cluster, a, b));
      if cluster !in clusters {
        return false;
      }
      ok := table.Replace(Slot(cluster, r), a, b);
      assert Value() == Step(old(Value()), ReplaceOp(r, cluster, a, b));
    }

    method Remove(r: string, cluster: string, a: Key, b: Key) returns (removed: bool)
      requires Valid()
      modifies table, table.repr
      ensures Valid()
      ensures Value() == Step(old(Value()), RemoveOp(r, cluster, a, b))
      ensures removed <==> HasEdge(old(table.view), cluster, r, a, b)
    {
      hide RelationTable.Valid;
      StepKeepsConsistent(Value(), RemoveOp(r, cluster, a, b));
      if cluster !in clusters {
        return false;
      }
      removed := table.Remove(Slot(cluster, r), a, b);
      assert Value() == Step(old(Value()), RemoveOp(r, cluster, a, b));
    }

    method RemoveObject(cluster: string, o: Key) returns (ok: bool)
      requires Valid()
      modifies table, table.repr
      ensures Valid()
      ensures Value() == Step(old(Value()), RemoveObjectOp(cluster, o))
      ensures (Value() != old(Value()) ==> ok) && (ok ==> cluster in clusters)
    {
      hide RelationTable.Valid, Indices.Consistent;
      StepKeepsConsistent(Value(), RemoveObjectOp(cluster, o));
      RemoveObjectStep(Value(), cluster, o);
      hide Leaving, Step, SlotsOf;
      if cluster !in clusters {
        return false;
      }
      ok := RemoveFrom(cluster, o);
      assert Value() == Step(old(Value()), RemoveObjectOp(cluster, o));
    }

    method RemoveFrom(cluster: string, o: Key) returns (ok: bool)
      requires Valid()
      modifies table, table.repr
      ensures table.Valid() && this !in table.repr && table !in table.repr
      ensures table.view == Leaving(old(table.view), o, SlotsOf(old(table.view), cluster), {})
      ensures table.view != old(table.view) ==> ok
    {
      hide RelationTable.Valid, Indices.Consistent;
      hide Leaving;
      var slots := SlotsIn(cluster);
      hide SlotsOf;
      ok := table.RemoveObjectFrom(o, slots);
    }

    method UsersFor(r: string, cluster: string, b: Key) returns (row: KeySet?)
      requires Valid()
      ensures row != null ==> fresh(row) && forall a :: a in row.keys <==> HasEdge(table.view, cluster, r, a, b)
      ensures row == null ==> forall a :: !HasEdge(table.view, cluster, r, a, b)
    {
      hide RelationTable.Valid;
      forall a {
        UsesAreEdges(EdgesOf(table.view, Slot(cluster, r)), a, b);
      }
      if cluster !in clusters {
        return null;
      }
      hide Users, EdgesOf;
      row := table.UsersFor(Slot(cluster, r), b);
    }

    method UsedBy(r: string, cluster: string, a: Key) returns (row: KeySet?)
      requires Valid()
      ensures row != null ==> fresh(row) && forall b :: b in row.keys <==> HasEdge(table.view, cluster, r, a, b)
      ensures row == null ==> forall b :: !HasEdge(table.view, cluster, r, a, b)
    {
      hide RelationTable.Valid;
      forall b {
        UsesAreEdges(EdgesOf(table.view, Slot(cluster, r)), a, b);
      }
      if cluster !in clusters {
        return null;
      }
      hide Uses, EdgesOf;
      row := table.UsedBy(Slot(cluster, r), a);
    }

    /** An index without relations would be dropped, but a cleared relation keeps its name. */
    method Clear(r: string, cluster: string) returns (ok: bool)
      requires Valid()
      modifies this, table, table.repr
      ensures Valid()
      ensures Value() == Step(old(Value()), ClearOp(r, cluster))
      ensures (EdgesOf(old(table.view), Slot(cluster, r)) != {} ==> ok) && (ok ==> cluster in old(clusters))
    {
      hide RelationTable.Valid, Indices.Consistent;
      StepKeepsConsistent(Value(), ClearOp(r, cluster));
      ClearStep(Value(), r, cluster);
      hide Step, EdgesOf;
      if cluster !in clusters {
        return false;
      }
      ok := table.Clear(Slot(cluster, r));
      assert Value() == Step(old(Value()), ClearOp(r, cluster));
      DropIfEmpty(cluster);
    }

    method DropIfEmpty(cluster: string)
      requires Valid()
      modifies `clusters
      ensures Valid()
      ensures clusters == if SlotsOf(table.view, cluster) == {} then old(clusters) - {cluster} else old(clusters)
    {
      hide RelationTable.Valid;
      var slots := SlotsIn(cluster);
      assert forall s :: s in table.view && s.cluster == cluster ==> s in slots;
      clusters := if slots == {} then clusters - {cluster} else clusters;
    }
  }
}
