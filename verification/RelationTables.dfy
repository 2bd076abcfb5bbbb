/** Relations between object keys held in a table: under their names in the untyped index
    (index/untyped.go), under a name and two kinds in the typed one (index/typed.go). */
module RelationTables {
  import opened Index

  /** What an index means: the edges of each relation; a relation never used has none. */
  type View<K> = map<K, set<Edge>>

  function EdgesOf<K>(v: View<K>, r: K): set<Edge> {
    if r in v then v[r] else {}
  }

  /** The view in the middle of removing o from the relations `within`, with those in todo still to be visited. */
  function Leaving<K>(v: View<K>, o: Key, within: set<K>, todo: set<K>): View<K> {
    map r | r in v :: if r in within && r !in todo then Without(v[r], o) else v[r]
  }

  lemma LeaveStep<K>(v: View<K>, o: Key, within: set<K>, todo: set<K>, r: K)
    requires r in todo && r in within && r in v
    ensures r in Leaving(v, o, within, todo) && Leaving(v, o, within, todo)[r] == v[r]
    ensures Leaving(v, o, within, todo - {r}) == Leaving(v, o, within, todo)[r := Without(v[r], o)]
  {}

  lemma LeaveEnds<K>(v: View<K>, o: Key, within: set<K>)
    ensures Leaving(v, o, within, within) == v
  {}

  /** rel shows the given edges and holds nothing but part. */
  ghost predicate Holds(rel: Relation, part: set<object>, edges: set<Edge>)
    reads part
  {
    rel.usersFor in part && rel.usedBy in part && rel.Footprint() <= part && rel.Valid() && rel.Edges() == edges
  }

  class RelationTable<K(==)> {
    var relations: map<K, Relation>
    ghost var view: View<K>
    ghost var parts: map<K, set<object>> // what each relation holds
    ghost var repr: set<object>

    ghost predicate Valid()
      reads this, repr
    {
      && this !in repr
      && view.Keys == relations.Keys == parts.Keys
      && (forall r :: r in parts ==> parts[r] <= repr)
      && (forall r, q :: r in parts && q in parts && r != q ==> parts[r] !! parts[q])
      && (forall r :: r in relations ==> Holds(relations[r], parts[r], view[r]))
    }

    lemma KeysAgree()
      requires Valid()
      ensures view.Keys == relations.Keys
    {}

    /** Valid except for what the relation under r shows. */
    ghost predicate ValidBut(r: K)
      reads this, repr
    {
      && this !in repr
      && view.Keys == relations.Keys == parts.Keys && r in relations
      && (forall q :: q in parts ==> parts[q] <= repr)
      && (forall q, p :: q in parts && p in parts && q != p ==> parts[q] !! parts[p])
      && (forall q :: q in relations && q != r ==> Holds(relations[q], parts[q], view[q]))
    }

    /** Changing what one relation holds leaves the others as they are. */
    twostate lemma OthersUntouched(r: K)
      requires old(Valid()) && r in relations
      requires relations == old(relations) && view == old(view) && parts == old(parts) && repr == old(repr)
      requires forall o :: o in repr && o !in parts[r] ==> unchanged(o)
      ensures ValidBut(r)
    {
      hide Holds;
      forall q | q in relations && q != r
        ensures Holds(relations[q], parts[q], view[q])
      {
        assert old(Holds(relations[q], parts[q], view[q]));
      }
    }

    /** Records what the relation under r shows and holds now, new rows included. */
    ghost method Show(r: K, edges: set<Edge>, part: set<object>)
      requires ValidBut(r) && Holds(relations[r], part, edges)
      requires parts[r] <= part && (part - parts[r]) !! repr && this !in part
      modifies `view, `parts, `repr
      ensures Valid() && view == old(view)[r := edges]
      ensures repr == if part <= old(repr) then old(repr) else old(repr) + part
    {
      hide Holds;
      view, parts, repr := view[r := edges], parts[r := part], repr + part;
      forall q | q in relations
        ensures Holds(relations[q], parts[q], view[q])
      {
        assert old(Holds(relations[q], if q == r then part else parts[q], if q == r then edges else view[q]));
      }
    }

    constructor ()
      ensures Valid() && view == map[] && fresh(repr)
    {
      relations, view, parts, repr := map[], map[], map[], {};
    }

    method IsEmpty() returns (empty: bool)
      requires Valid()
      ensures empty <==> view == map[]
    {
      empty := |relations| == 0;
      assert view.Keys == relations.Keys;
    }

    method GetRelation(r: K) returns (rel: Relation)
      requires Valid()
      modifies this
      ensures Valid() && r in relations && relations[r] == rel
      ensures view == old(view)[r := EdgesOf(old(view), r)]
      ensures old(repr) <= repr && fresh(repr - old(repr))
    {
      if r in relations {
        return relations[r];
      }
      rel := Create(r);
    }

    method Create(r: K) returns (rel: Relation)
      requires Valid() && r !in relations
      modifies this
      ensures Valid() && relations == old(relations)[r := rel]
      ensures view == old(view)[r := {}]
      ensures old(repr) <= repr && fresh(repr - old(repr))
    {
      rel := new Relation();
      ghost var part := rel.Footprint();
      assert Holds(rel, part, {});
      hide Holds, Relation.Footprint, Relation.Valid, Relation.Edges;
      relations := relations[r := rel];
      forall q | q in view
        ensures Holds(relations[q], parts[q], view[q])
      {
        assert old(Holds(relations[q], parts[q], view[q]));
      }
      Enter(r, part);
    }

    ghost method Enter(r: K, part: set<object>)
      requires this !in repr && view.Keys == parts.Keys && r !in view && relations.Keys == view.Keys + {r}
      requires forall q :: q in parts ==> parts[q] <= repr
      requires forall q, p :: q in parts && p in parts && q != p ==> parts[q] !! parts[p]
      requires forall q :: q in view ==> Holds(relations[q], parts[q], view[q])
      requires Holds(relations[r], part, {}) && part !! repr && this !in part
      modifies `view, `parts, `repr
      ensures Valid() && view == old(view)[r := {}] && repr == old(repr) + part
    {
      hide Holds;
      view, parts, repr := view[r := {}], parts[r := part], repr + part;
      forall q | q in relations
        ensures Holds(relations[q], parts[q], view[q])
      {
        assert old(Holds(relations[q], if q == r then part else parts[q], if q == r then {} else view[q]));
      }
    }

    method Add(r: K, a: Key, b: Key) returns (added: bool)
      requires Valid()
      modifies this, repr
      ensures Valid() && fresh(repr - old(repr))
      ensures view == old(view)[r := EdgesOf(old(view), r) + {(a, b)}]
      ensures added <==> (a, b) !in EdgesOf(old(view), r)
    {
      hide Valid;
      var rel := GetRelation(r);
      added := AddTo(r, rel, a, b);
    }

    method AddTo(r: K, rel: Relation, a: Key, b: Key) returns (added: bool)
      requires Valid() && r in relations && relations[r] == rel
      modifies this, repr
      ensures Valid() && fresh(repr - old(repr))
      ensures view == old(view)[r := old(view)[r] + {(a, b)}]
      ensures added <==> (a, b) !in old(view)[r]
    {
      hide Relation.Valid, Relation.Edges, Relation.Footprint, Without, Replaced;
      assert Holds(rel, parts[r], view[r]);
      added := rel.Add(a, b);
      OthersUntouched(r);
      Show(r, view[r] + {(a, b)}, parts[r] + rel.Footprint());
    }

    method Replace(r: K, a: Key, b: seq<Key>) returns (ok: bool)
      requires Valid()
      modifies this, repr
      ensures Valid() && fresh(repr - old(repr))
      ensures view == old(view)[r := Replaced(EdgesOf(old(view), r), a, set x | x in b)]
      ensures ok <==> Uses(EdgesOf(old(view), r), a) != {} || b != []
    {
      hide Valid;
      var rel := GetRelation(r);
      ok := ReplaceIn(r, rel, a, b);
    }

    method ReplaceIn(r: K, rel: Relation, a: Key, b: seq<Key>) returns (ok: bool)
      requires Valid() && r in relations && relations[r] == rel
      modifies this, repr
      ensures Valid() && fresh(repr - old(repr))
      ensures view == old(view)[r := Replaced(old(view)[r], a, set x | x in b)]
      ensures ok <==> Uses(old(view)[r], a) != {} || b != []
    {
      hide Relation.Valid, Relation.Edges, Relation.Footprint, Without, Replaced;
      assert Holds(rel, parts[r], view[r]);
      ok := rel.Replace(a, b);
      OthersUntouched(r);
      Show(r, Replaced(view[r], a, set x | x in b), parts[r] + rel.Footprint());
    }

    method Remove(r: K, a: Key, b: Key) returns (removed: bool)
      requires Valid()
      modifies this, repr
      ensures Valid() && repr == old(repr) && relations == old(relations)
      ensures view == if r in old(view) then old(view)[r := old(view)[r] - {(a, b)}] else old(view)
      ensures removed <==> (a, b) in EdgesOf(old(view), r)
    {
      if r !in relations {
        return false;
      }
      hide Relation.Valid, Relation.Edges, Relation.Footprint, Without, Replaced;
      assert Holds(relations[r], parts[r], view[r]);
      assert this !in parts[r] && parts[r] <= repr;
      hide Valid, ValidBut;
      removed := relations[r].Remove(a, b);
      OthersUntouched(r);
      Show(r, view[r] - {(a, b)}, parts[r]);
    }

    /** Every edge touching o goes, in all relations. */
    method RemoveObject(o: Key) returns (ok: bool)
      requires Valid()
      modifies this, repr
      ensures Valid() && repr == old(repr) && relations == old(relations)
      ensures view == map r | r in old(view) :: Without(old(view)[r], o)
      ensures view != old(view) ==> ok
    {
      KeysAgree();
      hide Valid;
      ok := RemoveObjectFrom(o, relations.Keys);
    }

    /** Removes o from the given relations, visited in any order. */
    method RemoveObjectFrom(o: Key, within: set<K>) returns (ok: bool)
      requires Valid() && within <= relations.Keys
      modifies this, repr
      ensures Valid() && repr == old(repr) && relations == old(relations)
      ensures view == Leaving(old(view), o, within, {})
      ensures view != old(view) ==> ok
    {
      assert view.Keys == relations.Keys;
      LeaveEnds(view, o, within);
      hide *;
      ok := false;
      var todo := within;
      while todo != {}
        invariant Valid() && todo <= within <= relations.Keys == old(view).Keys && repr == old(repr)
        invariant relations == old(relations)
        invariant view == Leaving(old(view), o, within, todo)
        invariant !ok ==> view == old(view)
        decreases todo
      {
        var r :| r in todo;
        LeaveStep(old(view), o, within, todo, r);
        todo := todo - {r};
        var touched := RemoveFrom(r, o);
        ok := touched || ok;
      }
    }

    method RemoveFrom(r: K, o: Key) returns (touched: bool)
      requires Valid() && r in relations
      modifies this, repr
      ensures Valid() && repr == old(repr) && relations == old(relations)
      ensures view == old(view)[r := Without(old(view)[r], o)]
      ensures view != old(view) ==> touched
    {
      hide Relation.Valid, Relation.Edges, Relation.Footprint, Without, Replaced;
      assert Holds(relations[r], parts[r], view[r]);
      assert this !in parts[r] && parts[r] <= repr;
      hide Valid, ValidBut;
      touched := relations[r].RemoveObject(o);
      assert !touched ==> view[r := Without(view[r], o)] == view;
      OthersUntouched(r);
      Show(r, Without(view[r], o), parts[r]);
    }

    method UsedBy(r: K, a: Key) returns (row: KeySet?)
      requires Valid()
      ensures row != null ==> fresh(row) && row.keys == Uses(EdgesOf(view, r), a)
      ensures row == null ==> Uses(EdgesOf(view, r), a) == {}
    {
      if r !in relations {
        return null;
      }
      hide Relation.Valid, Relation.Edges, Relation.Footprint, Without, Replaced;
      assert Holds(relations[r], parts[r], view[r]);
      row := relations[r].UsedBy(a);
    }

    method UsersFor(r: K, b: Key) returns (row: KeySet?)
      requires Valid()
      ensures row != null ==> fresh(row) && row.keys == Users(EdgesOf(view, r), b)
      ensures row == null ==> Users(EdgesOf(view, r), b) == {}
    {
      if r !in relations {
        return null;
      }
      hide Relation.Valid, Relation.Edges, Relation.Footprint, Without, Replaced;
      assert Holds(relations[r], parts[r], view[r]);
      row := relations[r].UsersFor(b);
    }

    /** A cleared relation keeps its name: the index does not become empty again. */
    method Clear(r: K) returns (ok: bool)
      requires Valid()
      modifies this, repr
      ensures Valid() && repr == old(repr) && relations == old(relations)
      ensures view == if r in old(view) then old(view)[r := {}] else old(view)
      ensures EdgesOf(old(view), r) != {} ==> ok
    {
      if r !in relations {
        return false;
      }
      hide Relation.Valid, Relation.Edges, Relation.Footprint, Without, Replaced;
      assert Holds(relations[r], parts[r], view[r]);
      assert this !in parts[r] && parts[r] <= repr;
      hide Valid, ValidBut;
      ok := relations[r].Clear();
      OthersUntouched(r);
      Show(r, {}, parts[r]);
    }

    /** Drops relations altogether. */
    method Forget(dropped: set<K>)
      requires Valid()
      modifies this
      ensures Valid() && repr == old(repr)
      ensures view == old(view) - dropped && relations == old(relations) - dropped
    {
      hide Holds;
      relations, view, parts := relations - dropped, view - dropped, parts - dropped;
      forall q | q in relations
        ensures Holds(relations[q], parts[q], view[q])
      {
        assert old(Holds(relations[q], parts[q], view[q]));
      }
    }
  }

  /** The untyped index names its relations by strings. */
  type Untyped = RelationTable<string>
}
