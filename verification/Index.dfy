/** Bidirectional indices over object keys (index/base.go, relation.go, untyped.go). */
module Index {

  datatype Key = Key(namespace: string, name: string)

  type Table = map<Key, set<Key>>

  /** What the index means: a uses b. */
  type Edge = (Key, Key)

  function Pairs(t: Table): set<Edge> {
    set a, b | a in t && b in t[a] :: (a, b)
  }

  function Row(t: Table, a: Key): set<Key> {
    if a in t then t[a] else {}
  }

  function Converse(edges: set<Edge>): set<Edge> {
    set e | e in edges :: (e.1, e.0)
  }

  function Without(edges: set<Edge>, o: Key): set<Edge> {
    set e | e in edges && e.0 != o && e.1 != o
  }

  function Uses(edges: set<Edge>, a: Key): set<Key> {
    set e | e in edges && e.0 == a :: e.1
  }

  function Users(edges: set<Edge>, b: Key): set<Key> {
    set e | e in edges && e.1 == b :: e.0
  }

  function Replaced(edges: set<Edge>, a: Key, targets: set<Key>): set<Edge> {
    (set e | e in edges && e.0 != a) + RowPairs(a, targets)
  }

  lemma RowIsUses(t: Table, a: Key)
    ensures Row(t, a) == Uses(Pairs(t), a)
  {
    forall b | b in Row(t, a)
      ensures b in Uses(Pairs(t), a)
    {
      assert (a, b) in Pairs(t);
    }
  }

  lemma UsersAreConverseUses(edges: set<Edge>, b: Key)
    ensures Users(edges, b) == Uses(Converse(edges), b)
  {}

  lemma UsesAreEdges(edges: set<Edge>, a: Key, b: Key)
    ensures b in Uses(edges, a) <==> (a, b) in edges
    ensures a in Users(edges, b) <==> (a, b) in edges
  {}

  /** The relation index answers both directions from one set of edges. */
  lemma UsersUsesConverse(edges: set<Edge>, a: Key, b: Key)
    ensures a in Users(edges, b) <==> b in Uses(edges, a)
  {}

  lemma AddPair(t: Table, a: Key, b: Key)
    ensures Pairs(t[a := Row(t, a) + {b}]) == Pairs(t) + {(a, b)}
  {}

  lemma RemovePair(t: Table, a: Key, b: Key)
    requires a in t
    ensures Pairs(t[a := t[a] - {b}]) == Pairs(t) - {(a, b)}
  {}

  lemma ConverseEdits(edges: set<Edge>, a: Key, b: Key, o: Key)
    ensures Converse(edges + {(a, b)}) == Converse(edges) + {(b, a)}
    ensures Converse(edges - {(a, b)}) == Converse(edges) - {(b, a)}
    ensures Converse(Without(edges, o)) == Without(Converse(edges), o)
  {}

  /** The table in the middle of a purge of o, with the rows in todo still to be visited. */
  function Purging(t: Table, o: Key, todo: set<Key>): Table {
    map a | a in t && (a in todo || t[a] - {o} != {}) :: if a in todo then t[a] else t[a] - {o}
  }

  lemma PurgeStarts(t: Table, o: Key)
    ensures Purging(t, o, t.Keys) == t && !Seen(t, o, t.Keys)
  {}

  lemma PurgedRows(t: Table, o: Key)
    ensures forall a :: a in Purging(t, o, {}) ==> Purging(t, o, {})[a] != {}
  {}

  lemma PurgeStep(t: Table, o: Key, todo: set<Key>, b: Key)
    requires b in todo && todo <= t.Keys
    ensures b in Purging(t, o, todo) && Purging(t, o, todo)[b] == t[b]
    ensures Purging(t, o, todo - {b}) ==
            if t[b] - {o} == {} then Purging(t, o, todo) - {b} else Purging(t, o, todo)[b := t[b] - {o}]
  {}

  /** Some row outside todo contains o. */
  ghost predicate Seen(t: Table, o: Key, todo: set<Key>) {
    exists a :: a in t && a !in todo && o in t[a]
  }

  lemma SeenStep(t: Table, o: Key, todo: set<Key>, b: Key)
    requires b in todo && todo <= t.Keys
    ensures Seen(t, o, todo - {b}) <==> Seen(t, o, todo) || o in t[b]
    ensures |t[b]| != |t[b] - {o}| <==> o in t[b]
  {}

  lemma PurgedPairs(t: Table, o: Key)
    ensures Pairs(Purging(t - {o}, o, {})) == Without(Pairs(t), o)
  {
    forall e
      ensures e in Pairs(Purging(t - {o}, o, {})) <==> e in Without(Pairs(t), o)
    {
      if e in Without(Pairs(t), o) {
        assert e.1 in t[e.0] - {o};
      }
    }
  }

  lemma UntouchedWithout(t: Table, o: Key)
    ensures o !in t && !Seen(t, o, {}) ==> Without(Pairs(t), o) == Pairs(t)
  {}

  function RowPairs(a: Key, s: set<Key>): set<Edge> {
    set x | x in s :: (a, x)
  }

  lemma RowPairsStep(a: Key, s: set<Key>, c: Key)
    ensures RowPairs(a, s + {c}) == RowPairs(a, s) + {(a, c)}
  {}

  /** A row: a set of keys that is changed in place. */
  class KeySet {
    var keys: set<Key>

    constructor (keys: set<Key>)
      ensures this.keys == keys
    {
      this.keys := keys;
    }
  }

  class Base {
    var index: map<Key, KeySet>

    constructor ()
      ensures Valid() && Rows() == map[] && fresh(this) && Repr() == {this}
    {
      index := map[];
    }

    /** Every row has a set of its own. */
    ghost predicate Valid()
      reads this
    {
      forall a, b :: a in index && b in index && a != b ==> index[a] != index[b]
    }

    ghost function Repr(): set<object>
      reads this
    {
      {this} + set a | a in index :: index[a]
    }

    ghost function Rows(): Table
      reads Repr()
    {
      map a | a in index :: index[a].keys
    }

    method Add(a: Key, b: Key) returns (added: bool)
      requires Valid()
      modifies Repr()
      ensures Valid() && fresh(Repr() - old(Repr()))
      ensures Pairs(Rows()) == Pairs(old(Rows())) + {(a, b)}
      ensures added <==> (a, b) !in Pairs(old(Rows()))
    {
      AddPair(Rows(), a, b);
      if a !in index {
        var empty := new KeySet({});
        index := index[a := empty];
      }
      var row := index[a];
      if b in row.keys {
        return false;
      }
      row.keys := row.keys + {b};
      assert Rows() == old(Rows())[a := Row(old(Rows()), a) + {b}];
      return true;
    }

    method Remove(a: Key, b: Key) returns (removed: bool)
      requires Valid()
      modifies Repr()
      ensures Valid() && Repr() == old(Repr())
      ensures Pairs(Rows()) == Pairs(old(Rows())) - {(a, b)}
      ensures removed <==> (a, b) in Pairs(old(Rows()))
    {
      if a !in index {
        return false;
      }
      RemovePair(Rows(), a, b);
      var row := index[a];
      if b in row.keys {
        row.keys := row.keys - {b};
        assert Rows() == old(Rows())[a := old(Rows())[a] - {b}];
        return true;
      }
      return false;
    }

    /** Removes o as a row and from all rows; rows that are empty afterwards go, too. */
    method DeleteObject(o: Key) returns (ok: bool)
      requires Valid()
      modifies Repr()
      ensures Valid() && Repr() <= old(Repr())
      ensures Pairs(Rows()) == Without(Pairs(old(Rows())), o)
      ensures ok <==> o in old(Rows()) || Seen(old(Rows()), o, {})
      ensures Pairs(Rows()) != Pairs(old(Rows())) ==> ok
      ensures forall a :: a in Rows() ==> Rows()[a] != {}
    {
      ghost var before := Rows();
      ok := o in index;
      assert o in index <==> o in Rows();
      DropRow(o);
      ghost var start := Rows();
      var todo := index.Keys;
      assert todo == start.Keys;
      PurgeStarts(start, o);
      PurgedPairs(before, o);
      UntouchedWithout(before, o);
      PurgedRows(start, o);
      assert Seen(start, o, {}) ==> Seen(before, o, {});
      assert Seen(before, o, {}) && o !in before ==> Seen(start, o, {});
      hide *;
      while todo != {}
        invariant Valid() && Repr() <= old(Repr())
        invariant todo <= start.Keys && Rows() == Purging(start, o, todo)
        invariant ok <==> o in before || Seen(start, o, todo)
        decreases |todo|
      {
        var b :| b in todo;
        PurgeStep(start, o, todo, b);
        SeenStep(start, o, todo, b);
        var touched := PurgeRow(b, o);
        ok := ok || touched;
        todo := todo - {b};
      }
    }

    method DropRow(o: Key)
      requires Valid()
      modifies this
      ensures Valid() && Repr() <= old(Repr()) && Rows() == old(Rows()) - {o}
    {
      index := index - {o};
    }

    method PurgeRow(b: Key, o: Key) returns (touched: bool)
      requires Valid() && b in Rows()
      modifies Repr()
      ensures Valid() && Repr() <= old(Repr())
      ensures Rows() == if old(Rows())[b] - {o} == {} then old(Rows()) - {b} else old(Rows())[b := old(Rows())[b] - {o}]
      ensures touched <==> |old(Rows())[b]| != |old(Rows())[b] - {o}|
    {
      var t := index[b];
      var size := |t.keys|;
      t.keys := t.keys - {o};
      touched := size != |t.keys|;
      assert Rows() == old(Rows())[b := old(Rows())[b] - {o}];
      if |t.keys| == 0 {
        index := index - {b};
        assert Rows() == old(Rows()) - {b};
      }
    }

    /** A copy of the row, which shares nothing with the index. */
    method Get(a: Key) returns (row: KeySet?)
      requires Valid()
      ensures row != null ==> fresh(row) && row.keys == Uses(Pairs(Rows()), a)
      ensures row == null ==> Uses(Pairs(Rows()), a) == {}
    {
      RowIsUses(Rows(), a);
      if a !in index {
        return null;
      }
      row := new KeySet(index[a].keys);
    }

    method Clear() returns (ok: bool)
      modifies this
      ensures Valid() && Repr() == {this} && Rows() == map[] && (ok <==> old(Rows()) != map[])
    {
      ok := |index| != 0;
      assert index == map[] <==> Rows() == map[];
      index := map[];
    }
  }

  class Relation {
    const usersFor: Base
    const usedBy: Base

    constructor ()
      ensures Valid() && Edges() == {} && fresh(Footprint())
    {
      usersFor := new Base();
      usedBy := new Base();
    }

    ghost function Footprint(): set<object>
      reads usersFor, usedBy
    {
      usersFor.Repr() + usedBy.Repr()
    }

    /** The two tables share nothing and are converses of each other. */
    ghost predicate Valid()
      reads Footprint()
    {
      && usersFor.Valid() && usedBy.Valid() && usersFor.Repr() !! usedBy.Repr()
      && Pairs(usersFor.Rows()) == Converse(Edges())
    }

    ghost function Edges(): set<Edge>
      reads usedBy.Repr()
    {
      Pairs(usedBy.Rows())
    }

    method Add(a: Key, b: Key) returns (added: bool)
      requires Valid()
      modifies Footprint()
      ensures Valid() && fresh(Footprint() - old(Footprint()))
      ensures Edges() == old(Edges()) + {(a, b)}
      ensures added <==> (a, b) !in old(Edges())
    {
      ConverseEdits(Edges(), a, b, a);
      hide Pairs, Converse, Base.Valid, Base.Rows;
      var _ := usersFor.Add(b, a);
      added := usedBy.Add(a, b);
    }

    method Remove(a: Key, b: Key) returns (removed: bool)
      requires Valid()
      modifies Footprint()
      ensures Valid() && Footprint() == old(Footprint())
      ensures Edges() == old(Edges()) - {(a, b)}
      ensures removed <==> (a, b) in old(Edges())
    {
      ConverseEdits(Edges(), a, b, a);
      hide Pairs, Converse, Base.Valid, Base.Rows;
      var _ := usersFor.Remove(b, a);
      removed := usedBy.Remove(a, b);
    }

    method AddAll(a: Key, s: set<Key>)
      requires Valid()
      modifies Footprint()
      ensures Valid() && fresh(Footprint() - old(Footprint()))
      ensures Edges() == old(Edges()) + RowPairs(a, s)
    {
      hide Relation.Valid, Relation.Edges;
      var todo := s;
      while todo != {}
        invariant Valid() && todo <= s && fresh(Footprint() - old(Footprint()))
        invariant Edges() == old(Edges()) + RowPairs(a, s - todo)
        decreases |todo|
      {
        var c :| c in todo;
        RowPairsStep(a, s - todo, c);
        assert s - (todo - {c}) == (s - todo) + {c};
        todo := todo - {c};
        var _ := Add(a, c);
      }
      assert s - todo == s;
    }

    method RemoveAll(a: Key, s: set<Key>)
      requires Valid()
      modifies Footprint()
      ensures Valid() && Footprint() == old(Footprint())
      ensures Edges() == old(Edges()) - RowPairs(a, s)
    {
      hide Relation.Valid, Relation.Edges;
      var todo := s;
      while todo != {}
        invariant Valid() && todo <= s && Footprint() == old(Footprint())
        invariant Edges() == old(Edges()) - RowPairs(a, s - todo)
        decreases |todo|
      {
        var c :| c in todo;
        RowPairsStep(a, s - todo, c);
        assert s - (todo - {c}) == (s - todo) + {c};
        todo := todo - {c};
        var _ := Remove(a, c);
      }
      assert s - todo == s;
    }

    /** Adds and removes, in any order, exactly what differs. */
    method Replace(a: Key, b: seq<Key>) returns (ok: bool)
      requires Valid()
      modifies Footprint()
      ensures Valid() && fresh(Footprint() - old(Footprint()))
      ensures Edges() == Replaced(old(Edges()), a, set x | x in b)
      ensures ok <==> Uses(old(Edges()), a) != {} || b != []
    {
      hide Base.Valid, Base.Rows, Pairs, Converse, Uses, Replaced, RowPairs;
      var old' := UsedBy(a);
      var row := if old' == null then {} else old'.keys;
      var exp := set x | x in b;
      ReplacedByDifference(Edges(), a, row, exp);
      assert b != [] ==> b[0] in exp;
      hide *;
      AddAll(a, exp - row);
      RemoveAll(a, row - exp);
      ok := |row| != 0 || |exp| != 0;
    }

    method RemoveObject(o: Key) returns (ok: bool)
      requires Valid()
      modifies Footprint()
      ensures Valid() && Footprint() <= old(Footprint())
      ensures Edges() == Without(old(Edges()), o)
      ensures Edges() != old(Edges()) ==> ok
    {
      ConverseEdits(Edges(), o, o, o);
      hide Pairs, Converse, Without, Seen, Base.Valid, Base.Rows;
      var _ := usersFor.DeleteObject(o);
      ok := usedBy.DeleteObject(o);
    }

    method UsedBy(a: Key) returns (row: KeySet?)
      requires Valid()
      ensures row != null ==> fresh(row) && row.keys == Uses(Edges(), a)
      ensures row == null ==> Uses(Edges(), a) == {}
    {
      row := usedBy.Get(a);
    }

    method UsersFor(b: Key) returns (row: KeySet?)
      requires Valid()
      ensures row != null ==> fresh(row) && row.keys == Users(Edges(), b)
      ensures row == null ==> Users(Edges(), b) == {}
    {
      UsersAreConverseUses(Edges(), b);
      row := usersFor.Get(b);
    }

    method Clear() returns (ok: bool)
      requires Valid()
      modifies Footprint()
      ensures Valid() && Footprint() <= old(Footprint())
      ensures Edges() == {}
      ensures old(Edges()) != {} ==> ok
    {
      var _ := usersFor.Clear();
      ok := usedBy.Clear();
    }
  }

  lemma ReplacedByDifference(edges: set<Edge>, a: Key, row: set<Key>, exp: set<Key>)
    requires row == Uses(edges, a)
    ensures edges + RowPairs(a, exp - row) - RowPairs(a, row - exp) == Replaced(edges, a, exp)
  {}
}
