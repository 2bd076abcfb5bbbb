/** Named relations between objects of several kinds (index/typed.go). The three map levels are a table over
    triples of relation name, users kind and used kind. */
module TypedIndex {
  import opened Index
  import opened RelationTables

  datatype Kind = Kind(group: string, kind: string)

  datatype TypedKey = TypedKey(kind: Kind, key: Key)

  datatype Slot = Slot(relation: string, users: Kind, used: Kind)

  /** What a typed index means: in relation r, a uses b. */
  predicate HasEdge(v: View<Slot>, r: string, a: TypedKey, b: TypedKey) {
    (a.key, b.key) in EdgesOf(v, Slot(r, a.kind, b.kind))
  }

  function KeysOf(b: seq<TypedKey>, kind: Kind): seq<Key> {
    if b == [] then []
    else if b[0].kind == kind then [b[0].key] + KeysOf(b[1..], kind)
    else KeysOf(b[1..], kind)
  }

  function KindsOf(b: seq<TypedKey>): set<Kind> {
    set c | c in b :: c.kind
  }

  lemma {:induction false} KeysOfKind(b: seq<TypedKey>, kind: Kind, x: Key)
    ensures x in KeysOf(b, kind) <==> TypedKey(kind, x) in b
    ensures KeysOf(b, kind) != [] <==> kind in KindsOf(b)
  {
    if b != [] {
      KeysOfKind(b[1..], kind, x);
      assert b == [b[0]] + b[1..];
      assert b[0].kind in KindsOf(b);
    }
  }

  function WithEdge(v: View<Slot>, r: string, a: TypedKey, b: TypedKey): View<Slot> {
    v[Slot(r, a.kind, b.kind) := EdgesOf(v, Slot(r, a.kind, b.kind)) + {(a.key, b.key)}]
  }

  function WithoutEdge(v: View<Slot>, r: string, a: TypedKey, b: TypedKey): View<Slot> {
    v[Slot(r, a.kind, b.kind) := EdgesOf(v, Slot(r, a.kind, b.kind)) - {(a.key, b.key)}]
  }

  function WithoutRelation(v: View<Slot>, r: string): View<Slot> {
    v - set s | s in v && s.relation == r
  }

  /** Add, Remove and Clear in terms of edges. */
  lemma SingleEditsMean(v: View<Slot>, r: string, a: TypedKey, b: TypedKey, q: string, x: TypedKey, y: TypedKey)
    ensures HasEdge(WithEdge(v, r, a, b), q, x, y) <==> HasEdge(v, q, x, y) || (q == r && x == a && y == b)
    ensures HasEdge(WithoutEdge(v, r, a, b), q, x, y) <==> HasEdge(v, q, x, y) && !(q == r && x == a && y == b)
    ensures HasEdge(WithoutRelation(v, r), q, x, y) <==> HasEdge(v, q, x, y) && q != r
  {}

  /** The slot rows of a that Replace has set for the kinds in done. */
  function Setting(v: View<Slot>, r: string, a: TypedKey, b: seq<TypedKey>, done: set<Kind>): View<Slot> {
    map s | s in v.Keys + set k | k in done :: Slot(r, a.kind, k) ::
      if s.relation == r && s.users == a.kind && s.used in done
      then Replaced(EdgesOf(v, s), a.key, set x | x in KeysOf(b, s.used))
      else EdgesOf(v, s)
  }

  lemma SettingStep(v: View<Slot>, r: string, a: TypedKey, b: seq<TypedKey>, done: set<Kind>, k: Kind)
    requires k !in done
    ensures EdgesOf(Setting(v, r, a, b, done), Slot(r, a.kind, k)) == EdgesOf(v, Slot(r, a.kind, k))
    ensures Setting(v, r, a, b, done + {k}) ==
            Setting(v, r, a, b, done)[Slot(r, a.kind, k) :=
              Replaced(EdgesOf(v, Slot(r, a.kind, k)), a.key, set x | x in KeysOf(b, k))]
  {
    hide Replaced;
    hide KeysOf;
    var s := Slot(r, a.kind, k);
    var before, after := Setting(v, r, a, b, done), Setting(v, r, a, b, done + {k});
    assert after.Keys == before.Keys + {s};
    forall t | t in after && t != s
      ensures after[t] == before[t]
    {
    }
  }

  lemma SettingNothing(v: View<Slot>, r: string, a: TypedKey, b: seq<TypedKey>)
    ensures Setting(v, r, a, b, {}) == v
  {}

  /** Replace in terms of edges: the new targets plus the old targets of kinds that are not mentioned. */
  lemma ReplaceMeans(v: View<Slot>, r: string, a: TypedKey, b: seq<TypedKey>, q: string, x: TypedKey, y: TypedKey)
    ensures HasEdge(Setting(v, r, a, b, KindsOf(b)), q, x, y) <==>
            if q == r && x == a then y in b || (HasEdge(v, r, a, y) && y.kind !in KindsOf(b))
            else HasEdge(v, q, x, y)
  {
    KeysOfKind(b, y.kind, y.key);
    assert y in b ==> y.kind in KindsOf(b);
    assert y == TypedKey(y.kind, y.key) && x == TypedKey(x.kind, x.key);
    var s := Slot(q, x.kind, y.kind);
    if q == r && x.kind == a.kind && y.kind in KindsOf(b) {
      assert EdgesOf(Setting(v, r, a, b, KindsOf(b)), s)
             == Replaced(EdgesOf(v, s), a.key, set z | z in KeysOf(b, y.kind));
    } else {
      assert EdgesOf(Setting(v, r, a, b, KindsOf(b)), s) == EdgesOf(v, s);
    }
  }

  /** The relations RemoveObject visits: those whose users are of the kind of o. */
  function SlotsOf(v: View<Slot>, kind: Kind): set<Slot> {
    set s | s in v && s.users == kind
  }

  function WithoutObject(v: View<Slot>, o: TypedKey): View<Slot> {
    Leaving(v, o.key, SlotsOf(v, o.kind), {})
  }

  /** RemoveObject in terms of edges: of the edges leaving objects of o's kind it drops those from o, and those
      to any object with o's key, whatever its kind. */
  lemma RemoveObjectMeans(v: View<Slot>, o: TypedKey, q: string, x: TypedKey, y: TypedKey)
    ensures HasEdge(WithoutObject(v, o), q, x, y) <==>
            HasEdge(v, q, x, y) && !(x.kind == o.kind && (x.key == o.key || y.key == o.key))
  {}

  /** No edge leaves a removed object, but edges from other kinds still lead to it. */
  lemma RemovedObjectIsNoUser(v: View<Slot>, o: TypedKey, q: string, y: TypedKey)
    ensures !HasEdge(WithoutObject(v, o), q, o, y)
    ensures y.kind != o.kind ==> (HasEdge(WithoutObject(v, o), q, y, o) <==> HasEdge(v, q, y, o))
  {}

  /** Removing an object is confined to its own edges exactly if no edge leads from its kind to an object of
      another kind under the same key, and no edge leads to it from another kind. */
  lemma RemovalIsConfinedExactly(v: View<Slot>, o: TypedKey)
    ensures (forall q, x, y :: HasEdge(WithoutObject(v, o), q, x, y) <==> HasEdge(v, q, x, y) && x != o && y != o)
            <==>
            (forall q, x, y :: HasEdge(v, q, x, y) ==>
               && (x.kind == o.kind && x != o && y.key == o.key ==> y.kind == o.kind)
               && (y == o && x != o ==> x.kind == o.kind))
  {}

  type Usage = map<string, set<Kind>>

  /** Every relation in the table has been registered under its name and users kind. */
  ghost predicate Known(users: Usage, v: View<Slot>) {
    forall s :: s in v ==> s.relation in users && s.users in users[s.relation]
  }

  lemma KnownSlot(users: Usage, v: View<Slot>, s: Slot, edges: set<Edge>)
    requires Known(users, v) && s.relation in users && s.users in users[s.relation]
    ensures Known(users, v[s := edges])
  {}

  lemma KnownKeys(users: Usage, v: View<Slot>, w: View<Slot>)
    requires Known(users, v) && w.Keys <= v.Keys
    ensures Known(users, w)
  {}

  lemma KnownForget(users: Usage, v: View<Slot>, r: string)
    requires Known(users, v)
    ensures Known(users - {r}, WithoutRelation(v, r))
  {}

  lemma GroupStep(all: set<Kind>, todo: set<Kind>, k: Kind)
    requires k in todo && todo <= all
    ensures all - (todo - {k}) == all - todo + {k} && k !in all - todo && all != todo - {k}
  {}

  lemma Overwrite(v: View<Slot>, s: Slot, first: set<Edge>, second: set<Edge>)
    ensures v[s := first][s := second] == v[s := second]
    ensures EdgesOf(v[s := first], s) == first
  {}

  class Typed {
    const table: RelationTable<Slot>
    var users: Usage // the users kinds each relation name has been used with

    constructor ()
      ensures Valid() && table.view == map[] && users == map[] && fresh(table) && fresh(table.repr)
    {
      table := new RelationTable<Slot>();
      users := map[];
    }

    ghost predicate Valid()
      reads this, table, table.repr
    {
      && this !in table.repr && table !in table.repr
      && table.Valid()
      && Known(users, table.view)
    }

    method Use(r: string, kind: Kind)
      requires Valid()
      modifies `users
      ensures Valid() && r in users && kind in users[r]
      ensures users == old(users)[r := (if r in old(users) then old(users)[r] else {}) + {kind}]
    {
      hide RelationTable.Valid;
      users := users[r := (if r in users then users[r] else {}) + {kind}];
    }

    method Add(r: string, a: TypedKey, b: TypedKey) returns (added: bool)
      requires Valid()
      modifies this, table, table.repr
      ensures Valid() && fresh(table.repr - old(table.repr))
      ensures table.view == WithEdge(old(table.view), r, a, b)
      ensures added <==> !HasEdge(old(table.view), r, a, b)
    {
      hide RelationTable.Valid, Known;
      Use(r, a.kind);
      var s := Slot(r, a.kind, b.kind);
      added := table.Add(s, a.key, b.key);
      KnownSlot(users, old(table.view), s, table.view[s]);
    }

    /** Registers the relation even if there is nothing to remove. */
    method Remove(r: string, a: TypedKey, b: TypedKey) returns (removed: bool)
      requires Valid()
      modifies this, table, table.repr
      ensures Valid() && fresh(table.repr - old(table.repr))
      ensures table.view == WithoutEdge(old(table.view), r, a, b)
      ensures removed <==> HasEdge(old(table.view), r, a, b)
    {
      hide RelationTable.Valid, Known;
      Use(r, a.kind);
      var s := Slot(r, a.kind, b.kind);
      ghost var v := table.view;
      var _ := table.GetRelation(s);
      Overwrite(v, s, EdgesOf(v, s), EdgesOf(v, s) - {(a.key, b.key)});
      hide EdgesOf;
      removed := table.Remove(s, a.key, b.key);
      KnownSlot(users, v, s, table.view[s]);
    }

    method ReplaceKind(r: string, a: TypedKey, k: Kind, keys: seq<Key>) returns (ok: bool)
      requires Valid() && r in users && a.kind in users[r]
      modifies table, table.repr
      ensures Valid() && fresh(table.repr - old(table.repr))
      ensures table.view == old(table.view)[Slot(r, a.kind, k) :=
                Replaced(EdgesOf(old(table.view), Slot(r, a.kind, k)), a.key, set x | x in keys)]
      ensures keys != [] ==> ok
    {
      hide RelationTable.Valid, Known;
      var s := Slot(r, a.kind, k);
      ok := table.Replace(s, a.key, keys);
      KnownSlot(users, old(table.view), s, table.view[s]);
    }

    /** The targets are grouped by kind and the groups set in any order. */
    method Replace(r: string, a: TypedKey, b: seq<TypedKey>) returns (ok: bool)
      requires Valid()
      modifies this, table, table.repr
      ensures Valid() && fresh(table.repr - old(table.repr))
      ensures table.view == Setting(old(table.view), r, a, b, KindsOf(b))
      ensures ok <==> b != []
    {
      hide RelationTable.Valid, Known;
      Use(r, a.kind);
      ok := false;
      SettingNothing(table.view, r, a, b);
      assert b != [] ==> b[0].kind in KindsOf(b);
      assert b == [] ==> KindsOf(b) == {};
      hide *;
      var todo := KindsOf(b);
      while todo != {}
        invariant Valid() && todo <= KindsOf(b) && fresh(table.repr - old(table.repr))
        invariant r in users && a.kind in users[r]
        invariant table.view == Setting(old(table.view), r, a, b, KindsOf(b) - todo)
        invariant ok <==> todo != KindsOf(b)
        decreases todo
      {
        var k :| k in todo;
        SettingStep(old(table.view), r, a, b, KindsOf(b) - todo, k);
        GroupStep(KindsOf(b), todo, k);
        todo := todo - {k};
        KeysOfKind(b, k, a.key);
        var set' := ReplaceKind(r, a, k, KeysOf(b, k));
        ok := set' || ok;
      }
      assert KindsOf(b) - {} == KindsOf(b);
    }

    method RemoveObject(o: TypedKey) returns (ok: bool)
      requires Valid()
      modifies table, table.repr
      ensures Valid()
      ensures table.view == WithoutObject(old(table.view), o)
      ensures table.view != old(table.view) ==> ok
    {
      hide RelationTable.Valid, Known;
      table.KeysAgree();
      var slots := set s | s in table.relations && s.users == o.kind;
      assert slots == SlotsOf(table.view, o.kind);
      ok := table.RemoveObjectFrom(o.key, slots);
      KnownKeys(users, old(table.view), table.view);
    }

    method UsedBy(r: string, a: TypedKey) returns (result: set<TypedKey>)
      requires Valid()
      ensures forall y :: y in result <==> HasEdge(table.view, r, a, y)
    {
      hide RelationTable.Valid, Known;
      result := {};
      table.KeysAgree();
      var todo := set s | s in table.relations && s.relation == r && s.users == a.kind;
      ghost var all := todo;
      while todo != {}
        invariant todo <= all
        invariant forall y :: y in result <==> HasEdge(table.view, r, a, y) && Slot(r, a.kind, y.kind) !in todo
        decreases todo
      {
        var s :| s in todo;
        var row := UsedRow(s, a.key);
        result := result + set x | x in row :: TypedKey(s.used, x);
        todo := todo - {s};
      }
    }

    method UsedRow(s: Slot, a: Key) returns (row: set<Key>)
      requires Valid()
      ensures forall b :: b in row <==> (a, b) in EdgesOf(table.view, s)
    {
      hide RelationTable.Valid, Known;
      forall b {
        UsesAreEdges(EdgesOf(table.view, s), a, b);
      }
      hide Uses, EdgesOf;
      var found := table.UsedBy(s, a);
      row := if found == null then {} else found.keys;
    }

    method UsersFor(r: string, b: TypedKey) returns (result: set<TypedKey>)
      requires Valid()
      ensures forall x :: x in result <==> HasEdge(table.view, r, x, b)
    {
      hide RelationTable.Valid, Known;
      result := {};
      table.KeysAgree();
      var todo := set s | s in table.relations && s.relation == r && s.used == b.kind;
      ghost var all := todo;
      while todo != {}
        invariant todo <= all
        invariant forall x :: x in result <==> HasEdge(table.view, r, x, b) && Slot(r, x.kind, b.kind) !in todo
        decreases todo
      {
        var s :| s in todo;
        var row := UsersRow(s, b.key);
        result := result + set x | x in row :: TypedKey(s.users, x);
        todo := todo - {s};
      }
    }

    method UsersRow(s: Slot, b: Key) returns (row: set<Key>)
      requires Valid()
      ensures forall a :: a in row <==> (a, b) in EdgesOf(table.view, s)
    {
      hide RelationTable.Valid, Known;
      forall a {
        UsesAreEdges(EdgesOf(table.view, s), a, b);
      }
      hide Users, EdgesOf;
      var found := table.UsersFor(s, b);
      row := if found == null then {} else found.keys;
    }

    /** Answers whether the name had been used at all, with edges left or not. */
    method Clear(r: string) returns (ok: bool)
      requires Valid()
      modifies this, table
      ensures Valid() && table.repr == old(table.repr)
      ensures table.view == WithoutRelation(old(table.view), r)
      ensures r !in users && (ok <==> r in old(users) && old(users)[r] != {})
    {
      hide RelationTable.Valid, Known;
      KnownForget(users, table.view, r);
      var slots := set s | s in table.relations && s.relation == r;
      table.KeysAgree();
      assert table.view - slots == WithoutRelation(table.view, r);
      hide WithoutRelation;
      ok := r in users && |users[r]| != 0;
      users := users - {r};
      table.Forget(slots);
    }
  }
}
