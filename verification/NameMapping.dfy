/** Mappings of local names and their composition (mapping/mapping.go). */
module NameMapping {

  /** The entries of a mapping; an empty name counts as no entry. */
  type Entries = map<string, string>

  predicate Has(m: Entries, x: string) {
    x in m && m[x] != ""
  }

  function Map(m: Entries, x: string): string {
    if Has(m, x) then m[x] else x
  }

  function Composed(m: Entries, add: Entries): Entries {
    map x | x in m.Keys + add.Keys ::
      if Has(add, x) || x !in m then add[x] else Map(add, m[x])
  }

  class Mappings {
    var entries: Entries

    constructor (entries: Entries)
      ensures this.entries == entries
    {
      this.entries := entries;
    }

    method Add(local: string, target: string)
      modifies this
      ensures entries == old(entries)[local := target]
      ensures Map(entries, local) == if target == "" then local else target
      ensures forall x :: x != local ==> Map(entries, x) == Map(old(entries), x)
    {
      entries := entries[local := target];
    }
  }

  ghost function EntriesOf(m: Mappings?): Entries
    reads if m == null then {} else {m}
  {
    if m == null then map[] else m.entries
  }

  /** A copy of add in which the names of m that are done have got their targets. */
  ghost predicate Filling(m: Entries, add: Entries, todo: set<string>, r: Entries) {
    && todo <= m.Keys
    && (forall x :: x in r <==> x in add || (x in m && x !in todo))
    && (forall x :: x in r && x in todo ==> r[x] == add[x])
    && (forall x :: x in r && x !in todo ==> r[x] == Composed(m, add)[x])
  }

  lemma FillNext(m: Entries, add: Entries, todo: set<string>, r: Entries, local: string)
    requires Filling(m, add, todo, r) && local in todo
    ensures local in m && Filling(m, add, todo - {local}, if Has(r, local) then r else r[local := Map(add, m[local])])
  {}

  lemma FillStart(m: Entries, add: Entries)
    ensures Filling(m, add, m.Keys, add)
  {}

  lemma FillDone(m: Entries, add: Entries, r: Entries)
    requires Filling(m, add, {}, r)
    ensures r == Composed(m, add)
  {}

  lemma NothingLeft(m: Entries, add: Entries, x: string)
    requires x in add
    ensures x in Composed(m, add)
    ensures Composed(m, add)[x] == "" ==> Composed(m, add)[x := add[x]] == Composed(m, add)
  {}

  /** The result shares the argument that is left if the other one is missing; otherwise it is a new mapping. The
      last loop finds nothing left to do. */
  method ApplyTo(m: Mappings?, add: Mappings?) returns (r: Mappings?)
    ensures EntriesOf(r) == Composed(EntriesOf(m), EntriesOf(add))
    ensures m == null ==> r == add
    ensures m != null && add == null ==> r == m
    ensures m != null && add != null ==> r != null && fresh(r)
  {
    if m == null {
      return add;
    }
    if add == null {
      assert Composed(m.entries, map[]) == m.entries;
      return m;
    }
    hide Filling, Composed;
    var given, added := m.entries, add.entries;
    var entries := added;
    var todo := given.Keys;
    FillStart(given, added);
    while todo != {}
      invariant Filling(given, added, todo, entries)
      decreases |todo|
    {
      var local :| local in todo;
      FillNext(given, added, todo, entries, local);
      todo := todo - {local};
      if local !in entries || entries[local] == "" {
        entries := entries[local := Map(added, given[local])];
      }
    }
    FillDone(given, added, entries);
    todo := added.Keys;
    while todo != {}
      invariant todo <= added.Keys && entries == Composed(given, added)
      decreases |todo|
    {
      var local :| local in todo;
      todo := todo - {local};
      NothingLeft(given, added, local);
      if entries[local] == "" {
        entries := entries[local := added[local]];
      }
    }
    r := new Mappings(entries);
  }

  // ------------------------------------------------------------------------------------------
  // What the composition does

  /** A name that add maps is mapped by add alone, past m; any other one by m and then by add, and an empty target of
      m is taken for a name that add may map. */
  lemma ComposedMaps(m: Entries, add: Entries, x: string)
    ensures Map(Composed(m, add), x) ==
            if Has(add, x) then add[x]
            else if x in m && m[x] == "" then if Has(add, "") then add[""] else x
            else Map(add, Map(m, x))
  {}

  /** The composition is m followed by add exactly if add never maps a name other than what m makes of it. An empty
      target of m is taken for a name that add may map. */
  lemma ComposedExactly(m: Entries, add: Entries)
    ensures (forall x :: Map(Composed(m, add), x) == Map(add, Map(m, x))) <==>
            && (forall x :: Has(m, x) && Has(add, x) ==> Map(add, m[x]) == add[x])
            && (Has(add, "") ==> forall x :: x in m && m[x] == "" && !Has(add, x) ==> add[""] == x)
  {
    forall x {
      ComposedAt(m, add, x);
    }
  }

  lemma ComposedAt(m: Entries, add: Entries, x: string)
    ensures Map(Composed(m, add), x) == Map(add, Map(m, x)) <==>
            && (Has(m, x) && Has(add, x) ==> Map(add, m[x]) == add[x])
            && (Has(add, "") && x in m && m[x] == "" && !Has(add, x) ==> add[""] == x)
  {}

  /** When composing in one order or the other makes the same of a name. Without empty targets it does, unless m alone
      maps the name to one that both later mappings map, and the last one not as it maps what the other makes of it. */
  lemma AssociativeExactly(m: Entries, a: Entries, b: Entries, x: string)
    ensures Map(Composed(Composed(m, a), b), x) == Map(Composed(m, Composed(a, b)), x) <==>
            (x in m && !Has(a, x) && !Has(b, x) ==>
              // an empty target in a at x, or at what m makes of it, is taken for a name by b
              if x in a && Has(b, "") then Map(b, Map(a, m[x])) == b[""]
              else if Has(b, m[x]) then Has(a, m[x]) ==> Map(b, a[m[x]]) == b[m[x]]
              else Has(b, "") && m[x] in a && a[m[x]] == "" ==> b[""] == m[x])
  {
    ComposedHas(a, b, x);
    ComposedEntry(m, a, x);
    if x in m {
      ComposedMaps(a, b, m[x]);
      ComposedHas(a, b, "");
      ComposedMaps(a, b, "");
    }
    ComposedMaps(Composed(m, a), b, x);
    ComposedMaps(m, Composed(a, b), x);
    ComposedMaps(a, b, x);
    hide Composed;
  }

  lemma ComposedHas(a: Entries, b: Entries, x: string)
    ensures Has(Composed(a, b), x) <==> Has(b, x) || Has(a, x) || (x in a && Has(b, ""))
    ensures Has(Composed(a, b), x) ==> Composed(a, b)[x] == Map(Composed(a, b), x)
  {}

  lemma ComposedEntry(m: Entries, a: Entries, x: string)
    ensures x in Composed(m, a) <==> x in m || x in a
    ensures x in m ==> Composed(m, a)[x] == if Has(a, x) then a[x] else Map(a, m[x])
    ensures x !in m && x in a ==> Composed(m, a)[x] == a[x]
  {}

  lemma CompositionIsNotAssociative()
    ensures var m, a, b := map["x" := "y"], map["y" := "z"], map["y" := "w"];
            && Map(Composed(Composed(m, a), b), "x") == "z"
            && Map(Composed(m, Composed(a, b)), "x") == "w"
  {
    var m, a, b := map["x" := "y"], map["y" := "z"], map["y" := "w"];
    ComposedMaps(Composed(m, a), b, "x");
    ComposedMaps(m, a, "x");
    ComposedMaps(m, Composed(a, b), "x");
    ComposedMaps(a, b, "y");
  }
}
