/** Index lookups by object key, in a fleet (cluster/fleet/kcp/index.go) and in a single cluster
    (cluster/cluster/index.go). */
module Lookup {
  import opened Wrappers
  import opened Keys
  import Text

  /** A cached object: the logical cluster it is from, and its values for the index asked for. */
  datatype Obj = Obj(cluster: string, namespace: string, name: string, values: set<string>)

  /** The cache of one shard or cluster; its queries may fail, the first and the second one independently. */
  datatype Cache = Cache(objects: seq<Obj>, firstFails: bool, secondFails: bool)

  datatype Error = ListFailed

  /** The objects with an index value, in the order of the cache. */
  function Query(objects: seq<Obj>, value: string): seq<Obj> {
    if objects == [] then []
    else
      var last := objects[|objects| - 1];
      var front := Query(objects[..|objects| - 1], value);
      if value in last.values then front + [last] else front
  }

  /** How objects are named: by the name of the member of a fleet they are from, or of the only cluster. */
  datatype Naming = MemberOf(fleet: string) | AllIn(cluster: string) {
    function ClusterOf(o: Obj): string {
      if MemberOf? then Compose(fleet, o.cluster) else cluster
    }

    function KeyOf(o: Obj): GlobalKey {
      GlobalKey(ClusterOf(o), o.namespace, o.name)
    }
  }

  function WithName(naming: Naming, names: seq<GlobalKey>, o: Obj, cluster: Option<string>): seq<GlobalKey> {
    if cluster.Some? && naming.ClusterOf(o) != cluster.value then names else names + [naming.KeyOf(o)]
  }

  /** names, followed by those of the objects that are in a cluster, if one is given. */
  function WithNames(naming: Naming, names: seq<GlobalKey>, objects: seq<Obj>, cluster: Option<string>)
    : seq<GlobalKey>
  {
    if objects == [] then names
    else
      WithName(naming, WithNames(naming, names, objects[..|objects| - 1], cluster), objects[|objects| - 1], cluster)
  }

  lemma NextName(naming: Naming, names: seq<GlobalKey>, list: seq<Obj>, k: nat, cluster: Option<string>)
    requires k < |list|
    ensures WithNames(naming, names, list[..k + 1], cluster)
            == WithName(naming, WithNames(naming, names, list[..k], cluster), list[k], cluster)
  {
    assert list[..k + 1][..k] == list[..k];
  }

  lemma AllNames(naming: Naming, names: seq<GlobalKey>, list: seq<Obj>, cluster: Option<string>)
    ensures WithNames(naming, names, list[..|list|], cluster) == WithNames(naming, names, list, cluster)
    ensures WithNames(naming, names, list[..0], cluster) == names
  {
    assert list[..|list|] == list;
  }

  function FirstQuery(naming: Naming, names: seq<GlobalKey>, objects: seq<Obj>, key: TypedKey): seq<GlobalKey> {
    WithNames(naming, names, Query(objects, key.AsKey(true)), None)
  }

  function SecondQuery(naming: Naming, names: seq<GlobalKey>, objects: seq<Obj>, key: TypedKey): seq<GlobalKey> {
    WithNames(naming, names, Query(objects, key.AsLocalKey().AsKey(true)), Some(key.cluster))
  }

  function OfCaches(naming: Naming, caches: seq<Cache>, key: TypedKey): seq<GlobalKey> {
    if caches == [] then []
    else
      var last := caches[|caches| - 1];
      var before := OfCaches(naming, caches[..|caches| - 1], key);
      SecondQuery(naming, FirstQuery(naming, before, last.objects, key), last.objects, key)
  }

  lemma NextCache(naming: Naming, caches: seq<Cache>, i: nat, key: TypedKey)
    requires i < |caches|
    ensures OfCaches(naming, caches[..i + 1], key)
            == SecondQuery(naming, FirstQuery(naming, OfCaches(naming, caches[..i], key), caches[i].objects, key),
                           caches[i].objects, key)
  {
    hide SecondQuery, FirstQuery;
    assert caches[..i + 1][..i] == caches[..i];
  }

  predicate Fails(cache: Cache) {
    cache.firstFails || cache.secondFails
  }

  predicate SomeFails(caches: seq<Cache>) {
    exists i :: 0 <= i < |caches| && Fails(caches[i])
  }

  lemma FailsMeaning(caches: seq<Cache>)
    ensures SomeFails(caches) <==> exists i :: 0 <= i < |caches| && (caches[i].firstFails || caches[i].secondFails)
  {
    if i :| 0 <= i < |caches| && (caches[i].firstFails || caches[i].secondFails) {
      assert Fails(caches[i]);
    }
  }

  lemma SomeFailsNext(caches: seq<Cache>, i: nat)
    requires i < |caches|
    ensures SomeFails(caches[..i + 1]) <==> SomeFails(caches[..i]) || Fails(caches[i])
    ensures Fails(caches[i]) ==> SomeFails(caches)
  {
    hide Fails;
    assert caches[..i + 1] == caches[..i] + [caches[i]];
    if SomeFails(caches[..i]) {
      var j :| 0 <= j < i && Fails(caches[..i][j]);
      assert Fails(caches[..i + 1][j]);
    }
    if Fails(caches[i]) {
      assert Fails(caches[..i + 1][i]);
    }
  }

  /** The queries to one shard; their results are added to those of the shards before. */
  method ListInShard(fleet: string, before: seq<GlobalKey>, cache: Cache, key: TypedKey)
    returns (r: Result<seq<GlobalKey>, Error>)
    ensures r == if Fails(cache) then Err(ListFailed)
                 else Ok(SecondQuery(MemberOf(fleet), FirstQuery(MemberOf(fleet), before, cache.objects, key),
                                     cache.objects, key))
  {
    hide TypedKey.AsKey, Compose, Query, WithNames;
    ghost var naming := MemberOf(fleet);
    if cache.firstFails {
      return Err(ListFailed);
    }
    var results := before;
    var list := Query(cache.objects, key.AsKey(true));
    AllNames(naming, before, list, None);
    for k := 0 to |list|
      invariant results == WithNames(naming, before, list[..k], None)
    {
      NextName(naming, before, list, k, None);
      var e := list[k];
      results := results + [GlobalKey(Compose(fleet, e.cluster), e.namespace, e.name)];
    }
    if cache.secondFails {
      return Err(ListFailed);
    }
    ghost var first := results;
    list := Query(cache.objects, key.AsLocalKey().AsKey(true));
    AllNames(naming, first, list, Some(key.cluster));
    for k := 0 to |list|
      invariant results == WithNames(naming, first, list[..k], Some(key.cluster))
    {
      NextName(naming, first, list, k, Some(key.cluster));
      var e := list[k];
      var c := Compose(fleet, e.cluster);
      if c != key.cluster {
        continue;
      }
      results := results + [GlobalKey(c, e.namespace, e.name)];
    }
    return Ok(results);
  }

  method ListInFleet(fleet: string, caches: seq<Cache>, key: TypedKey)
    returns (r: Result<seq<GlobalKey>, Error>)
    ensures r == if SomeFails(caches) then Err(ListFailed) else Ok(OfCaches(MemberOf(fleet), caches, key))
    ensures r.Err? <==> exists i :: 0 <= i < |caches| && (caches[i].firstFails || caches[i].secondFails)
  {
    FailsMeaning(caches);
    var results: seq<GlobalKey> := [];
    assert results == OfCaches(MemberOf(fleet), caches[..0], key);
    hide FirstQuery, SecondQuery, OfCaches, SomeFails, Fails;
    for i := 0 to |caches|
      invariant !SomeFails(caches[..i])
      invariant results == OfCaches(MemberOf(fleet), caches[..i], key)
    {
      SomeFailsNext(caches, i);
      NextCache(MemberOf(fleet), caches, i, key);
      var shard := ListInShard(fleet, results, caches[i], key);
      if shard.Err? {
        return shard;
      }
      results := shard.value;
    }
    assert caches[..|caches|] == caches;
    return Ok(results);
  }

  method ListInCluster(name: string, cache: Cache, key: TypedKey) returns (r: Result<seq<GlobalKey>, Error>)
    ensures r == if cache.firstFails || (key.cluster == name && cache.secondFails) then Err(ListFailed)
                 else Ok(OfCaches(AllIn(name), [cache], key))
  {
    ghost var naming := AllIn(name);
    assert OfCaches(naming, [], key) == [] && [cache][..1] == [cache] && [cache][..0] == [];
    NextCache(naming, [cache], 0, key);
    hide TypedKey.AsKey, Query, WithNames, OfCaches;
    if cache.firstFails {
      return Err(ListFailed);
    }
    var list := Query(cache.objects, key.AsKey(true));
    AllNames(naming, [], list, None);
    var results: seq<GlobalKey> := [];
    for k := 0 to |list|
      invariant results == WithNames(naming, [], list[..k], None)
    {
      NextName(naming, [], list, k, None);
      results := results + [GlobalKey(name, list[k].namespace, list[k].name)];
    }
    ghost var first := results;
    list := Query(cache.objects, key.AsLocalKey().AsKey(true));
    AllNames(naming, first, list, Some(key.cluster));
    if key.cluster == name {
      if cache.secondFails {
        return Err(ListFailed);
      }
      for k := 0 to |list|
        invariant results == WithNames(naming, first, list[..k], Some(key.cluster))
      {
        NextName(naming, first, list, k, Some(key.cluster));
        results := results + [GlobalKey(name, list[k].namespace, list[k].name)];
      }
    } else {
      NamesElsewhere(name, first, list, key.cluster);
    }
    return Ok(results);
  }

  lemma {:induction false} NamesElsewhere(name: string, names: seq<GlobalKey>, list: seq<Obj>, cluster: string)
    requires name != cluster
    ensures WithNames(AllIn(name), names, list, Some(cluster)) == names
  {
    if list != [] {
      NamesElsewhere(name, names, list[..|list| - 1], cluster);
    }
  }

  // ------------------------------------------------------------------------------------------
  // The simple filter

  /** The index values of an object that mean the key, taken in the object's own cluster. */
  function Hits(naming: Naming, o: Obj, key: TypedKey): set<string> {
    set v | v in o.values && Normalized(naming.ClusterOf(o), v) == key.AsKey(true)
  }

  /** How often a filter reports g: once for every value of an object named g that means the key. */
  function Filtered(naming: Naming, objects: seq<Obj>, key: TypedKey, g: GlobalKey): nat {
    if objects == [] then 0
    else
      var last := objects[|objects| - 1];
      Filtered(naming, objects[..|objects| - 1], key, g)
      + if naming.KeyOf(last) == g then |Hits(naming, last, key)| else 0
  }

  function AllObjects(caches: seq<Cache>): seq<Obj> {
    if caches == [] then [] else AllObjects(caches[..|caches| - 1]) + caches[|caches| - 1].objects
  }

  function Reports(naming: Naming, o: Obj, value: string, cluster: Option<string>, g: GlobalKey): nat {
    if value in o.values && naming.KeyOf(o) == g && (cluster == None || cluster == Some(g.cluster)) then 1 else 0
  }

  lemma NextFound(objects: seq<Obj>, last: Obj, value: string)
    ensures Query(objects + [last], value)
            == if value in last.values then Query(objects, value) + [last] else Query(objects, value)
  {}

  /** How often a query adds a name. */
  function Added(naming: Naming, objects: seq<Obj>, value: string, cluster: Option<string>, g: GlobalKey): nat {
    multiset(WithNames(naming, [], Query(objects, value), cluster))[g]
  }

  lemma {:induction false} NamesAreAdded(naming: Naming, names: seq<GlobalKey>, list: seq<Obj>,
                                         cluster: Option<string>, g: GlobalKey)
    ensures multiset(WithNames(naming, names, list, cluster))[g]
            == multiset(names)[g] + multiset(WithNames(naming, [], list, cluster))[g]
  {
    if list != [] {
      NamesAreAdded(naming, names, list[..|list| - 1], cluster, g);
    }
  }

  lemma QueryLast(naming: Naming, objects: seq<Obj>, last: Obj, value: string, cluster: Option<string>, g: GlobalKey)
    ensures Added(naming, objects + [last], value, cluster, g)
            == Added(naming, objects, value, cluster, g) + Reports(naming, last, value, cluster, g)
  {
    hide Query, WithNames;
    var found := Query(objects, value);
    NextFound(objects, last, value);
    if value in last.values {
      NextName(naming, [], found + [last], |found|, cluster);
      assert (found + [last])[..|found|] == found && (found + [last])[..|found| + 1] == found + [last];
    }
  }

  lemma HitsExactly(naming: Naming, o: Obj, key: TypedKey)
    requires Headless(naming.ClusterOf(o)) && Slashless(key.cluster) && key.cluster != ""
    ensures Hits(naming, o, key)
            == (if key.AsKey(true) in o.values then {key.AsKey(true)} else {})
               + (if key.AsLocalKey().AsKey(true) in o.values && naming.ClusterOf(o) == key.cluster
                  then {key.AsLocalKey().AsKey(true)} else {})
  {
    hide TypedKey.AsKey, Normalized;
    forall v {
      NormalizedExactly(naming.ClusterOf(o), v, key);
    }
  }

  lemma HitCount(naming: Naming, o: Obj, key: TypedKey, g: GlobalKey)
    requires naming.KeyOf(o) == g && Headless(g.cluster) && Slashless(key.cluster) && key.cluster != ""
    ensures |Hits(naming, o, key)| == Reports(naming, o, key.AsKey(true), None, g)
                                      + Reports(naming, o, key.AsLocalKey().AsKey(true), Some(key.cluster), g)
  {
    hide TypedKey.AsKey, Hits;
    HitsExactly(naming, o, key);
    NormalizedExactly(g.cluster, key.AsKey(true), key);
  }

  /** No cluster of an object has a slash behind a first part of its name. */
  predicate HeadlessClusters(naming: Naming, objects: seq<Obj>) {
    forall i :: 0 <= i < |objects| ==> Headless(naming.ClusterOf(objects[i]))
  }

  lemma {:induction false} CacheFiltersExactly(naming: Naming, objects: seq<Obj>, key: TypedKey, g: GlobalKey)
    requires HeadlessClusters(naming, objects) && Slashless(key.cluster) && key.cluster != ""
    ensures Added(naming, objects, key.AsKey(true), None, g)
            + Added(naming, objects, key.AsLocalKey().AsKey(true), Some(key.cluster), g)
            == Filtered(naming, objects, key, g)
  {
    if objects != [] {
      hide TypedKey.AsKey, Query, WithNames, Hits, Added;
      var front, last := objects[..|objects| - 1], objects[|objects| - 1];
      assert objects == front + [last];
      CacheFiltersExactly(naming, front, key, g);
      QueryLast(naming, front, last, key.AsKey(true), None, g);
      QueryLast(naming, front, last, key.AsLocalKey().AsKey(true), Some(key.cluster), g);
      if naming.KeyOf(last) == g {
        HitCount(naming, last, key, g);
      }
    }
  }

  lemma QueriesAdd(naming: Naming, names: seq<GlobalKey>, objects: seq<Obj>, key: TypedKey, g: GlobalKey)
    ensures multiset(SecondQuery(naming, FirstQuery(naming, names, objects, key), objects, key))[g]
            == multiset(names)[g] + Added(naming, objects, key.AsKey(true), None, g)
               + Added(naming, objects, key.AsLocalKey().AsKey(true), Some(key.cluster), g)
  {
    hide TypedKey.AsKey, Query, WithNames;
    NamesAreAdded(naming, names, Query(objects, key.AsKey(true)), None, g);
    NamesAreAdded(naming, FirstQuery(naming, names, objects, key), Query(objects, key.AsLocalKey().AsKey(true)),
                  Some(key.cluster), g);
  }

  lemma {:induction false} FilteredAppend(naming: Naming, a: seq<Obj>, b: seq<Obj>, key: TypedKey, g: GlobalKey)
    ensures Filtered(naming, a + b, key, g) == Filtered(naming, a, key, g) + Filtered(naming, b, key, g)
  {
    if b == [] {
      assert a + b == a;
    } else {
      hide Hits, Naming.KeyOf;
      var front := b[..|b| - 1];
      FilteredAppend(naming, a, front, key, g);
      assert (a + b)[..|a + b| - 1] == a + front && (a + b)[|a + b| - 1] == b[|b| - 1];
    }
  }

  lemma HeadlessParts(naming: Naming, a: seq<Obj>, b: seq<Obj>)
    requires HeadlessClusters(naming, a + b)
    ensures HeadlessClusters(naming, a) && HeadlessClusters(naming, b)
  {
    assert forall i :: 0 <= i < |a| ==> a[i] == (a + b)[i];
    assert forall i :: 0 <= i < |b| ==> b[i] == (a + b)[|a| + i];
  }

  /** The two queries over all caches report exactly what the filter over all objects reports, and as often, for
      names of clusters without slash and a key with a cluster. */
  lemma {:induction false} LookupIsFilter(naming: Naming, caches: seq<Cache>, key: TypedKey, g: GlobalKey)
    requires HeadlessClusters(naming, AllObjects(caches)) && Slashless(key.cluster) && key.cluster != ""
    ensures multiset(OfCaches(naming, caches, key))[g] == Filtered(naming, AllObjects(caches), key, g)
  {
    if caches != [] {
      hide TypedKey.AsKey, Hits, HeadlessClusters, FirstQuery, SecondQuery, Filtered, Added;
      var n := |caches| - 1;
      var front, last := AllObjects(caches[..n]), caches[n].objects;
      HeadlessParts(naming, front, last);
      LookupIsFilter(naming, caches[..n], key, g);
      CacheFiltersExactly(naming, last, key, g);
      QueriesAdd(naming, OfCaches(naming, caches[..n], key), last, key, g);
      FilteredAppend(naming, front, last, key, g);
    }
  }

  lemma {:induction false} FilteredHas(naming: Naming, objects: seq<Obj>, key: TypedKey, g: GlobalKey)
    ensures Filtered(naming, objects, key, g) > 0 <==>
            exists o :: o in objects && naming.KeyOf(o) == g && Hits(naming, o, key) != {}
  {
    hide Hits;
    if objects != [] {
      FilteredHas(naming, objects[..|objects| - 1], key, g);
      var last := objects[|objects| - 1];
      assert forall o :: o in objects <==> o in objects[..|objects| - 1] || o == last;
    }
  }

  lemma {:induction false} CachedObjects(caches: seq<Cache>, o: Obj)
    ensures o in AllObjects(caches) <==> exists i :: 0 <= i < |caches| && o in caches[i].objects
  {
    if caches != [] {
      CachedObjects(caches[..|caches| - 1], o);
    }
  }

  /** What a lookup finds: the key of every object that has an index value which means the key asked for. */
  ghost predicate Found(naming: Naming, caches: seq<Cache>, key: TypedKey, g: GlobalKey) {
    exists i, o, v ::
      && 0 <= i < |caches| && o in caches[i].objects && v in o.values
      && g.cluster == naming.ClusterOf(o) && g.namespace == o.namespace && g.name == o.name
      && Normalized(naming.ClusterOf(o), v) == key.AsKey(true)
  }

  lemma FoundExactly(naming: Naming, caches: seq<Cache>, key: TypedKey, g: GlobalKey)
    requires forall i, o :: 0 <= i < |caches| && o in caches[i].objects ==> Headless(naming.ClusterOf(o))
    requires Slashless(key.cluster) && key.cluster != ""
    ensures g in OfCaches(naming, caches, key) <==> Found(naming, caches, key, g)
  {
    hide TypedKey.AsKey, Query, WithNames, Filtered, OfCaches, AllObjects, Headless, Normalized, Naming.ClusterOf;
    var all := AllObjects(caches);
    forall o {
      CachedObjects(caches, o);
    }
    assert forall k :: 0 <= k < |all| ==> all[k] in all;
    LookupIsFilter(naming, caches, key, g);
    FilteredHas(naming, all, key, g);
    if o :| o in all && naming.KeyOf(o) == g && Hits(naming, o, key) != {} {
      var v :| v in Hits(naming, o, key);
      var i :| 0 <= i < |caches| && o in caches[i].objects;
      assert Found(naming, caches, key, g);
    }
    if Found(naming, caches, key, g) {
      var i, o, v :| && 0 <= i < |caches| && o in caches[i].objects && v in o.values
        && g.cluster == naming.ClusterOf(o) && g.namespace == o.namespace && g.name == o.name
        && Normalized(naming.ClusterOf(o), v) == key.AsKey(true);
      assert v in Hits(naming, o, key) && naming.KeyOf(o) == g && o in all;
    }
  }

  /** A lookup in a fleet finds exactly the objects of all shards with an index value that means the key, under the
      name of the member they are from. */
  lemma FleetLookupExactly(fleet: string, caches: seq<Cache>, key: TypedKey, g: GlobalKey)
    requires forall i, o :: 0 <= i < |caches| && o in caches[i].objects ==> Headless(Compose(fleet, o.cluster))
    requires Slashless(key.cluster) && key.cluster != ""
    ensures g in OfCaches(MemberOf(fleet), caches, key) <==>
            exists i, o, v ::
              && 0 <= i < |caches| && o in caches[i].objects && v in o.values
              && g == GlobalKey(Compose(fleet, o.cluster), o.namespace, o.name)
              && NormalizeKeyString(fleet, o.cluster, v) == key.AsKey(true)
  {
    var naming := MemberOf(fleet);
    hide TypedKey.AsKey, OfCaches, Headless, Normalized, Compose;
    FoundExactly(naming, caches, key, g);
    if i, o, v :| && 0 <= i < |caches| && o in caches[i].objects && v in o.values
                  && g == GlobalKey(Compose(fleet, o.cluster), o.namespace, o.name)
                  && NormalizeKeyString(fleet, o.cluster, v) == key.AsKey(true) {
      FoundAt(naming, caches, key, g, i, o, v);
    }
    if Found(naming, caches, key, g) {
      var i, o, v := FoundFrom(naming, caches, key, g);
      assert NormalizeKeyString(fleet, o.cluster, v) == key.AsKey(true);
    }
  }

  lemma FoundAt(naming: Naming, caches: seq<Cache>, key: TypedKey, g: GlobalKey, i: nat, o: Obj, v: string)
    requires i < |caches| && o in caches[i].objects && v in o.values
    requires g == GlobalKey(naming.ClusterOf(o), o.namespace, o.name)
    requires Normalized(naming.ClusterOf(o), v) == key.AsKey(true)
    ensures Found(naming, caches, key, g)
  {
    hide TypedKey.AsKey, Normalized, Naming.ClusterOf;
  }

  lemma FoundFrom(naming: Naming, caches: seq<Cache>, key: TypedKey, g: GlobalKey) returns (i: nat, o: Obj, v: string)
    requires Found(naming, caches, key, g)
    ensures i < |caches| && o in caches[i].objects && v in o.values
    ensures g == GlobalKey(naming.ClusterOf(o), o.namespace, o.name)
    ensures Normalized(naming.ClusterOf(o), v) == key.AsKey(true)
  {
    hide TypedKey.AsKey, Normalized, Naming.ClusterOf;
    i, o, v :| && 0 <= i < |caches| && o in caches[i].objects && v in o.values
      && g.cluster == naming.ClusterOf(o) && g.namespace == o.namespace && g.name == o.name
      && Normalized(naming.ClusterOf(o), v) == key.AsKey(true);
  }

  /** A lookup in a single cluster finds the same, whatever logical clusters its objects belong to. */
  lemma ClusterLookupExactly(name: string, cache: Cache, key: TypedKey, g: GlobalKey)
    requires Headless(name) && Slashless(key.cluster) && key.cluster != ""
    ensures g in OfCaches(AllIn(name), [cache], key) <==>
            exists o, v :: o in cache.objects && v in o.values && g == GlobalKey(name, o.namespace, o.name)
                           && Normalized(name, v) == key.AsKey(true)
  {
    FoundExactly(AllIn(name), [cache], key, g);
    hide TypedKey.AsKey, OfCaches, Headless, Normalized;
    if o, v :| o in cache.objects && v in o.values && g == GlobalKey(name, o.namespace, o.name)
               && Normalized(name, v) == key.AsKey(true) {
      assert o in [cache][0].objects;
      assert Found(AllIn(name), [cache], key, g);
    }
  }

  lemma {:induction false} NamesAppend(naming: Naming, names: seq<GlobalKey>, list: seq<Obj>, cluster: Option<string>)
    ensures WithNames(naming, names, list, cluster) == names + WithNames(naming, [], list, cluster)
  {
    if list != [] {
      NamesAppend(naming, names, list[..|list| - 1], cluster);
    }
  }

  /** The results come shard by shard, each in the order of the shard: first all for the key itself, then those for its
      local form. */
  lemma ResultsInOrder(naming: Naming, caches: seq<Cache>, cache: Cache, key: TypedKey)
    ensures OfCaches(naming, caches + [cache], key) ==
            OfCaches(naming, caches, key) + WithNames(naming, [], Query(cache.objects, key.AsKey(true)), None)
              + WithNames(naming, [], Query(cache.objects, key.AsLocalKey().AsKey(true)), Some(key.cluster))
  {
    hide TypedKey.AsKey, Query, WithNames;
    assert (caches + [cache])[..|caches|] == caches;
    var before := OfCaches(naming, caches, key);
    NamesAppend(naming, before, Query(cache.objects, key.AsKey(true)), None);
    var first := FirstQuery(naming, before, cache.objects, key);
    NamesAppend(naming, first, Query(cache.objects, key.AsLocalKey().AsKey(true)), Some(key.cluster));
  }

  lemma SingleObject(naming: Naming, o: Obj, key: TypedKey, g: GlobalKey)
    ensures multiset(OfCaches(naming, [Cache([o], false, false)], key))[g]
            == Reports(naming, o, key.AsKey(true), None, g)
               + Reports(naming, o, key.AsLocalKey().AsKey(true), Some(key.cluster), g)
  {
    var caches := [Cache([o], false, false)];
    assert caches[..1] == caches && caches[..0] == [] && OfCaches(naming, [], key) == [];
    NextCache(naming, caches, 0, key);
    assert [] + [o] == [o];
    hide TypedKey.AsKey, FirstQuery, SecondQuery, OfCaches, Reports;
    QueriesAdd(naming, [], [o], key, g);
    QueryLast(naming, [], o, key.AsKey(true), None, g);
    QueryLast(naming, [], o, key.AsLocalKey().AsKey(true), Some(key.cluster), g);
  }

  /** A key without a cluster is found in every cluster, although the value means another key in each. */
  lemma KeyWithoutClusterFindsTooMuch(fleet: string, o: Obj, key: TypedKey)
    requires key.cluster == "" && fleet != "" && o.values == {key.AsKey(true)}
    ensures MemberOf(fleet).KeyOf(o) in OfCaches(MemberOf(fleet), [Cache([o], false, false)], key)
    ensures NormalizeKeyString(fleet, o.cluster, key.AsKey(true)) != key.AsKey(true)
  {
    assert key.AsKey(true)[0] == SEPARATOR;
    hide TypedKey.AsKey, OfCaches;
    SingleObject(MemberOf(fleet), o, key, MemberOf(fleet).KeyOf(o));
  }

  /** With a slash behind a first part of a cluster name, a value that means a key is missed. */
  lemma SlashedClusterIsMissed(fleet: string, cluster: string, p: string, q: string, g: GlobalKey)
    requires Compose(fleet, cluster) == p + [SEPARATOR] + q && p != "" && Slashless(p)
    ensures var o, key := Obj(cluster, "x", "y", {"/n"}), TypedKey(p, "", "", q, "n");
      && NormalizeKeyString(fleet, cluster, "/n") == key.AsKey(true)
      && g !in OfCaches(MemberOf(fleet), [Cache([o], false, false)], key)
  {
    HeadMisleads(Compose(fleet, cluster), p, q);
    hide OfCaches, TypedKey.AsKey, Compose;
    SingleObject(MemberOf(fleet), Obj(cluster, "x", "y", {"/n"}), TypedKey(p, "", "", q, "n"), g);
  }

  /** The lookup in a fleet agrees with the filter for an object, whatever its values and whatever key with a slash-free
      cluster is asked for, exactly if the name of its cluster has no slash behind a first part. */
  lemma LookupAgreesExactly(fleet: string, cluster: string)
    ensures Headless(Compose(fleet, cluster)) <==>
            forall o: Obj, key: TypedKey, g: GlobalKey
              | o.cluster == cluster && Slashless(key.cluster) && key.cluster != "" ::
              g in OfCaches(MemberOf(fleet), [Cache([o], false, false)], key) <==>
              MemberOf(fleet).KeyOf(o) == g && Hits(MemberOf(fleet), o, key) != {}
  {
    if Headless(Compose(fleet, cluster)) {
      forall o: Obj, key: TypedKey, g: GlobalKey | o.cluster == cluster && Slashless(key.cluster) && key.cluster != ""
        ensures g in OfCaches(MemberOf(fleet), [Cache([o], false, false)], key) <==>
                MemberOf(fleet).KeyOf(o) == g && Hits(MemberOf(fleet), o, key) != {}
      {
        SingleObjectAgrees(fleet, o, key, g);
      }
    } else {
      var c := Compose(fleet, cluster);
      var i := Text.IndexOf(c, SEPARATOR);
      var p, q := c[..i], c[i + 1..];
      assert c == p + [SEPARATOR] + q;
      MissedIsHit(fleet, cluster, p, q);
    }
  }

  lemma SingleObjectAgrees(fleet: string, o: Obj, key: TypedKey, g: GlobalKey)
    requires Headless(Compose(fleet, o.cluster)) && Slashless(key.cluster) && key.cluster != ""
    ensures g in OfCaches(MemberOf(fleet), [Cache([o], false, false)], key) <==>
            MemberOf(fleet).KeyOf(o) == g && Hits(MemberOf(fleet), o, key) != {}
  {
    hide OfCaches, TypedKey.AsKey, Compose, Hits;
    SingleObject(MemberOf(fleet), o, key, g);
    if MemberOf(fleet).KeyOf(o) == g {
      HitCount(MemberOf(fleet), o, key, g);
    }
  }

  lemma MissedIsHit(fleet: string, cluster: string, p: string, q: string)
    requires Compose(fleet, cluster) == p + [SEPARATOR] + q && p != "" && Slashless(p)
    ensures var o, key := Obj(cluster, "x", "y", {"/n"}), TypedKey(p, "", "", q, "n");
            var g := MemberOf(fleet).KeyOf(o);
      g !in OfCaches(MemberOf(fleet), [Cache([o], false, false)], key) && Hits(MemberOf(fleet), o, key) != {}
  {
    var o, key := Obj(cluster, "x", "y", {"/n"}), TypedKey(p, "", "", q, "n");
    SlashedClusterIsMissed(fleet, cluster, p, q, MemberOf(fleet).KeyOf(o));
    hide OfCaches, TypedKey.AsKey, Compose;
    assert "/n" in Hits(MemberOf(fleet), o, key);
  }
}
