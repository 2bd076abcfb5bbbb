/** The mapping from replicas to originals, which owns the target namespaces
    (controller/replication/mapping.go). */
module ReplicationMapping {
  import opened Wrappers

  type Kind = string

  datatype Key = Key(namespace: string, name: string)

  datatype Request = Request(cluster: string, key: Key)

  datatype NamespaceState = Active | Terminating

  /** How an API call that changes something ends: as asked, refused, or carried out with the answer lost. */
  datatype Fault = NoFault | Refused | AnswerLost

  type Entries = map<string, map<string, Request>>

  type Namespaces = map<string, NamespaceState>

  // ------------------------------------------------------------------------------------------
  // The specification: entries per kind next to the namespaces of the target cluster

  datatype World = World(entries: map<Kind, Entries>, namespaces: Namespaces)

  /** The entries that refer to a namespace. */
  function Refs(entries: map<Kind, Entries>, ns: string): set<(Kind, string)> {
    set k, n | k in entries && ns in entries[k] && n in entries[k][ns] :: (k, n)
  }

  predicate NoEmptyInner(e: Entries) {
    forall ns :: ns in e ==> e[ns] != map[]
  }

  function EntriesOf(entries: map<Kind, Entries>, kind: Kind): Entries {
    if kind in entries then entries[kind] else map[]
  }

  predicate Recorded(entries: map<Kind, Entries>, kind: Kind, key: Key) {
    kind in entries && key.namespace in entries[kind] && key.name in entries[kind][key.namespace]
  }

  function Added(e: Entries, key: Key, tgt: Request): Entries {
    e[key.namespace := (if key.namespace in e then e[key.namespace] else map[])[key.name := tgt]]
  }

  function Removed(e: Entries, key: Key): Entries {
    if key.namespace !in e then e
    else
      var rest := e[key.namespace] - {key.name};
      if rest == map[] then e - {key.namespace} else e[key.namespace := rest]
  }

  lemma UpdatesKeepInner(e: Entries, key: Key, tgt: Request)
    requires NoEmptyInner(e)
    ensures NoEmptyInner(Added(e, key, tgt)) && NoEmptyInner(Removed(e, key))
  {
    assert key.name in Added(e, key, tgt)[key.namespace];
  }

  /** Namespaces and answer of assureNamespace. */
  function Assure(nss: Namespaces, ns: string, getFails: bool, create: Fault): (Namespaces, bool) {
    if getFails then (nss, false)
    else if ns in nss then (nss, nss[ns].Active?)
    else match create
      case NoFault => (nss[ns := Active], true)
      case Refused => (nss, false)
      case AnswerLost => (nss[ns := Active], false)
  }

  function Terminate(nss: Namespaces, ns: string): Namespaces {
    if ns in nss then nss[ns := Terminating] else nss
  }

  function SetStep(w: World, kind: Kind, key: Key, tgt: Request, getFails: bool, create: Fault): (World, bool) {
    var (nss, ok) := Assure(w.namespaces, key.namespace, getFails, create);
    if ok then (World(w.entries[kind := Added(EntriesOf(w.entries, kind), key, tgt)], nss), true)
    else (World(w.entries, nss), false)
  }

  /** A delete is issued iff nothing but the entry to be removed refers to the namespace. */
  function IssuesDelete(entries: map<Kind, Entries>, kind: Kind, key: Key): bool {
    Refs(entries, key.namespace) <= {(kind, key.name)}
  }

  function RemoveStep(w: World, kind: Kind, key: Key, delete: Fault): (World, bool) {
    var issued := IssuesDelete(w.entries, kind, key);
    var nss := if issued && delete != Refused then Terminate(w.namespaces, key.namespace) else w.namespaces;
    if issued && delete != NoFault then (World(w.entries, nss), false)
    else (World(w.entries[kind := Removed(EntriesOf(w.entries, kind), key)], nss), true)
  }

  // ------------------------------------------------------------------------------------------
  // The implementation

  /** The target cluster as far as namespaces are concerned, with a log of issued deletes. */
  class Api {
    var namespaces: Namespaces
    var deletes: seq<string>

    constructor ()
      ensures namespaces == map[] && deletes == []
    {
      namespaces, deletes := map[], [];
    }

    method Create(ns: string, fault: Fault) returns (ok: bool)
      requires ns !in namespaces
      modifies this
      ensures ok == fault.NoFault?
      ensures namespaces == if fault.Refused? then old(namespaces) else old(namespaces)[ns := Active]
      ensures deletes == old(deletes)
    {
      if !fault.Refused? {
        namespaces := namespaces[ns := Active];
      }
      ok := fault.NoFault?;
    }

    /** A missing namespace is no failure for the callers of Delete. */
    method Delete(ns: string, fault: Fault) returns (ok: bool)
      modifies this
      ensures ok == fault.NoFault?
      ensures namespaces == if fault.Refused? then old(namespaces) else Terminate(old(namespaces), ns)
      ensures deletes == old(deletes) + [ns]
    {
      deletes := deletes + [ns];
      if !fault.Refused? && ns in namespaces {
        namespaces := namespaces[ns := Terminating];
      }
      ok := fault.NoFault?;
    }
  }

  class ResourceIndex {
    var entries: Entries

    constructor ()
      ensures entries == map[]
    {
      entries := map[];
    }

    method Get(key: Key) returns (found: bool, r: Request)
      requires NoEmptyInner(entries)
      ensures found <==> key.namespace in entries && key.name in entries[key.namespace]
      ensures found ==> r == entries[key.namespace][key.name]
    {
      found, r := false, Request("", key);
      if key.namespace in entries && key.name in entries[key.namespace] {
        found, r := true, entries[key.namespace][key.name];
      }
    }

    method Add(key: Key, tgt: Request)
      modifies this
      ensures entries == Added(old(entries), key, tgt)
    {
      if key.namespace !in entries {
        entries := entries[key.namespace := map[]];
      }
      entries := entries[key.namespace := entries[key.namespace][key.name := tgt]];
    }

    method Remove(key: Key)
      modifies this
      ensures entries == Removed(old(entries), key)
    {
      if key.namespace in entries {
        var obs := entries[key.namespace] - {key.name};
        entries := entries[key.namespace := obs];
        if |obs| == 0 {
          entries := entries - {key.namespace};
        }
      }
    }
  }

  class Mapping {
    var types: map<Kind, Resource>

    constructor ()
      ensures types == map[]
    {
      types := map[];
    }

    ghost function Footprint(): set<object>
      reads this
    {
      set k | k in types :: types[k].index
    }

    /** Resources are registered under their kind and own their index. */
    ghost predicate Valid()
      reads this, Footprint()
    {
      && (forall k :: k in types ==> types[k].gk == k && types[k].base == this && NoEmptyInner(types[k].index.entries))
      && (forall k, l :: k in types && l in types && types[k].index == types[l].index ==> k == l)
    }

    ghost function Contents(): map<Kind, Entries>
      reads this, Footprint()
    {
      map k | k in types :: types[k].index.entries
    }

    method ForResource(kind: Kind) returns (r: Resource)
      requires Valid()
      modifies this
      ensures Valid() && kind in types && types[kind] == r
      ensures kind in old(types) ==> types == old(types)
      ensures kind !in old(types) ==>
                fresh(r) && fresh(r.index) && types == old(types)[kind := r] && r.index.entries == map[]
      ensures forall k :: k in old(types) ==> Contents()[k] == old(Contents()[k])
    {
      if kind in types {
        return types[kind];
      }
      r := new Resource(this, kind);
      types := types[kind := r];
    }
  }

  class Resource {
    const base: Mapping
    const index: ResourceIndex
    const gk: Kind

    constructor (base: Mapping, gk: Kind)
      ensures this.base == base && this.gk == gk && fresh(index) && index.entries == map[]
    {
      this.base, this.gk := base, gk;
      index := new ResourceIndex();
    }

    ghost predicate Registered()
      reads base, base.Footprint()
    {
      base.Valid() && gk in base.types && base.types[gk] == this
    }

    method GetOriginal(key: Key) returns (found: bool, r: Request)
      requires Registered()
      ensures found <==> Recorded(base.Contents(), gk, key)
      ensures found ==> r == base.Contents()[gk][key.namespace][key.name]
    {
      found, r := index.Get(key);
    }

    /** The index changed as said is the only change of the mapping. */
    twostate lemma OnlyIndexChanged(e: Entries)
      requires old(Registered()) && base.types == old(base.types)
      requires index.entries == e && NoEmptyInner(e)
      requires forall k :: k in base.types && k != gk ==>
               base.types[k].index.entries == old(base.types[k].index.entries)
      ensures Registered()
      ensures base.Contents() == old(base.Contents())[gk := e]
    {
    }

    method SetOriginal(api: Api, key: Key, tgt: Request, getFails: bool, create: Fault) returns (ok: bool)
      requires Registered()
      modifies index, api
      ensures Registered() && base.types == old(base.types)
      ensures (World(base.Contents(), api.namespaces), ok) ==
              SetStep(old(World(base.Contents(), api.namespaces)), gk, key, tgt, getFails, create)
      ensures api.deletes == old(api.deletes)
    {
      // assureNamespace
      if getFails {
        ok := false;
      } else if key.namespace !in api.namespaces {
        ok := api.Create(key.namespace, create);
      } else {
        ok := !api.namespaces[key.namespace].Terminating?;
      }
      assert (api.namespaces, ok) == Assure(old(api.namespaces), key.namespace, getFails, create);
      if ok {
        UpdatesKeepInner(index.entries, key, tgt);
        index.Add(key, tgt);
        OnlyIndexChanged(Added(old(index.entries), key, tgt));
      } else {
        OnlyIndexChanged(index.entries);
        assert old(base.Contents())[gk := index.entries] == old(base.Contents());
      }
    }

    /** Whether no other kind has entries in the namespace; the loop takes the kinds in any order. */
    method OthersEmpty(ns: string) returns (empty: bool)
      requires Registered()
      ensures empty <==> forall k :: k in base.types && k != gk ==> ns !in base.Contents()[k]
    {
      empty := true;
      var todo := base.types.Keys;
      while todo != {}
        invariant todo <= base.types.Keys
        invariant empty && forall k :: k in base.types.Keys - todo && k != gk ==> ns !in base.types[k].index.entries
        decreases |todo|
      {
        var k :| k in todo;
        todo := todo - {k};
        var r := base.types[k];
        if r != this && |r.index.entries| != 0 {
          if ns in r.index.entries && |r.index.entries[ns]| > 0 {
            assert ns in base.Contents()[k];
            return false;
          }
        }
      }
    }

    method IsLastReference(key: Key) returns (last: bool)
      requires Registered()
      ensures last <==> IssuesDelete(base.Contents(), gk, key)
    {
      var empty := OthersEmpty(key.namespace);
      var obs := if key.namespace in index.entries then index.entries[key.namespace] else map[];
      last := LastEntry(obs, key.name);
      LastReference(base.Contents(), gk, key, empty, obs);
      last := empty && last;
    }

    method Drop(key: Key)
      requires Registered()
      modifies index
      ensures Registered() && base.types == old(base.types)
      ensures base.Contents() == old(base.Contents())[gk := Removed(EntriesOf(old(base.Contents()), gk), key)]
    {
      UpdatesKeepInner(index.entries, key, Request("", key));
      index.Remove(key);
      OnlyIndexChanged(Removed(old(index.entries), key));
    }

    method RemoveOriginal(api: Api, key: Key, delete: Fault) returns (ok: bool)
      requires Registered()
      modifies index, api
      ensures Registered() && base.types == old(base.types)
      ensures (World(base.Contents(), api.namespaces), ok) ==
              RemoveStep(old(World(base.Contents(), api.namespaces)), gk, key, delete)
      ensures api.deletes == old(api.deletes) +
                if IssuesDelete(old(base.Contents()), gk, key) then [key.namespace] else []
    {
      hide Removed;
      var last := IsLastReference(key);
      ok := true;
      if last {
        ok := api.Delete(key.namespace, delete);
        OnlyIndexChanged(index.entries);
        assert old(base.Contents())[gk := index.entries] == old(base.Contents());
      }
      assert base.Contents() == old(base.Contents());
      if ok {
        Drop(key);
        assert base.Contents() == old(base.Contents())[gk := Removed(EntriesOf(old(base.Contents()), gk), key)];
      }
      assert last ==>
        api.namespaces
        == if delete.Refused? then old(api.namespaces) else Terminate(old(api.namespaces), key.namespace);
      assert !last ==> api.namespaces == old(api.namespaces);
    }
  }

  method LastEntry(m: map<string, Request>, key: string) returns (last: bool)
    ensures last <==> m.Keys <= {key}
  {
    if |m| != 1 {
      if |m| != 0 {
        assert m.Keys <= {key} ==> |m.Keys| <= |{key}| by { if m.Keys <= {key} { SubsetSize(m.Keys, {key}); } }
      }
      return |m| == 0;
    }
    var k :| k in m.Keys;
    assert |m.Keys - {k}| == 0;
    assert m.Keys == {k};
    return k == key;
  }

  lemma SubsetSize<T>(a: set<T>, b: set<T>)
    requires a <= b
    ensures |a| <= |b|
  {
    assert |b - a| == |b| - |a|;
  }

  /** The two tests of RemoveOriginal together say that nothing else refers to the namespace. */
  lemma LastReference(entries: map<Kind, Entries>, gk: Kind, key: Key, empty: bool, obs: map<string, Request>)
    requires gk in entries && forall k :: k in entries ==> NoEmptyInner(entries[k])
    requires obs == if key.namespace in entries[gk] then entries[gk][key.namespace] else map[]
    requires empty <==> forall k :: k in entries && k != gk ==> key.namespace !in entries[k]
    ensures empty && obs.Keys <= {key.name} <==> Refs(entries, key.namespace) <= {(gk, key.name)}
  {
    var ns := key.namespace;
    assert forall k, n :: k in entries && ns in entries[k] && n in entries[k][ns] ==> (k, n) in Refs(entries, ns);
    forall k | k in entries && ns in entries[k]
      ensures exists n :: n in entries[k][ns]
    {
      assert entries[k][ns].Keys != {};
    }
  }

  // ------------------------------------------------------------------------------------------
  // Runs over several kinds

  lemma AddedRefs(entries: map<Kind, Entries>, kind: Kind, key: Key, tgt: Request, ns: string)
    ensures Refs(entries[kind := Added(EntriesOf(entries, kind), key, tgt)], ns) ==
            Refs(entries, ns) + if ns == key.namespace then {(kind, key.name)} else {}
  {}

  lemma RemovedRefs(entries: map<Kind, Entries>, kind: Kind, key: Key, ns: string)
    ensures Refs(entries[kind := Removed(EntriesOf(entries, kind), key)], ns) ==
            Refs(entries, ns) - if ns == key.namespace then {(kind, key.name)} else {}
  {
    var after := entries[kind := Removed(EntriesOf(entries, kind), key)];
    forall k, n
      ensures (k, n) in Refs(after, ns) <==>
              (k, n) in Refs(entries, ns) && !(ns == key.namespace && k == kind && n == key.name)
    {
      if k == kind && key.namespace in EntriesOf(entries, kind) {
        var rest := entries[kind][key.namespace] - {key.name};
        assert n in rest <==> n in entries[kind][key.namespace] && n != key.name;
      }
    }
  }

  datatype Op =
    | Set(kind: Kind, key: Key, tgt: Request, getFails: bool, create: Fault)
    | Remove(kind: Kind, key: Key, delete: Fault)
    | Finish(ns: string) // the cluster completes the deletion of a namespace

  function Step(w: World, op: Op): World {
    match op
    case Set(kind, key, tgt, getFails, create) => SetStep(w, kind, key, tgt, getFails, create).0
    case Remove(kind, key, delete) => RemoveStep(w, kind, key, delete).0
    case Finish(ns) =>
      if ns in w.namespaces && w.namespaces[ns].Terminating? then w.(namespaces := w.namespaces - {ns}) else w
  }

  function Run(ops: seq<Op>): World {
    if ops == [] then World(map[], map[]) else Step(Run(ops[..|ops| - 1]), ops[|ops| - 1])
  }

  ghost predicate IsActive(w: World, ns: string) {
    ns in w.namespaces && w.namespaces[ns].Active?
  }

  /** No answer of the call that would decide for a namespace gets lost. */
  ghost predicate DeleteAnswered(op: Op) {
    op.Remove? ==> !op.delete.AnswerLost?
  }

  ghost predicate CreateAnswered(op: Op) {
    op.Set? ==> !op.create.AnswerLost?
  }

  /** No kind ever keeps an empty inner map. */
  lemma {:induction false} NoEmptyInnerEver(ops: seq<Op>)
    ensures forall k :: k in Run(ops).entries ==> NoEmptyInner(Run(ops).entries[k])
  {
    if ops != [] {
      var op, w := ops[|ops| - 1], Run(ops[..|ops| - 1]);
      NoEmptyInnerEver(ops[..|ops| - 1]);
      if op.Set? {
        UpdatesKeepInner(EntriesOf(w.entries, op.kind), op.key, op.tgt);
      } else if op.Remove? {
        UpdatesKeepInner(EntriesOf(w.entries, op.kind), op.key, Request("", op.key));
      }
    }
  }

  lemma StepRefs(w: World, op: Op, ns: string)
    ensures op.Set? ==>
              Refs(Step(w, op).entries, ns) ==
              if SetStep(w, op.kind, op.key, op.tgt, op.getFails, op.create).1 && ns == op.key.namespace
              then Refs(w.entries, ns) + {(op.kind, op.key.name)} else Refs(w.entries, ns)
    ensures op.Remove? ==>
              Refs(Step(w, op).entries, ns) ==
              if RemoveStep(w, op.kind, op.key, op.delete).1 && ns == op.key.namespace
              then Refs(w.entries, ns) - {(op.kind, op.key.name)} else Refs(w.entries, ns)
  {
    if op.Set? {
      AddedRefs(w.entries, op.kind, op.key, op.tgt, ns);
    } else if op.Remove? {
      RemovedRefs(w.entries, op.kind, op.key, ns);
    }
  }

  // --- What is recorded

  /** The request recorded for a key. */
  function Original(entries: map<Kind, Entries>, kind: Kind, key: Key): Option<Request> {
    if Recorded(entries, kind, key) then Some(entries[kind][key.namespace][key.name]) else None
  }

  lemma AddedOriginal(entries: map<Kind, Entries>, kind: Kind, key: Key, tgt: Request, k: Kind, x: Key)
    ensures Original(entries[kind := Added(EntriesOf(entries, kind), key, tgt)], k, x)
            == if (k, x) == (kind, key) then Some(tgt) else Original(entries, k, x)
  {}

  lemma RemovedOriginal(entries: map<Kind, Entries>, kind: Kind, key: Key, k: Kind, x: Key)
    ensures Original(entries[kind := Removed(EntriesOf(entries, kind), key)], k, x)
            == if (k, x) == (kind, key) then None else Original(entries, k, x)
  {
    if k == kind && x.namespace == key.namespace && key.namespace in EntriesOf(entries, kind) {
      var rest := entries[kind][key.namespace] - {key.name};
      assert x.name in rest <==> x.name in entries[kind][key.namespace] && x.name != key.name;
    }
  }

  /** The call records its target: the namespace can be used, or is created with an answer. */
  ghost predicate Records(w: World, op: Op, kind: Kind, key: Key) {
    && op.Set? && op.kind == kind && op.key == key && !op.getFails
    && (IsActive(w, key.namespace) || (key.namespace !in w.namespaces && op.create.NoFault?))
  }

  /** The call takes the entry away: something else refers to the namespace, or its delete succeeds. */
  ghost predicate Forgets(w: World, op: Op, kind: Kind, key: Key) {
    && op.Remove? && op.kind == kind && op.key == key
    && (op.delete.NoFault? || exists ref :: ref in Refs(w.entries, key.namespace) && ref != (kind, key.name))
  }

  /** What is recorded for a key after one more call: its target after a set, nothing after a removal, and otherwise
      what was recorded before, whatever happens to other keys and kinds. */
  lemma OriginalNext(w: World, op: Op, kind: Kind, key: Key)
    ensures Original(Step(w, op).entries, kind, key) ==
            if Records(w, op, kind, key) then Some(op.tgt)
            else if Forgets(w, op, kind, key) then None
            else Original(w.entries, kind, key)
  {
    hide Original, Recorded;
    if op.Set? {
      AddedOriginal(w.entries, op.kind, op.key, op.tgt, kind, key);
      hide Added;
    } else if op.Remove? {
      RemovedOriginal(w.entries, op.kind, op.key, kind, key);
      hide Removed;
      assert IssuesDelete(w.entries, op.kind, op.key) <==>
             forall ref :: ref in Refs(w.entries, op.key.namespace) ==> ref == (op.kind, op.key.name);
    }
  }

  /** The i-th call has recorded r, and no later one has recorded or forgotten anything for the key. */
  ghost predicate RecordedSince(ops: seq<Op>, i: int, kind: Kind, key: Key, r: Request) {
    && 0 <= i < |ops| && Records(Run(ops[..i]), ops[i], kind, key) && ops[i].tgt == r
    && forall j :: i < j < |ops| ==>
         !Records(Run(ops[..j]), ops[j], kind, key) && !Forgets(Run(ops[..j]), ops[j], kind, key)
  }

  lemma RecordedFront(ops: seq<Op>, i: nat, kind: Kind, key: Key, r: Request)
    requires i < |ops| - 1
    ensures var l := |ops| - 1;
      RecordedSince(ops, i, kind, key, r) <==>
        && RecordedSince(ops[..l], i, kind, key, r)
        && !Records(Run(ops[..l]), ops[l], kind, key) && !Forgets(Run(ops[..l]), ops[l], kind, key)
  {
    var l := |ops| - 1;
    hide Run, Records, Forgets;
    assert forall k :: 0 <= k <= l ==> ops[..l][..k] == ops[..k];
  }

  lemma RecordedSome(ops: seq<Op>, kind: Kind, key: Key, r: Request)
    requires ops != []
    ensures var l := |ops| - 1;
      (exists i :: RecordedSince(ops, i, kind, key, r)) <==>
        || (Records(Run(ops[..l]), ops[l], kind, key) && ops[l].tgt == r)
        || (&& (exists i :: RecordedSince(ops[..l], i, kind, key, r))
            && !Records(Run(ops[..l]), ops[l], kind, key) && !Forgets(Run(ops[..l]), ops[l], kind, key))
  {
    var l := |ops| - 1;
    hide Run, Forgets;
    assert Records(Run(ops[..l]), ops[l], kind, key) ==> ops[l].Set?;
    hide Records;
    if i :| RecordedSince(ops, i, kind, key, r) {
      if i < l {
        RecordedFront(ops, i, kind, key, r);
      }
    }
    if i :| RecordedSince(ops[..l], i, kind, key, r) {
      RecordedFront(ops, i, kind, key, r);
    }
    if Records(Run(ops[..l]), ops[l], kind, key) && ops[l].tgt == r {
      assert RecordedSince(ops, l, kind, key, r);
    }
  }

  /** In every run the request recorded for a key is the target of the last call that recorded one, if it has not been
      forgotten since. */
  lemma {:induction false} OriginalIsLastRecorded(ops: seq<Op>, kind: Kind, key: Key, r: Request)
    ensures Original(Run(ops).entries, kind, key) == Some(r) <==> exists i :: RecordedSince(ops, i, kind, key, r)
  {
    if ops != [] {
      var l := |ops| - 1;
      OriginalIsLastRecorded(ops[..l], kind, key, r);
      OriginalNext(Run(ops[..l]), ops[l], kind, key);
      RecordedSome(ops, kind, key, r);
      hide RecordedSince, Step, Records, Forgets, Original;
    }
  }

  /** What a set finds afterwards, through the methods: the target for its own key, and everything else as before. */
  method SetAndGet(res: Resource, api: Api, key: Key, tgt: Request, other: Key, create: Fault)
    returns (ok: bool, found: bool, r: Request)
    requires res.Registered() && other != key
    modifies res.index, api
    ensures res.Registered()
    ensures ok ==> found && r == tgt
    ensures ok <==> if key.namespace in old(api.namespaces) then old(api.namespaces[key.namespace]).Active?
                    else create.NoFault?
    ensures Original(res.base.Contents(), res.gk, other) == old(Original(res.base.Contents(), res.gk, other))
  {
    ok := res.SetOriginal(api, key, tgt, false, create);
    AddedOriginal(old(res.base.Contents()), res.gk, key, tgt, res.gk, key);
    AddedOriginal(old(res.base.Contents()), res.gk, key, tgt, res.gk, other);
    hide Added;
    found, r := res.GetOriginal(key);
  }

  /** The state of every namespace after one more call: made by a set that is not refused, terminating after a delete
      for the last reference that is not refused, gone when the cluster has finished. */
  lemma NamespaceNext(w: World, op: Op, ns: string)
    ensures IsActive(Step(w, op), ns) <==>
            || (op.Set? && op.key.namespace == ns && ns !in w.namespaces && !op.getFails && !op.create.Refused?)
            || (IsActive(w, ns)
                && !(op.Remove? && op.key.namespace == ns && !op.delete.Refused?
                     && forall ref :: ref in Refs(w.entries, ns) ==> ref == (op.kind, op.key.name)))
    ensures ns in Step(w, op).namespaces <==>
            || (op.Set? && op.key.namespace == ns && !op.getFails && !op.create.Refused?)
            || (ns in w.namespaces && !(op.Finish? && op.ns == ns && w.namespaces[ns].Terminating?))
  {
    hide Refs, Added, Removed;
  }

  /** A successful removal that leaves a namespace without entries has issued the delete, and a failed call
      changes no entry. */
  lemma LastRemovalDeletes(w: World, kind: Kind, key: Key, delete: Fault)
    ensures RemoveStep(w, kind, key, delete).1
            && Refs(RemoveStep(w, kind, key, delete).0.entries, key.namespace) == {} ==>
              IssuesDelete(w.entries, kind, key)
    ensures !RemoveStep(w, kind, key, delete).1 ==> RemoveStep(w, kind, key, delete).0.entries == w.entries
    ensures !IssuesDelete(w.entries, kind, key) ==> RemoveStep(w, kind, key, delete).0.namespaces == w.namespaces
  {
    RemovedRefs(w.entries, kind, key, key.namespace);
  }

  /** An entry refers to a namespace that cannot be used. */
  ghost predicate Stranded(w: World, ns: string) {
    Refs(w.entries, ns) != {} && !IsActive(w, ns)
  }

  /** The answer to the delete for the last reference gets lost. */
  ghost predicate Strands(w: World, op: Op, ns: string) {
    op.Remove? && op.key.namespace == ns && op.delete.AnswerLost? && Refs(w.entries, ns) == {(op.kind, op.key.name)}
  }

  /** The last reference is removed after all, or the namespace is created again once it has gone. */
  ghost predicate Repairs(w: World, op: Op, ns: string) {
    || (op.Remove? && op.key.namespace == ns && op.delete.NoFault? && Refs(w.entries, ns) == {(op.kind, op.key.name)})
    || (op.Set? && op.key.namespace == ns && ns !in w.namespaces && !op.getFails && !op.create.Refused?)
  }

  /** A referenced namespace becomes unusable, and usable again, exactly by these operations. */
  lemma StrandedNext(w: World, op: Op, ns: string)
    ensures Stranded(Step(w, op), ns) <==> Strands(w, op, ns) || (Stranded(w, ns) && !Repairs(w, op, ns))
  {
    StepRefs(w, op, ns);
    hide Refs;
    if op.Set? {
      assert Refs(w.entries, ns) + {(op.kind, op.key.name)} != {};
    } else if op.Remove? {
      assert Refs(w.entries, ns) - {(op.kind, op.key.name)} == {} <==> Refs(w.entries, ns) <= {(op.kind, op.key.name)};
    }
  }

  /** The i-th operation has stranded the namespace, and no later one has repaired it. */
  ghost predicate StrandedSince(ops: seq<Op>, i: int, ns: string) {
    && 0 <= i < |ops| && Strands(Run(ops[..i]), ops[i], ns)
    && forall j :: i < j < |ops| ==> !Repairs(Run(ops[..j]), ops[j], ns)
  }

  lemma SinceFront(ops: seq<Op>, i: nat, ns: string)
    requires i < |ops| - 1
    ensures var l := |ops| - 1;
            StrandedSince(ops, i, ns) <==> StrandedSince(ops[..l], i, ns) && !Repairs(Run(ops[..l]), ops[l], ns)
  {
    var l := |ops| - 1;
    hide Run, Strands, Repairs;
    assert forall k :: 0 <= k <= l ==> ops[..l][..k] == ops[..k];
  }

  lemma SinceSome(ops: seq<Op>, ns: string)
    requires ops != []
    ensures var l := |ops| - 1;
      (exists i :: StrandedSince(ops, i, ns)) <==>
        || Strands(Run(ops[..l]), ops[l], ns)
        || ((exists i :: StrandedSince(ops[..l], i, ns)) && !Repairs(Run(ops[..l]), ops[l], ns))
  {
    var l := |ops| - 1;
    hide Run, Strands, Repairs;
    if i :| StrandedSince(ops, i, ns) {
      if i < l {
        SinceFront(ops, i, ns);
      }
    }
    if i :| StrandedSince(ops[..l], i, ns) {
      SinceFront(ops, i, ns);
    }
    assert Strands(Run(ops[..l]), ops[l], ns) ==> StrandedSince(ops, l, ns);
  }

  /** In every run a referenced namespace is usable, unless a lost answer has stranded it and it has not been
      repaired since. */
  lemma {:induction false} ReferencedIsActiveExactly(ops: seq<Op>, ns: string)
    ensures Refs(Run(ops).entries, ns) != {} && !IsActive(Run(ops), ns) <==> exists i :: StrandedSince(ops, i, ns)
  {
    if ops != [] {
      var l := |ops| - 1;
      ReferencedIsActiveExactly(ops[..l], ns);
      StrandedNext(Run(ops[..l]), ops[l], ns);
      SinceSome(ops, ns);
      hide StrandedSince, Step, Strands, Repairs, Refs, IsActive;
    }
  }

  /** With all answers received, the active namespaces are exactly those with entries. */
  lemma {:induction false} ActiveIsReferenced(ops: seq<Op>, ns: string)
    requires forall k :: 0 <= k < |ops| ==> DeleteAnswered(ops[k]) && CreateAnswered(ops[k])
    ensures IsActive(Run(ops), ns) <==> Refs(Run(ops).entries, ns) != {}
  {
    if ops != [] {
      var op, w := ops[|ops| - 1], Run(ops[..|ops| - 1]);
      assert DeleteAnswered(op) && CreateAnswered(op);
      ActiveIsReferenced(ops[..|ops| - 1], ns);
      StepRefs(w, op, ns);
      if op.Set? && SetStep(w, op.kind, op.key, op.tgt, op.getFails, op.create).1 && ns == op.key.namespace {
        assert (op.kind, op.key.name) in Refs(Step(w, op).entries, ns);
      }
    }
  }

  /** A lost answer to a delete leaves an entry behind whose namespace is going away. */
  lemma LostAnswerStrandsEntry(kind: Kind, key: Key, tgt: Request)
    ensures var ops := [Set(kind, key, tgt, false, NoFault)] + [Remove(kind, key, AnswerLost)];
            Refs(Run(ops).entries, key.namespace) != {} && !IsActive(Run(ops), key.namespace)
  {
    var first := [Set(kind, key, tgt, false, NoFault)];
    var ops := first + [Remove(kind, key, AnswerLost)];
    assert ops[..1] == first && first[..0] == [];
    var w := Run(first);
    assert Run(first[..0]) == World(map[], map[]);
    assert w == Step(World(map[], map[]), first[0]);
    AddedRefs(map[], kind, key, tgt, key.namespace);
    assert Refs(map[], key.namespace) == {};
    assert (kind, key.name) in Refs(w.entries, key.namespace);
  }
}
