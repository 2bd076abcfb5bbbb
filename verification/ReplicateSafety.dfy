/** What the replication protocol keeps in every run (examples/simple/controllers/replicate/logic.go). */
module ReplicateSafety {
  import opened Wrappers
  import opened ReplicationMapping
  import opened Replicate
  import opened ReplicateEnvironment

  /** Every event of workers, users and clusters keeps the invariant. */
  lemma NextKeepsInv(c: Setup, s: State, e: Event)
    requires c.Valid() && Inv(c, s)
    ensures Inv(c, Next(c, s, e))
  {
    var s' := Next(c, s, e);
    if e.Worked? {
      WorkKeepsInv(c, s, e.k, e.fault);
    } else {
      forall l
        ensures ReplicaOk(c, s', l) && WorkerOk(c, s', l)
      {
        EnvironmentIsWeaker(c, s, e, l);
        WeakerKeeps(c, s, s', l);
      }
      assert s'.target.Keys <= s.target.Keys;
    }
  }

  const START := State(map[], map[], World(map[], map[]), map[], 0)

  function Run(c: Setup, events: seq<Event>): State {
    if events == [] then START else Next(c, Run(c, events[..|events| - 1]), events[|events| - 1])
  }

  /** The invariant holds after every interleaving of workers, users and clusters. */
  lemma {:induction false} RunInv(c: Setup, events: seq<Event>)
    requires c.Valid()
    ensures Inv(c, Run(c, events))
    decreases |events|
  {
    if events != [] {
      RunInv(c, events[..|events| - 1]);
      NextKeepsInv(c, Run(c, events[..|events| - 1]), events[|events| - 1]);
    }
  }

  /** In every reachable state a replica has its live, protected original and a recorded entry. */
  lemma ReplicaHasOriginal(c: Setup, events: seq<Event>, t: Key)
    requires c.Valid()
    ensures var s := Run(c, events);
      t in s.target ==>
        exists k :: t == c.Replica(k) && Held(c, s, k, s.target[t].origin) && Recorded(s.world.entries, c.kind, t)
  {
    RunInv(c, events);
    var s := Run(c, events);
    if t in s.target {
      var k :| t == c.Replica(k);
      assert ReplicaOk(c, s, k);
    }
  }

  /** Every entry stands for a replica and holds the request for its original. */
  ghost predicate EntriesName(c: Setup, entries: map<Kind, Entries>) {
    forall t :: Recorded(entries, c.kind, t) ==>
      exists k :: t == c.Replica(k) && Original(entries, c.kind, t) == Some(Request("", k))
  }

  lemma SetKeepsNames(c: Setup, w: World, k: Key, fault: Fault)
    requires EntriesName(c, w.entries)
    ensures EntriesName(c, SetStep(w, c.kind, c.Replica(k), Request("", k), fault == Refused, fault).0.entries)
  {
    forall t {
      AddedOriginal(w.entries, c.kind, c.Replica(k), Request("", k), c.kind, t);
    }
    hide Added, Recorded;
    var after := SetStep(w, c.kind, c.Replica(k), Request("", k), fault == Refused, fault).0.entries;
    forall t | Recorded(after, c.kind, t)
      ensures exists l :: t == c.Replica(l) && Original(after, c.kind, t) == Some(Request("", l))
    {
      if t != c.Replica(k) {
        assert Recorded(w.entries, c.kind, t);
      }
    }
  }

  lemma RemoveKeepsNames(c: Setup, w: World, key: Key, fault: Fault)
    requires EntriesName(c, w.entries)
    ensures EntriesName(c, RemoveStep(w, c.kind, key, fault).0.entries)
  {
    forall t {
      RemovedOriginal(w.entries, c.kind, key, c.kind, t);
    }
    hide Removed, Recorded, IssuesDelete;
    var after := RemoveStep(w, c.kind, key, fault).0.entries;
    forall t | Recorded(after, c.kind, t)
      ensures exists l :: t == c.Replica(l) && Original(after, c.kind, t) == Some(Request("", l))
    {
      assert Recorded(w.entries, c.kind, t);
    }
  }

  lemma UsersKeepEntries(c: Setup, s: State, e: Event)
    requires !e.Worked?
    ensures Next(c, s, e).world.entries == s.world.entries
  {
    hide Emptied, Foreign;
  }

  lemma NextKeepsNames(c: Setup, s: State, e: Event)
    requires c.Valid() && Inv(c, s) && EntriesName(c, s.world.entries)
    ensures EntriesName(c, Next(c, s, e).world.entries)
  {
    if e.Worked? {
      assert WorkerOk(c, s, e.k);
      hide SetStep, RemoveStep, EntriesName, Inv;
      if WorkerOf(s, e.k).Record? {
        SetKeepsNames(c, s.world, e.k, e.fault);
      } else if WorkerOf(s, e.k).Unrecord? {
        RemoveKeepsNames(c, s.world, c.Replica(e.k), e.fault);
      } else {
        hide Work;
        WorkIsLocal(c, s, e.k, e.fault);
      }
    } else {
      UsersKeepEntries(c, s, e);
    }
  }

  /** In every reachable state the mapping answers for a replica with the key of its original. */
  lemma {:induction false} EntryNamesOriginal(c: Setup, events: seq<Event>, k: Key)
    requires c.Valid()
    ensures EntriesName(c, Run(c, events).world.entries)
    ensures Original(Run(c, events).world.entries, c.kind, c.Replica(k)) in {None, Some(Request("", k))}
    decreases |events|
  {
    if events != [] {
      var front := events[..|events| - 1];
      EntryNamesOriginal(c, front, k);
      RunInv(c, front);
      NextKeepsNames(c, Run(c, front), events[|events| - 1]);
    }
    hide Next;
    var entries := Run(c, events).world.entries;
    if Recorded(entries, c.kind, c.Replica(k)) {
      var l :| c.Replica(k) == c.Replica(l) && Original(entries, c.kind, c.Replica(k)) == Some(Request("", l));
    }
  }

  /** Emptying a namespace under deletion never meets a replica. */
  lemma NamespaceDeletionIsHarmless(c: Setup, events: seq<Event>, ns: string)
    requires c.Valid()
    ensures Next(c, Run(c, events), NamespaceEmptied(ns)).target == Run(c, events).target
  {
    RunInv(c, events);
    var s := Run(c, events);
    if ns in s.world.namespaces && s.world.namespaces[ns].Terminating? {
      forall t | t in s.target
        ensures t.namespace != ns
      {
        var k :| t == c.Replica(k);
        assert ReplicaOk(c, s, k);
      }
      assert Emptied(s.target, ns) == s.target;
    }
  }

  /** The patch that would go to the wrong cluster is never sent. */
  lemma NoMisdirectedPatch(c: Setup, events: seq<Event>, k: Key)
    requires c.Valid()
    ensures !WorkerOf(Run(c, events), k).Strip?
  {
    RunInv(c, events);
    assert WorkerOk(c, Run(c, events), k);
  }
}
