/** What the safety of the replication protocol rests on, and how an entry can outlive its original
    (examples/simple/controllers/replicate/logic.go, controller/replication/mapping.go). */
module ReplicateRuns {
  import opened ReplicationMapping
  import opened Replicate
  import opened ReplicateProgress
  import opened Safety = ReplicateSafety

  // ------------------------------------------------------------------------------------------
  // Entries that outlive their originals

  /** The original carries the finalizer of the controller. */
  predicate Protected(c: Setup, s: State, k: Key) {
    k in s.source && c.finalizer in s.source[k].finalizers
  }

  /** The entry for k is recorded, but no original is protected for it, and it is not about to be removed. */
  ghost predicate Orphaned(c: Setup, s: State, k: Key) {
    Recorded(s.world.entries, c.kind, c.Replica(k)) && !Protected(c, s, k) && !WorkerOf(s, k).Unrecord?
  }

  /** The release of the original is granted by the server. */
  ghost predicate Released(c: Setup, s: State, k: Key, obj: Object, fault: Fault) {
    && c.finalizer in obj.finalizers && k in s.source && fault != Refused
    && FinalizersAllowed(s.source[k].deleting, s.source[k].finalizers, obj.finalizers - {c.finalizer})
  }

  /** e leaves the entry without a protected original: the release of the original is granted, but its answer gets
      lost, or the removal of the entry fails. */
  ghost predicate Orphans(c: Setup, s: State, k: Key, e: Event) {
    && e.Worked? && e.k == k && Recorded(s.world.entries, c.kind, c.Replica(k))
    && match WorkerOf(s, k)
       case Release(obj) => Released(c, s, k, obj, e.fault) && e.fault == AnswerLost
       case Unrecord => !RemoveStep(s.world, c.kind, c.Replica(k), e.fault).1 && !Protected(c, s, k)
       case _ => false
  }

  /** e brings such an entry back into care: the original is there and protected again, or its release gets an
      answer, so that the entry is removed next. */
  ghost predicate Reclaims(c: Setup, s: State, k: Key, e: Event) {
    match e
    case UserCreates(l, finalizers, _, _) => l == k && k !in s.source && c.finalizer in finalizers
    case Worked(l, fault) =>
      && l == k
      && (match WorkerOf(s, k)
          case TakeResponsibility(obj) =>
            && c.finalizer !in obj.finalizers && k in s.source && fault != Refused
            && FinalizersAllowed(s.source[k].deleting, s.source[k].finalizers, obj.finalizers + {c.finalizer})
          case Release(obj) => c.finalizer !in obj.finalizers || (Released(c, s, k, obj, fault) && fault != AnswerLost)
          case _ => false)
    case _ => false
  }

  lemma SetRecordsNothing(w: World, kind: Kind, key: Key, tgt: Request, fault: Fault, other: Key)
    requires other != key
    ensures Recorded(SetStep(w, kind, key, tgt, fault == Refused, fault).0.entries, kind, other)
            <==> Recorded(w.entries, kind, other)
  {}

  lemma RemoveRecordsNothing(w: World, kind: Kind, key: Key, fault: Fault, other: Key)
    requires other != key
    ensures Recorded(RemoveStep(w, kind, key, fault).0.entries, kind, other) <==> Recorded(w.entries, kind, other)
  {
    if Recorded(w.entries, kind, other) {
      RemovedRecorded(w.entries, kind, key, other);
    }
  }

  lemma WorkRecordsNothing(c: Setup, s: State, l: Key, fault: Fault, k: Key)
    requires c.Valid() && !WorkerOf(s, l).Strip? && k != l
    ensures Recorded(Work(c, s, l, fault).world.entries, c.kind, c.Replica(k)) <==>
            Recorded(s.world.entries, c.kind, c.Replica(k))
  {
    hide SetStep, RemoveStep, Recorded;
    ReplicasDiffer(c, k, l);
    if WorkerOf(s, l).Record? {
      SetRecordsNothing(s.world, c.kind, c.Replica(l), Request("", l), fault, c.Replica(k));
    } else if WorkerOf(s, l).Unrecord? {
      RemoveRecordsNothing(s.world, c.kind, c.Replica(l), fault, c.Replica(k));
    } else {
      hide Work;
      WorkIsLocal(c, s, l, fault);
    }
  }

  lemma OthersWorkOrphans(c: Setup, s: State, l: Key, fault: Fault, k: Key)
    requires c.Valid() && Inv(c, s) && k != l
    ensures Orphaned(c, Work(c, s, l, fault), k) <==> Orphaned(c, s, k)
  {
    assert WorkerOk(c, s, l);
    hide Work, Inv, Recorded, Kept;
    WorkKeepsOthers(c, s, l, fault, k);
    WorkRecordsNothing(c, s, l, fault, k);
  }

  // The steps of the worker for k itself

  lemma RecordOrphans(c: Setup, s: State, k: Key, obj: Object, fault: Fault)
    requires WorkerOf(s, k) == Record(obj) && Held(c, s, k, obj.uid)
    ensures Protected(c, s, k) && Protected(c, Work(c, s, k, fault), k)
  {
    hide SetStep;
  }

  lemma TakeOrphans(c: Setup, s: State, k: Key, fault: Fault)
    requires WorkerOf(s, k).TakeResponsibility?
    ensures Orphaned(c, Work(c, s, k, fault), k) <==> Orphaned(c, s, k) && !Reclaims(c, s, k, Worked(k, fault))
  {
    hide Recorded;
  }

  lemma ReleaseOrphans(c: Setup, s: State, k: Key, fault: Fault)
    requires WorkerOf(s, k).Release?
    ensures Orphaned(c, Work(c, s, k, fault), k) <==>
            Orphans(c, s, k, Worked(k, fault)) || (Orphaned(c, s, k) && !Reclaims(c, s, k, Worked(k, fault)))
  {
    hide Recorded;
  }

  lemma UnrecordOrphans(c: Setup, s: State, k: Key, fault: Fault)
    requires WorkerOf(s, k).Unrecord?
    ensures Orphaned(c, Work(c, s, k, fault), k) <==> Orphans(c, s, k, Worked(k, fault))
  {}

  lemma OthersOrphan(c: Setup, s: State, k: Key, fault: Fault)
    requires var w := WorkerOf(s, k);
             w.Idle? || w.Fetch? || w.Create? || w.Apply? || w.Inspect? || w.Delete?
    ensures Orphaned(c, Work(c, s, k, fault), k) <==> Orphaned(c, s, k)
  {
    hide Recorded;
  }

  lemma OwnWorkOrphans(c: Setup, s: State, k: Key, fault: Fault)
    requires WorkerOk(c, s, k)
    ensures Orphaned(c, Work(c, s, k, fault), k) <==>
            Orphans(c, s, k, Worked(k, fault)) || (Orphaned(c, s, k) && !Reclaims(c, s, k, Worked(k, fault)))
  {
    hide Work, Recorded, RemoveStep, Released;
    match WorkerOf(s, k) {
      case TakeResponsibility(_) => TakeOrphans(c, s, k, fault);
      case Record(obj) => RecordOrphans(c, s, k, obj, fault);
      case Release(_) => ReleaseOrphans(c, s, k, fault);
      case Unrecord => UnrecordOrphans(c, s, k, fault);
      case _ => OthersOrphan(c, s, k, fault);
    }
  }

  lemma CreationOrphans(c: Setup, s: State, k: Key, e: Event)
    requires e.UserCreates?
    ensures Orphaned(c, Next(c, s, e), k) <==> Orphaned(c, s, k) && !Reclaims(c, s, k, e)
  {
    hide Recorded;
  }

  lemma SourceUsersOrphan(c: Setup, s: State, k: Key, e: Event)
    requires e.UserUpdates? || e.UserDeletes?
    ensures Orphaned(c, Next(c, s, e), k) <==> Orphaned(c, s, k)
  {
    hide Recorded;
  }

  lemma TargetLeavesSource(c: Setup, s: State, e: Event)
    requires e.ReplicaUpdated? || e.ReplicaDeleted? || e.NamespaceEmptied? || e.NamespaceFinished?
    ensures var s' := Next(c, s, e);
            s'.source == s.source && s'.workers == s.workers && s'.world.entries == s.world.entries
  {
    hide Emptied, Foreign;
  }

  lemma EnvironmentOrphans(c: Setup, s: State, k: Key, e: Event)
    requires !e.Worked?
    ensures Orphaned(c, Next(c, s, e), k) <==> Orphaned(c, s, k) && !Reclaims(c, s, k, e)
  {
    hide Next, Recorded;
    match e {
      case UserCreates(_, _, _, _) => CreationOrphans(c, s, k, e);
      case UserUpdates(_, _, _, _) => SourceUsersOrphan(c, s, k, e);
      case UserDeletes(_) => SourceUsersOrphan(c, s, k, e);
      case _ => TargetLeavesSource(c, s, e);
    }
  }

  /** An entry loses its protected original, and is cared for again, exactly by these events. */
  lemma OrphanedNext(c: Setup, s: State, k: Key, e: Event)
    requires c.Valid() && Inv(c, s)
    ensures Orphaned(c, Next(c, s, e), k) <==> Orphans(c, s, k, e) || (Orphaned(c, s, k) && !Reclaims(c, s, k, e))
  {
    if !e.Worked? {
      EnvironmentOrphans(c, s, k, e);
      assert !Orphans(c, s, k, e);
    } else if e.k == k {
      assert WorkerOk(c, s, k);
      OwnWorkOrphans(c, s, k, e.fault);
    } else {
      OthersWorkOrphans(c, s, e.k, e.fault, k);
      assert !Orphans(c, s, k, e) && !Reclaims(c, s, k, e);
    }
    hide *;
  }

  /** The i-th event has orphaned the entry, and no later one has reclaimed it. */
  ghost predicate OrphanedSince(c: Setup, events: seq<Event>, i: int, k: Key) {
    && 0 <= i < |events| && Orphans(c, Safety.Run(c, events[..i]), k, events[i])
    && forall j :: i < j < |events| ==> !Reclaims(c, Safety.Run(c, events[..j]), k, events[j])
  }

  lemma SinceFront(c: Setup, events: seq<Event>, i: nat, k: Key)
    requires i < |events| - 1
    ensures var l := |events| - 1;
            OrphanedSince(c, events, i, k) <==>
            OrphanedSince(c, events[..l], i, k) && !Reclaims(c, Safety.Run(c, events[..l]), k, events[l])
  {
    var l := |events| - 1;
    hide Safety.Run, Orphans, Reclaims;
    assert forall j :: 0 <= j <= l ==> events[..l][..j] == events[..j];
  }

  lemma SinceSome(c: Setup, events: seq<Event>, k: Key)
    requires events != []
    ensures var l := |events| - 1;
      (exists i :: OrphanedSince(c, events, i, k)) <==>
        || Orphans(c, Safety.Run(c, events[..l]), k, events[l])
        || ((exists i :: OrphanedSince(c, events[..l], i, k))
            && !Reclaims(c, Safety.Run(c, events[..l]), k, events[l]))
  {
    var l := |events| - 1;
    hide Safety.Run, Orphans, Reclaims;
    if i :| OrphanedSince(c, events, i, k) {
      if i < l {
        SinceFront(c, events, i, k);
      }
    }
    if i :| OrphanedSince(c, events[..l], i, k) {
      SinceFront(c, events, i, k);
    }
    assert Orphans(c, Safety.Run(c, events[..l]), k, events[l]) ==> OrphanedSince(c, events, l, k);
  }

  /** In every run an entry is without a protected original exactly if one of these failures has left it so and nothing
      has reclaimed it since. */
  lemma {:induction false} OrphanedExactly(c: Setup, events: seq<Event>, k: Key)
    requires c.Valid()
    ensures Orphaned(c, Safety.Run(c, events), k) <==> exists i :: OrphanedSince(c, events, i, k)
    decreases |events|
  {
    if events != [] {
      var l := |events| - 1;
      RunFront(c, events);
      RunInv(c, events[..l]);
      OrphanedNext(c, Safety.Run(c, events[..l]), k, events[l]);
      SinceSome(c, events, k);
      OrphanedExactly(c, events[..l], k);
    }
  }

  lemma RunFront(c: Setup, events: seq<Event>)
    requires events != []
    ensures var l := |events| - 1; Safety.Run(c, events) == Next(c, Safety.Run(c, events[..l]), events[l])
  {
    hide Next;
  }

  // --- They stay

  /** The original is gone, its entry is not, and nobody works on it. */
  ghost predicate LeftBehind(c: Setup, s: State, k: Key) {
    k !in s.source && WorkerOf(s, k) == Idle && Recorded(s.world.entries, c.kind, c.Replica(k))
  }

  lemma WorkKeepsEntry(c: Setup, s: State, l: Key, fault: Fault, k: Key)
    requires c.Valid() && !WorkerOf(s, l).Strip? && k != l
    requires Recorded(s.world.entries, c.kind, c.Replica(k))
    ensures Recorded(Work(c, s, l, fault).world.entries, c.kind, c.Replica(k))
  {
    WorkIsLocal(c, s, l, fault);
    ReplicasDiffer(c, k, l);
    if WorkerOf(s, l).Record? {
      SetKeeps(s.world, c.kind, c.Replica(l), Request("", l), fault, c.Replica(k));
    } else if WorkerOf(s, l).Unrecord? {
      RemovedRecorded(s.world.entries, c.kind, c.Replica(l), c.Replica(k));
    }
  }

  /** No event but a new original under the key brings such an entry into reach again. */
  lemma StrandedEntryStays(c: Setup, s: State, k: Key, e: Event)
    requires c.Valid() && Inv(c, s) && LeftBehind(c, s, k) && !(e.UserCreates? && e.k == k)
    ensures LeftBehind(c, Next(c, s, e), k)
  {
    if e.Worked? && e.k != k {
      assert WorkerOk(c, s, e.k);
      WorkIsLocal(c, s, e.k, e.fault);
      WorkKeepsEntry(c, s, e.k, e.fault, k);
      hide Work;
      OutsideIsSame(s.source, Work(c, s, e.k, e.fault).source, e.k, k);
      OutsideIsSame(s.workers, Work(c, s, e.k, e.fault).workers, e.k, k);
    }
  }

  /** Once the original is gone while its entry is not, the entry stays in every run without a new original under the
      key. */
  lemma {:induction false} StrandedEntryStaysForEver(c: Setup, before: seq<Event>, k: Key, after: seq<Event>)
    requires c.Valid() && LeftBehind(c, Safety.Run(c, before), k)
    requires forall i :: 0 <= i < |after| ==> !(after[i].UserCreates? && after[i].k == k)
    ensures LeftBehind(c, Safety.Run(c, before + after), k)
    decreases |after|
  {
    if after == [] {
      assert before + after == before;
    } else {
      var l := |after| - 1;
      StrandedEntryStaysForEver(c, before, k, after[..l]);
      RunMore(c, before + after[..l], after[l]);
      assert before + after == before + after[..l] + [after[l]];
      RunInv(c, before + after[..l]);
      hide LeftBehind, Next, Inv;
      StrandedEntryStays(c, Safety.Run(c, before + after[..l]), k, after[l]);
    }
  }

  // ------------------------------------------------------------------------------------------
  // Runs

  lemma RunMore(c: Setup, events: seq<Event>, e: Event)
    ensures Safety.Run(c, events + [e]) == Next(c, Safety.Run(c, events), e)
  {
    hide Next;
  }

  /** Steps of the worker for k without any fault. */
  function Works(k: Key, n: nat): seq<Event> {
    if n == 0 then [] else Works(k, n - 1) + [Worked(k, NoFault)]
  }

  lemma {:induction false} RunWorks(c: Setup, events: seq<Event>, k: Key, n: nat)
    ensures Safety.Run(c, events + Works(k, n)) == WorkOn(c, Safety.Run(c, events), k, n)
  {
    if n == 0 {
      assert events + [] == events;
    } else {
      WorksMore(events, k, n - 1);
      WorkedIsWork(c, Safety.Run(c, events + Works(k, n - 1)), k);
      hide *;
      RunWorks(c, events, k, n - 1);
      RunMore(c, events + Works(k, n - 1), Worked(k, NoFault));
      WorkOneMore(c, Safety.Run(c, events), k, n - 1);
    }
  }

  lemma WorksMore(events: seq<Event>, k: Key, n: nat)
    ensures events + Works(k, n + 1) == events + Works(k, n) + [Worked(k, NoFault)]
  {}

  lemma WorkedIsWork(c: Setup, s: State, k: Key)
    ensures Next(c, s, Worked(k, NoFault)) == Work(c, s, k, NoFault)
  {
    hide Work;
  }

  /** A state in which k has just been replicated without anything else in its namespace's way. */
  ghost predicate Replicated(c: Setup, s: State, k: Key) {
    && k in s.source && !s.source[k].deleting && s.source[k].finalizers == {c.finalizer} && WorkerOf(s, k) == Idle
    && c.Replica(k) in s.target && s.target[c.Replica(k)] == Copy(s.source[k].uid, {}, false) && Kept(c, s, k)
  }

  /** The events that create and replicate k. */
  function Creating(k: Key): seq<Event> {
    [UserCreates(k, {}, true, false)] + Works(k, 5)
  }

  lemma RunCreating(c: Setup, events: seq<Event>, k: Key)
    ensures Safety.Run(c, events + Creating(k))
            == WorkOn(c, Next(c, Safety.Run(c, events), UserCreates(k, {}, true, false)), k, 5)
  {
    var e := UserCreates(k, {}, true, false);
    assert events + Creating(k) == events + [e] + Works(k, 5) by {
      hide Works;
    }
    hide *;
    RunMore(c, events, e);
    RunWorks(c, events + [e], k, 5);
  }

  lemma CreatedIsReplicated(c: Setup, s: State, k: Key)
    requires k !in s.source && WorkerOf(s, k) == Idle && c.Replica(k) !in s.target
    requires Usable(s, c.Replica(k).namespace) || c.Replica(k).namespace !in s.world.namespaces
    ensures var s' := WorkOn(c, Next(c, s, UserCreates(k, {}, true, false)), k, 5);
      && Replicated(c, s', k) && s'.source - {k} == s.source - {k}
      && s'.target - {c.Replica(k)} == s.target - {c.Replica(k)}
      && s'.world == SetStep(s.world, c.kind, c.Replica(k), Request("", k), false, NoFault).0
  {
    var obj := Object(s.nextUid, {}, false, true, false);
    var s1 := Next(c, s, UserCreates(k, {}, true, false));
    assert s1 == s.(source := s.source[k := obj], nextUid := s.nextUid + 1);
    ReplicationCompletes(c, s1, k);
    assert Taken(c, obj) == Object(s.nextUid, {c.finalizer}, false, true, false);
    assert {c.finalizer} - {c.finalizer} == {};
    hide WorkOn, SetStep, Kept, Next, Taken;
    MapFacts(s.source, k, obj, Taken(c, obj));
    MapFacts(s.target, c.Replica(k), Copy(obj.uid, {}, false), Copy(obj.uid, {}, false));
  }

  lemma {:induction false} WorkOnKeepsWorkers(c: Setup, s: State, k: Key, n: nat)
    ensures WorkOn(c, s, k, n).workers - {k} == s.workers - {k}
  {
    if 0 < n {
      WorkOnKeepsWorkers(c, s, k, n - 1);
      WorkKeepsWorkers(c, WorkOn(c, s, k, n - 1), k);
      hide Work;
    }
  }

  lemma StripKeepsWorkers(c: Setup, s: State, k: Key, fault: Fault)
    requires WorkerOf(s, k).Strip?
    ensures Work(c, s, k, fault).workers - {k} == s.workers - {k}
  {
    UpdateIsLocal(s.workers, k, WorkerOf(Work(c, s, k, fault), k));
  }

  lemma WorkKeepsWorkers(c: Setup, s: State, k: Key)
    ensures Work(c, s, k, NoFault).workers - {k} == s.workers - {k}
  {
    hide Work;
    if WorkerOf(s, k).Strip? {
      StripKeepsWorkers(c, s, k, NoFault);
    } else {
      WorkIsLocal(c, s, k, NoFault);
    }
  }

  lemma MapFacts<K, V>(m: map<K, V>, k: K, v: V, w: V)
    ensures m[k := v] - {k} == m - {k} && m[k := v][k := w] == m[k := w] && m[k := w] - {k} == m - {k}
  {}

  lemma DeletedIsReleasing(c: Setup, s: State, k: Key)
    requires Replicated(c, s, k)
    ensures var s' := WorkOn(c, Next(c, s, UserDeletes(k)), k, 5);
      && k in s'.source && s'.source[k] == s.source[k].(deleting := true) && WorkerOf(s', k) == Release(s'.source[k])
      && s'.world == s.world
  {
    var s1 := Next(c, s, UserDeletes(k));
    assert s1 == s.(source := s.source[k := s.source[k].(deleting := true)]) && Leaving(c, s1, k);
    hide WorkOn, Next;
    ReplicaGoes(c, s1, k);
    ReleaseIsReached(c, WorkOn(c, s1, k, 3), k);
    WorkOnMore(c, s1, k, 3, 2);
  }

  /** A run up to the point where k is to be released. */
  function Releasing(k: Key): seq<Event> {
    Creating(k) + [UserDeletes(k)] + Works(k, 5)
  }

  lemma ReleasingState(c: Setup, k: Key)
    ensures var s := Safety.Run(c, Releasing(k));
      && k in s.source && s.source[k].deleting && s.source[k].finalizers == {c.finalizer}
      && WorkerOf(s, k) == Release(s.source[k])
      && s.world == SetStep(World(map[], map[]), c.kind, c.Replica(k), Request("", k), false, NoFault).0
  {
    hide SetStep, Next, Works, WorkOn;
    assert [] + Creating(k) == Creating(k);
    RunCreating(c, [], k);
    CreatedIsReplicated(c, START, k);
    var s := Safety.Run(c, Creating(k));
    RunMore(c, Creating(k), UserDeletes(k));
    RunWorks(c, Creating(k) + [UserDeletes(k)], k, 5);
    DeletedIsReleasing(c, s, k);
  }

  lemma OnlyReference(kind: Kind, key: Key, tgt: Request)
    ensures var w := SetStep(World(map[], map[]), kind, key, tgt, false, NoFault).0;
            Recorded(w.entries, kind, key) && IssuesDelete(w.entries, kind, key)
  {
    AddedRefs(map[], kind, key, tgt, key.namespace);
    assert Refs(map[], key.namespace) == {};
  }

  /** Both happen: an original whose release is answered too late leaves its entry behind, and so does one whose entry
      cannot be removed because the delete of the namespace is refused. */
  lemma EntriesAreLeftBehind(c: Setup, k: Key) returns (lost: seq<Event>, refused: seq<Event>)
    ensures lost == Releasing(k) + [Worked(k, AnswerLost)] && LeftBehind(c, Safety.Run(c, lost), k)
    ensures refused == Releasing(k) + [Worked(k, NoFault)] + [Worked(k, Refused)]
    ensures LeftBehind(c, Safety.Run(c, refused), k)
  {
    var events := Releasing(k);
    var s := Safety.Run(c, events);
    lost := events + [Worked(k, AnswerLost)];
    refused := events + [Worked(k, NoFault)] + [Worked(k, Refused)];
    hide Releasing, SetStep, Recorded, IssuesDelete, Safety.Run;
    ReleasingState(c, k);
    OnlyReference(c.kind, c.Replica(k), Request("", k));
    RunMore(c, events, Worked(k, AnswerLost));
    RunMore(c, events, Worked(k, NoFault));
    RunMore(c, events + [Worked(k, NoFault)], Worked(k, Refused));
    ReleasedOriginalGoes(c, s, k, s.source[k]);
    var s1 := Goto(s.(source := s.source - {k}), k, Unrecord);
    assert Next(c, s, Worked(k, NoFault)) == s1;
    assert RemoveStep(s.world, c.kind, c.Replica(k), Refused).0.entries == s.world.entries;
    assert Next(c, s1, Worked(k, Refused))
           == Goto(s1.(world := RemoveStep(s.world, c.kind, c.Replica(k), Refused).0), k, Idle);
  }

  // --- A restart

  /** The mapping and the workers live in memory only. */
  function Restarted(s: State): State {
    s.(world := World(map[], s.world.namespaces), workers := map[])
  }

  lemma KeepsReplicated(c: Setup, s: State, s': State, k: Key, l: Key)
    requires c.Valid() && k != l && Replicated(c, s, k)
    requires s'.source - {l} == s.source - {l} && s'.target - {c.Replica(l)} == s.target - {c.Replica(l)}
    requires s'.workers - {l} == s.workers - {l}
    requires s'.world == SetStep(s.world, c.kind, c.Replica(l), Request("", l), false, NoFault).0
    ensures Replicated(c, s', k)
  {
    ReplicasDiffer(c, k, l);
    SetKeeps(s.world, c.kind, c.Replica(l), Request("", l), NoFault, c.Replica(k));
    hide SetStep, Recorded;
    OutsideIsSame(s.source, s'.source, l, k);
    OutsideIsSame(s.target, s'.target, c.Replica(l), c.Replica(k));
    OutsideIsSame(s.workers, s'.workers, l, k);
  }

  lemma OnlyReplicated(c: Setup, k: Key)
    ensures var s := Safety.Run(c, Creating(k));
      && Replicated(c, s, k) && s.source.Keys == {k} && s.target.Keys == {c.Replica(k)} && s.workers.Keys <= {k}
  {
    assert [] + Creating(k) == Creating(k);
    RunCreating(c, [], k);
    CreatedIsReplicated(c, START, k);
    WorkOnKeepsWorkers(c, Next(c, START, UserCreates(k, {}, true, false)), k, 5);
    var s := Safety.Run(c, Creating(k));
    hide Creating, SetStep, Next, WorkOn, Safety.Run;
    SingleKey(s.source, k);
    SingleKey(s.target, c.Replica(k));
    SingleKey(s.workers, k);
  }

  lemma SingleKey<K, V>(m: map<K, V>, k: K)
    requires m - {k} == map[]
    ensures m.Keys <= {k} && (k in m ==> m.Keys == {k})
  {
    assert forall x :: x in m && x != k ==> x in m - {k};
  }

  lemma BothReplicated(c: Setup, k: Key, l: Key)
    requires c.Valid() && k != l && k.namespace == l.namespace
    ensures var s := Safety.Run(c, Creating(k) + Creating(l)); Replicated(c, s, k) && Replicated(c, s, l)
  {
    hide SetStep, Works, WorkOn, Creating;
    var s := Safety.Run(c, Creating(k));
    OnlyReplicated(c, k);
    ReplicasDiffer(c, k, l);
    RunCreating(c, Creating(k), l);
    CreatedIsReplicated(c, s, l);
    WorkOnKeepsWorkers(c, Next(c, s, UserCreates(l, {}, true, false)), l, 5);
    hide Replicated;
    KeepsReplicated(c, s, Safety.Run(c, Creating(k) + Creating(l)), k, l);
  }

  /** A mapping that has forgotten a replica does not protect it: after a restart the deletion of one original takes
      the replica of the other one in its namespace with it, although that original lives. */
  lemma RestartLosesReplica(c: Setup, k: Key, l: Key)
    requires c.Valid() && k != l && k.namespace == l.namespace
    ensures var s := Safety.Run(c, Creating(k) + Creating(l));
      var cleaned := WorkOn(c, Next(c, Restarted(s), UserDeletes(k)), k, 7);
      var s' := Next(c, cleaned, NamespaceEmptied(c.Replica(k).namespace));
      && c.Replica(l) in s.target && Held(c, s, l, s.target[c.Replica(l)].origin)
      && c.Replica(l) !in s'.target && l in s'.source && s'.source[l] == s.source[l]
  {
    var s := Safety.Run(c, Creating(k) + Creating(l));
    BothReplicated(c, k, l);
    ReplicasDiffer(c, k, l);
    RestartedLoses(c, s, k, l);
  }

  lemma RestartedLoses(c: Setup, s: State, k: Key, l: Key)
    requires k != l && c.Replica(k) != c.Replica(l) && k.namespace == l.namespace
    requires Replicated(c, s, k) && Replicated(c, s, l)
    ensures var cleaned := WorkOn(c, Next(c, Restarted(s), UserDeletes(k)), k, 7);
      var s' := Next(c, cleaned, NamespaceEmptied(c.Replica(k).namespace));
      && c.Replica(l) in s.target && Held(c, s, l, s.target[c.Replica(l)].origin)
      && c.Replica(l) !in s'.target && l in s'.source && s'.source[l] == s.source[l]
  {
    var ns := c.Replica(k).namespace;
    var s0 := Next(c, Restarted(s), UserDeletes(k));
    assert s0 == Restarted(s).(source := s.source[k := s.source[k].(deleting := true)]) && Leaving(c, s0, k);
    hide WorkOn;
    CleanupCompletes(c, s0, k);
    var s1 := WorkOn(c, s0, k, 7);
    ForgottenIsLast(s0.world, c.kind, c.Replica(k));
    assert s1.world.namespaces == s.world.namespaces[ns := Terminating];
    assert c.Replica(l) !in Emptied(s1.target, ns);
  }

  lemma ForgottenIsLast(w: World, kind: Kind, key: Key)
    requires w.entries == map[] && key.namespace in w.namespaces
    ensures RemoveStep(w, kind, key, NoFault).0.namespaces == w.namespaces[key.namespace := Terminating]
  {
    assert Refs(w.entries, key.namespace) == {};
  }

  // --- A stale read

  /** Acting on a stale read that still shows the finalizer creates a replica of an unprotected original. */
  lemma StaleReadIsUnsafe(c: Setup, s: State, k: Key, stale: Object)
    requires c.Valid() && k in s.source && c.finalizer !in s.source[k].finalizers && c.finalizer in stale.finalizers
    requires WorkerOf(s, k) == TakeResponsibility(stale) && c.Replica(k) !in s.target
    requires Usable(s, c.Replica(k).namespace) || c.Replica(k).namespace !in s.world.namespaces
    ensures var s1 := Work(c, s, k, NoFault);
            var s4 := Work(c, Work(c, Work(c, s1, k, NoFault), k, NoFault), k, NoFault);
            c.Replica(k) in s4.target && !Held(c, s4, k, s4.target[c.Replica(k)].origin)
  {
    var s1 := Work(c, s, k, NoFault);
    assert s1 == Goto(s, k, Record(stale));
    SetKeeps(s.world, c.kind, c.Replica(k), Request("", k), NoFault, c.Replica(k));
    var s2 := Work(c, s1, k, NoFault);
    assert WorkerOf(s2, k) == Fetch(stale);
    var s3 := Work(c, s2, k, NoFault);
    assert WorkerOf(s3, k) == Create(stale);
  }

  /** A read that lags behind: a former version of the object in place of the current one. */
  ghost predicate Former(c: Setup, events: seq<Event>, k: Key, obj: Object) {
    exists i :: 0 <= i <= |events| && k in Safety.Run(c, events[..i]).source
      && Safety.Run(c, events[..i]).source[k] == obj
  }

  /** A run to a released original, whose former version still shows the finalizer. */
  function Taking(k: Key): seq<Event> {
    [UserCreates(k, {}, true, false)] + Works(k, 2)
  }

  function Rejecting(k: Key): seq<Event> {
    [Worked(k, Refused)] + [UserUpdates(k, {}, false, false)] + Works(k, 4) + [UserUpdates(k, {}, true, false)]
  }

  lemma TakenState(c: Setup, k: Key)
    ensures var s, obj := Safety.Run(c, Taking(k)), Object(0, {c.finalizer}, false, true, false);
      && s.source == map[k := obj] && s.target == map[] && s.world == World(map[], map[])
          && WorkerOf(s, k) == Record(obj)
  {
    var e, obj := UserCreates(k, {}, true, false), Object(0, {}, false, true, false);
    assert [] + [e] == [e];
    RunMore(c, [], e);
    RunWorks(c, [e], k, 2);
    var s := Next(c, START, e);
    assert s == START.(source := map[k := obj], nextUid := 1);
    hide WorkOn, Safety.Run, Works;
    OriginalIsTaken(c, s, k);
    assert Taken(c, obj) == Object(0, {c.finalizer}, false, true, false);
  }

  lemma RejectedState(c: Setup, s: State, k: Key)
    requires var obj := Object(0, {c.finalizer}, false, true, false);
      && s.source == map[k := obj] && s.target == map[] && s.world == World(map[], map[])
          && WorkerOf(s, k) == Record(obj)
    ensures var s1 := Next(c, Next(c, s, Worked(k, Refused)), UserUpdates(k, {}, false, false));
      && s1.source == map[k := Object(0, {c.finalizer}, false, false, false)] && s1.target == map[]
      && s1.world == World(map[], map[]) && WorkerOf(s1, k) == Idle
  {
    var s0 := Next(c, s, Worked(k, Refused));
    assert s0 == Goto(s, k, Idle);
    assert Foreign(c, {c.finalizer}, {}) == {c.finalizer};
  }

  lemma ReadsUnwanted(c: Setup, s: State, k: Key, obj: Object)
    requires WorkerOf(s, k) == Idle && k in s.source && s.source[k] == obj
    requires !obj.deleting && !obj.replicated && !obj.responsible
    ensures Work(c, s, k, NoFault) == Goto(s, k, Inspect(obj))
  {}

  lemma FindsNoReplica(c: Setup, s: State, k: Key, obj: Object)
    requires WorkerOf(s, k) == Inspect(obj) && c.Replica(k) !in s.target
    ensures Work(c, s, k, NoFault) == Goto(s, k, Release(obj))
  {}

  lemma LetsGo(c: Setup, s: State, k: Key, obj: Object)
    requires WorkerOf(s, k) == Release(obj) && s.source == map[k := obj]
    requires !obj.deleting && obj.finalizers == {c.finalizer}
    ensures Work(c, s, k, NoFault) == Goto(s.(source := map[k := obj.(finalizers := {})]), k, Unrecord)
  {
    assert obj.finalizers - {c.finalizer} == {};
  }

  lemma ReleasedState(c: Setup, s: State, k: Key)
    requires s.source == map[k := Object(0, {c.finalizer}, false, false, false)] && s.target == map[]
    requires s.world == World(map[], map[]) && WorkerOf(s, k) == Idle
    ensures var s4 := WorkOn(c, s, k, 4);
      && s4.source == map[k := Object(0, {}, false, false, false)] && s4.target == map[]
      && s4.world.namespaces == map[] && WorkerOf(s4, k) == Idle
  {
    var obj := Object(0, {c.finalizer}, false, false, false);
    hide WorkOn, Work, RemoveStep;
    WorkOnStart(c, s, k);
    WorkOneMore(c, s, k, 0);
    WorkOneMore(c, s, k, 1);
    WorkOneMore(c, s, k, 2);
    WorkOneMore(c, s, k, 3);
    ReadsUnwanted(c, s, k, obj);
    var s1 := Goto(s, k, Inspect(obj));
    FindsNoReplica(c, s1, k, obj);
    var s2 := Goto(s1, k, Release(obj));
    LetsGo(c, s2, k, obj);
    DropsEntry(c, Goto(s2.(source := map[k := obj.(finalizers := {})]), k, Unrecord), k);
    RemovedNothing(c.kind, c.Replica(k));
  }

  lemma RemovedNothing(kind: Kind, key: Key)
    ensures RemoveStep(World(map[], map[]), kind, key, NoFault).0.namespaces == map[]
  {}

  /** Acting on a former version of an object in a reachable state leaves a replica without a protected original. */
  lemma StaleReadLosesProtection(c: Setup, k: Key) returns (events: seq<Event>, stale: Object)
    requires c.Valid()
    ensures Former(c, events, k, stale)
    ensures var s := Safety.Run(c, events);
      && WorkerOf(s, k) == Idle
      && var s' := WorkOn(c, Dispatch(s, k, stale), k, 4);
        c.Replica(k) in s'.target && !Held(c, s', k, s'.target[c.Replica(k)].origin)
  {
    events := Taking(k) + Rejecting(k);
    stale := Object(0, {c.finalizer}, false, true, false);
    TakenState(c, k);
    assert events[..|Taking(k)|] == Taking(k);
    ReleasedRun(c, k);
    hide Taking, Rejecting, Safety.Run, WorkOn, Work;
    var s := Safety.Run(c, events);
    var s0 := Dispatch(s, k, stale);
    assert s0 == Goto(s, k, TakeResponsibility(stale));
    WorkOnStart(c, s0, k);
    WorkOneMore(c, s0, k, 0);
    WorkOneMore(c, s0, k, 1);
    WorkOneMore(c, s0, k, 2);
    WorkOneMore(c, s0, k, 3);
    StaleReadIsUnsafe(c, s0, k, stale);
  }

  lemma ReleasedRun(c: Setup, k: Key)
    ensures var s := Safety.Run(c, Taking(k) + Rejecting(k));
      && s.source == map[k := Object(0, {}, false, true, false)] && s.target == map[] && s.world.namespaces == map[]
      && WorkerOf(s, k) == Idle
  {
    RejectingRun(c, Taking(k), k);
    TakenState(c, k);
    hide Taking, Rejecting, Safety.Run, WorkOn, Works;
    var s := Safety.Run(c, Taking(k));
    RejectedState(c, s, k);
    var s2 := Next(c, Next(c, s, Worked(k, Refused)), UserUpdates(k, {}, false, false));
    hide Next;
    ReleasedState(c, s2, k);
    AcceptedAgain(c, WorkOn(c, s2, k, 4), k);
  }

  lemma RejectingRun(c: Setup, events: seq<Event>, k: Key)
    ensures var s2 := Next(c, Next(c, Safety.Run(c, events), Worked(k, Refused)), UserUpdates(k, {}, false, false));
            Safety.Run(c, events + Rejecting(k)) == Next(c, WorkOn(c, s2, k, 4), UserUpdates(k, {}, true, false))
  {
    var e1, e2, e3 := Worked(k, Refused), UserUpdates(k, {}, false, false), UserUpdates(k, {}, true, false);
    assert events + Rejecting(k) == events + [e1] + [e2] + Works(k, 4) + [e3] by {
      hide Works;
    }
    hide *;
    RunMore(c, events, e1);
    RunMore(c, events + [e1], e2);
    RunWorks(c, events + [e1] + [e2], k, 4);
    RunMore(c, events + [e1] + [e2] + Works(k, 4), e3);
  }

  lemma AcceptedAgain(c: Setup, s: State, k: Key)
    requires s.source == map[k := Object(0, {}, false, false, false)] && s.target == map[]
             && s.world.namespaces == map[]
    requires WorkerOf(s, k) == Idle
    ensures var s' := Next(c, s, UserUpdates(k, {}, true, false));
      && s'.source == map[k := Object(0, {}, false, true, false)] && s'.target == map[] && s'.world.namespaces == map[]
      && WorkerOf(s', k) == Idle
  {
    assert Foreign(c, {}, {}) == {};
  }
}
