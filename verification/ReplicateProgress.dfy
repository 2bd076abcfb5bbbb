/** What the replication protocol achieves when nothing disturbs it
    (examples/simple/controllers/replicate/logic.go). */
module ReplicateProgress {
  import opened Wrappers
  import opened ReplicationMapping
  import opened Replicate

  function WorkOn(c: Setup, s: State, k: Key, steps: nat): State {
    if steps == 0 then s else Work(c, WorkOn(c, s, k, steps - 1), k, NoFault)
  }

  lemma WorkOnStart(c: Setup, s: State, k: Key)
    ensures WorkOn(c, s, k, 0) == s
  {}

  lemma WorkOneMore(c: Setup, s: State, k: Key, steps: nat)
    ensures WorkOn(c, s, k, steps + 1) == Work(c, WorkOn(c, s, k, steps), k, NoFault)
  {
    hide Work;
  }

  lemma {:induction false} WorkOnMore(c: Setup, s: State, k: Key, m: nat, n: nat)
    ensures WorkOn(c, s, k, m + n) == WorkOn(c, WorkOn(c, s, k, m), k, n)
    decreases n
  {
    hide Work;
    if 0 < n {
      WorkOnMore(c, s, k, m, n - 1);
      WorkOneMore(c, s, k, m + (n - 1));
      WorkOneMore(c, WorkOn(c, s, k, m), k, n - 1);
    }
  }

  /** The original with the finalizer of the controller. */
  function Taken(c: Setup, obj: Object): Object {
    obj.(finalizers := obj.finalizers + {c.finalizer})
  }

  lemma OriginalIsTaken(c: Setup, s: State, k: Key)
    requires k in s.source && WorkerOf(s, k) == Idle
    requires var obj := s.source[k]; !obj.deleting && !obj.replicated && obj.responsible
    ensures var s2 := WorkOn(c, s, k, 2);
      && WorkerOf(s2, k) == Record(Taken(c, s.source[k])) && s2.source == s.source[k := Taken(c, s.source[k])]
      && s2.world == s.world && s2.target == s.target
  {
    hide WorkOn;
    WorkOnStart(c, s, k);
    WorkOneMore(c, s, k, 0);
    WorkOneMore(c, s, k, 1);
    var s1, obj := Work(c, s, k, NoFault), s.source[k];
    assert s1 == Goto(s, k, TakeResponsibility(obj));
    if c.finalizer in obj.finalizers {
      assert Taken(c, obj).finalizers == obj.finalizers;
    }
  }

  lemma ReplicaIsMade(c: Setup, s: State, k: Key, obj: Object)
    requires WorkerOf(s, k) == Record(obj) && c.Replica(k) !in s.target
    requires Usable(s, c.Replica(k).namespace) || c.Replica(k).namespace !in s.world.namespaces
    ensures var s3 := WorkOn(c, s, k, 3);
      && WorkerOf(s3, k) == Idle && s3.source == s.source
      && s3.target == s.target[c.Replica(k) := Copy(obj.uid, obj.finalizers - {c.finalizer}, false)]
      && s3.world == SetStep(s.world, c.kind, c.Replica(k), Request("", k), false, NoFault).0 && Kept(c, s3, k)
  {
    hide WorkOn;
    WorkOnStart(c, s, k);
    WorkOneMore(c, s, k, 0);
    WorkOneMore(c, s, k, 1);
    WorkOneMore(c, s, k, 2);
    SetKeeps(s.world, c.kind, c.Replica(k), Request("", k), NoFault, c.Replica(k));
    var s1 := Work(c, s, k, NoFault);
    var w := SetStep(s.world, c.kind, c.Replica(k), Request("", k), false, NoFault).0;
    assert s1 == Goto(s.(world := w), k, Fetch(obj)) && Kept(c, s1, k);
    hide SetStep;
    var s2 := Work(c, s1, k, NoFault);
    assert s2 == Goto(s1, k, Create(obj));
  }

  /** An undisturbed worker replicates a responsible original. */
  lemma ReplicationCompletes(c: Setup, s: State, k: Key)
    requires k in s.source && WorkerOf(s, k) == Idle && c.Replica(k) !in s.target
    requires var obj := s.source[k]; !obj.deleting && !obj.replicated && obj.responsible
    requires Usable(s, c.Replica(k).namespace) || c.Replica(k).namespace !in s.world.namespaces
    ensures var s5, obj := WorkOn(c, s, k, 5), Taken(c, s.source[k]);
      && WorkerOf(s5, k) == Idle && s5.source == s.source[k := obj]
      && s5.target == s.target[c.Replica(k) := Copy(obj.uid, obj.finalizers - {c.finalizer}, false)]
      && s5.world == SetStep(s.world, c.kind, c.Replica(k), Request("", k), false, NoFault).0 && Kept(c, s5, k)
      && Original(s5.world.entries, c.kind, c.Replica(k)) == Some(Request("", k))
  {
    hide WorkOn;
    OriginalIsTaken(c, s, k);
    var s2 := WorkOn(c, s, k, 2);
    ReplicaIsMade(c, s2, k, Taken(c, s.source[k]));
    WorkOnMore(c, s, k, 2, 3);
    AddedOriginal(s.world.entries, c.kind, c.Replica(k), Request("", k), c.kind, c.Replica(k));
    hide Added, Original;
  }

  lemma ReplicaIsUpdated(c: Setup, s: State, k: Key, obj: Object)
    requires WorkerOf(s, k) == Record(obj) && c.Replica(k) in s.target && !s.target[c.Replica(k)].deleting
    requires Usable(s, c.Replica(k).namespace)
    ensures var s3, t := WorkOn(c, s, k, 3), c.Replica(k);
      && WorkerOf(s3, k) == Idle && s3.source == s.source
      && s3.target == s.target[t := s.target[t].(origin := obj.uid)]
      && s3.world == SetStep(s.world, c.kind, t, Request("", k), false, NoFault).0
  {
    var t := c.Replica(k);
    var w := SetStep(s.world, c.kind, t, Request("", k), false, NoFault).0;
    var s1 := Goto(s.(world := w), k, Fetch(obj));
    assert Work(c, s, k, NoFault) == s1;
    hide WorkOn, SetStep;
    WorkOnStart(c, s, k);
    WorkOneMore(c, s, k, 0);
    WorkOneMore(c, s, k, 1);
    WorkOneMore(c, s, k, 2);
    var s2 := Goto(s1, k, Apply(obj, s.target[t].finalizers));
    assert Work(c, s1, k, NoFault) == s2;
    assert Work(c, s2, k, NoFault) == Goto(s2.(target := s.target[t := s.target[t].(origin := obj.uid)]), k, Idle);
  }

  /** With a replica in place it is brought up to date with the present original instead, keeping its finalizers. */
  lemma UpdateCompletes(c: Setup, s: State, k: Key)
    requires k in s.source && WorkerOf(s, k) == Idle
    requires c.Replica(k) in s.target && !s.target[c.Replica(k)].deleting && Usable(s, c.Replica(k).namespace)
    requires var obj := s.source[k]; !obj.deleting && !obj.replicated && obj.responsible
    ensures var s5, obj, t := WorkOn(c, s, k, 5), s.source[k], c.Replica(k);
      && WorkerOf(s5, k) == Idle && s5.source == s.source[k := obj.(finalizers := obj.finalizers + {c.finalizer})]
      && s5.target == s.target[t := s.target[t].(origin := obj.uid)]
      && Original(s5.world.entries, c.kind, t) == Some(Request("", k))
  {
    hide WorkOn;
    OriginalIsTaken(c, s, k);
    var s2 := WorkOn(c, s, k, 2);
    ReplicaIsUpdated(c, s2, k, Taken(c, s.source[k]));
    WorkOnMore(c, s, k, 2, 3);
    AddedOriginal(s.world.entries, c.kind, c.Replica(k), Request("", k), c.kind, c.Replica(k));
    hide Added, Original;
  }

  /** A call that is refused ends the reconciliation and changes no object. Two steps need no call: taking an original
      that has the finalizer already, and releasing one that has not. */
  lemma RefusedCallChangesNothing(c: Setup, s: State, k: Key)
    requires match WorkerOf(s, k)
             case TakeResponsibility(obj) => c.finalizer !in obj.finalizers
             case Release(obj) => c.finalizer in obj.finalizers
             case _ => true
    ensures var s' := Work(c, s, k, Refused);
            WorkerOf(s', k) == Idle && s'.source == s.source && s'.target == s.target
  {
    hide RemoveStep;
  }

  /** A replica that is being deleted is left alone, both by replication and by cleanup, until it is gone. */
  lemma DeletedReplicaIsAwaited(c: Setup, s: State, k: Key, obj: Object)
    requires c.Replica(k) in s.target && s.target[c.Replica(k)].deleting
    requires c.finalizer !in s.target[c.Replica(k)].finalizers
    ensures WorkerOf(s, k) == Fetch(obj) || WorkerOf(s, k) == Inspect(obj) ==>
              Work(c, s, k, NoFault) == Goto(s, k, Idle)
  {}

  /** A worker at rest leaves replicas in the source cluster alone, unless they are being deleted. */
  lemma ReplicasAreSkipped(c: Setup, s: State, k: Key, fault: Fault)
    requires WorkerOf(s, k) == Idle && (k in s.source ==> s.source[k].replicated && !s.source[k].deleting)
    ensures Work(c, s, k, fault) == s
  {}

  /** A worker at rest whose original k is going away, or is not to be replicated any more. */
  ghost predicate Leaving(c: Setup, s: State, k: Key) {
    && k in s.source && WorkerOf(s, k) == Idle
    && (s.source[k].deleting || (!s.source[k].replicated && !s.source[k].responsible))
  }

  /** The originals after k has lost the finalizer of the controller: it goes if that is what it was waiting for. */
  function LetGo(c: Setup, source: map<Key, Object>, k: Key): map<Key, Object>
    requires k in source
  {
    var obj := source[k];
    if c.finalizer !in obj.finalizers then source
    else if obj.deleting && obj.finalizers == {c.finalizer} then source - {k}
    else source[k := obj.(finalizers := obj.finalizers - {c.finalizer})]
  }

  lemma ReplicaGoes(c: Setup, s: State, k: Key)
    requires Leaving(c, s, k)
    requires c.Replica(k) in s.target && s.target[c.Replica(k)].finalizers == {} && !s.target[c.Replica(k)].deleting
    ensures var s3 := WorkOn(c, s, k, 3);
            Leaving(c, s3, k) && s3.source == s.source && s3.target == s.target - {c.Replica(k)} && s3.world == s.world
  {
    hide WorkOn;
    WorkOnStart(c, s, k);
    WorkOneMore(c, s, k, 0);
    WorkOneMore(c, s, k, 1);
    WorkOneMore(c, s, k, 2);
    var s1 := Work(c, s, k, NoFault);
    assert s1 == Goto(s, k, Inspect(s.source[k]));
    var s2 := Work(c, s1, k, NoFault);
    assert s2 == Goto(s1, k, Delete);
  }

  lemma ReleaseIsReached(c: Setup, s: State, k: Key)
    requires Leaving(c, s, k) && c.Replica(k) !in s.target
    ensures var s2 := WorkOn(c, s, k, 2);
            && WorkerOf(s2, k) == Release(s.source[k])
            && s2.source == s.source && s2.target == s.target && s2.world == s.world
  {
    hide WorkOn;
    WorkOnStart(c, s, k);
    WorkOneMore(c, s, k, 0);
    WorkOneMore(c, s, k, 1);
    var s1 := Goto(s, k, Inspect(s.source[k]));
    assert Work(c, s, k, NoFault) == s1;
    assert Work(c, s1, k, NoFault) == Goto(s1, k, Release(s.source[k]));
    hide Work;
  }

  lemma DropsEntry(c: Setup, s: State, k: Key)
    requires WorkerOf(s, k) == Unrecord
    ensures Work(c, s, k, NoFault) == Goto(s.(world := RemoveStep(s.world, c.kind, c.Replica(k), NoFault).0), k, Idle)
  {}

  lemma ReleasedOriginal(c: Setup, s: State, k: Key, obj: Object)
    requires WorkerOf(s, k) == Release(obj) && k in s.source && s.source[k] == obj
    ensures Work(c, s, k, NoFault) == Goto(s.(source := LetGo(c, s.source, k)), k, Unrecord)
  {
    assert obj.finalizers - {c.finalizer} == {} <==> obj.finalizers <= {c.finalizer};
  }

  lemma ReleaseCompletes(c: Setup, s: State, k: Key, obj: Object)
    requires WorkerOf(s, k) == Release(obj) && k in s.source && s.source[k] == obj
    ensures var s2 := WorkOn(c, s, k, 2);
      && WorkerOf(s2, k) == Idle && s2.source == LetGo(c, s.source, k) && s2.target == s.target
      && s2.world == RemoveStep(s.world, c.kind, c.Replica(k), NoFault).0
  {
    hide WorkOn, Work, RemoveStep, LetGo;
    WorkOnStart(c, s, k);
    WorkOneMore(c, s, k, 0);
    WorkOneMore(c, s, k, 1);
    ReleasedOriginal(c, s, k, obj);
    DropsEntry(c, Goto(s.(source := LetGo(c, s.source, k)), k, Unrecord), k);
  }

  lemma ReleasedOriginalGoes(c: Setup, s: State, k: Key, obj: Object)
    requires WorkerOf(s, k) == Release(obj) && k in s.source && s.source[k] == obj
    requires obj.deleting && obj.finalizers == {c.finalizer}
    ensures Work(c, s, k, NoFault) == Goto(s.(source := s.source - {k}), k, Unrecord)
    ensures Work(c, s, k, AnswerLost) == Goto(s.(source := s.source - {k}), k, Idle)
  {
    assert obj.finalizers - {c.finalizer} == {};
  }

  /** After its original has been deleted, or is not to be replicated any more, an undisturbed worker removes the
      replica, lets the original go and drops the entry, with the namespace if it was the last one. */
  lemma CleanupCompletes(c: Setup, s: State, k: Key)
    requires Leaving(c, s, k)
    requires c.Replica(k) in s.target && s.target[c.Replica(k)].finalizers == {} && !s.target[c.Replica(k)].deleting
    ensures var s7 := WorkOn(c, s, k, 7);
      && WorkerOf(s7, k) == Idle && s7.source == LetGo(c, s.source, k) && s7.target == s.target - {c.Replica(k)}
      && s7.world == RemoveStep(s.world, c.kind, c.Replica(k), NoFault).0
      && Original(s7.world.entries, c.kind, c.Replica(k)) == None
  {
    hide WorkOn, LetGo, Leaving;
    ReplicaGoes(c, s, k);
    var s3 := WorkOn(c, s, k, 3);
    ReleaseIsReached(c, s3, k);
    WorkOnMore(c, s, k, 3, 2);
    assert Leaving(c, s3, k);
    StillThere(c, s3, k);
    ReleaseCompletes(c, WorkOn(c, s, k, 5), k, s3.source[k]);
    WorkOnMore(c, s, k, 5, 2);
    RemovedOriginal(s.world.entries, c.kind, c.Replica(k), c.kind, c.Replica(k));
    hide Removed, Original;
  }

  lemma StillThere(c: Setup, s: State, k: Key)
    requires Leaving(c, s, k)
    ensures k in s.source
  {}
}
