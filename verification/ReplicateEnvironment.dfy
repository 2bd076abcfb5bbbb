/** What users and clusters can do to the replication protocol
    (examples/simple/controllers/replicate/logic.go). */
module ReplicateEnvironment {
  import opened ReplicationMapping
  import opened Replicate

  /** What users and clusters do never lets go of a held original. */
  ghost predicate Weaker(c: Setup, s: State, s': State, l: Key) {
    && (forall uid: nat :: Held(c, s, l, uid) ==> Held(c, s', l, uid))
    && (Kept(c, s, l) ==> Kept(c, s', l))
    && WorkerOf(s, l) == WorkerOf(s', l)
    && (c.Replica(l) in s'.target ==>
          && c.Replica(l) in s.target
          && s'.target[c.Replica(l)].origin == s.target[c.Replica(l)].origin
          && (c.finalizer !in s.target[c.Replica(l)].finalizers ==> c.finalizer !in s'.target[c.Replica(l)].finalizers))
  }

  lemma WeakerKeeps(c: Setup, s: State, s': State, l: Key)
    requires Inv(c, s) && Weaker(c, s, s', l)
    ensures ReplicaOk(c, s', l) && WorkerOk(c, s', l)
  {
    assert ReplicaOk(c, s, l) && WorkerOk(c, s, l);
  }

  lemma SourceUsersAreWeaker(c: Setup, s: State, e: Event, l: Key)
    requires e.UserCreates? || e.UserUpdates? || e.UserDeletes?
    ensures Weaker(c, s, Next(c, s, e), l)
  {}

  lemma TargetUsersAreWeaker(c: Setup, s: State, e: Event, l: Key)
    requires e.ReplicaUpdated? || e.ReplicaDeleted?
    ensures Weaker(c, s, Next(c, s, e), l)
  {}

  lemma NamespacesAreWeaker(c: Setup, s: State, e: Event, l: Key)
    requires e.NamespaceEmptied? || e.NamespaceFinished?
    ensures Weaker(c, s, Next(c, s, e), l)
  {}

  lemma EnvironmentIsWeaker(c: Setup, s: State, e: Event, l: Key)
    requires !e.Worked?
    ensures Weaker(c, s, Next(c, s, e), l)
  {
    hide *;
    if e.UserCreates? || e.UserUpdates? || e.UserDeletes? {
      SourceUsersAreWeaker(c, s, e, l);
    } else if e.ReplicaUpdated? || e.ReplicaDeleted? {
      TargetUsersAreWeaker(c, s, e, l);
    } else {
      NamespacesAreWeaker(c, s, e, l);
    }
  }
}
