/** Restarts and stale reads beside the events of the replication protocol: which of them keep its invariant
    (examples/simple/controllers/replicate/logic.go, controller/replication/mapping.go). */
module ReplicateIncidents {
  import opened ReplicationMapping
  import opened Replicate
  import opened ReplicateRuns
  import Safety = ReplicateSafety

  datatype Incident =
    | Regular(e: Event)
    // a worker at rest reads obj, which may be any former version of its original
    | Reads(k: Key, obj: Object)
    | Restarts

  function Happens(c: Setup, s: State, i: Incident): State {
    match i
    case Regular(e) => Next(c, s, e)
    case Reads(k, obj) => if WorkerOf(s, k).Idle? then Dispatch(s, k, obj) else s
    case Restarts => Restarted(s)
  }

  /** A reconciliation of obj goes on to replicate it. */
  predicate Replicates(obj: Object) {
    !obj.deleting && !obj.replicated && obj.responsible
  }

  /** A read is safe unless it shows the finalizer on an object to be replicated that does not hold it any more, and
      a restart if there is no replica. */
  ghost predicate Safe(c: Setup, s: State, i: Incident) {
    match i
    case Regular(_) => true
    case Reads(k, obj) =>
      WorkerOf(s, k).Idle? && Replicates(obj) && c.finalizer in obj.finalizers ==> Held(c, s, k, obj.uid)
    case Restarts => s.target == map[]
  }

  lemma ReadKeepsInv(c: Setup, s: State, k: Key, obj: Object)
    requires Inv(c, s)
    ensures Inv(c, Happens(c, s, Reads(k, obj))) <==> Safe(c, s, Reads(k, obj))
  {
    var s' := Happens(c, s, Reads(k, obj));
    forall l
      ensures ReplicaOk(c, s', l) && (l != k ==> WorkerOk(c, s', l))
    {
      assert ReplicaOk(c, s, l) && WorkerOk(c, s, l);
    }
    assert WorkerOk(c, s, k);
    assert WorkerOk(c, s', k) <==> Safe(c, s, Reads(k, obj));
  }

  lemma RestartKeepsInv(c: Setup, s: State)
    requires Inv(c, s)
    ensures Inv(c, Restarted(s)) <==> s.target == map[]
  {
    var s' := Restarted(s);
    forall k
      ensures WorkerOk(c, s', k) && !Kept(c, s', k)
    {}
    if t :| t in s.target {
      var k :| t == c.Replica(k);
      assert !ReplicaOk(c, s', k);
    }
  }

  /** Exactly the safe incidents keep the invariant. */
  lemma SafeExactly(c: Setup, s: State, i: Incident)
    requires c.Valid() && Inv(c, s)
    ensures Inv(c, Happens(c, s, i)) <==> Safe(c, s, i)
  {
    match i {
      case Regular(e) => Safety.NextKeepsInv(c, s, e);
      case Reads(k, obj) => ReadKeepsInv(c, s, k, obj);
      case Restarts => RestartKeepsInv(c, s);
    }
  }

  function Outcome(c: Setup, incidents: seq<Incident>): State {
    if incidents == [] then Safety.START
    else Happens(c, Outcome(c, incidents[..|incidents| - 1]), incidents[|incidents| - 1])
  }

  ghost predicate AlwaysInv(c: Setup, incidents: seq<Incident>) {
    forall i :: 0 <= i <= |incidents| ==> Inv(c, Outcome(c, incidents[..i]))
  }

  ghost predicate AllSafe(c: Setup, incidents: seq<Incident>) {
    forall i :: 0 <= i < |incidents| ==> Safe(c, Outcome(c, incidents[..i]), incidents[i])
  }

  /** The invariant holds throughout a run exactly if all its restarts and reads are safe. */
  lemma {:induction false} SafeRunExactly(c: Setup, incidents: seq<Incident>)
    requires c.Valid()
    ensures AlwaysInv(c, incidents) <==> AllSafe(c, incidents)
    decreases |incidents|
  {
    if incidents != [] {
      var l := |incidents| - 1;
      SafeRunExactly(c, incidents[..l]);
      if Inv(c, Outcome(c, incidents[..l])) {
        SafeExactly(c, Outcome(c, incidents[..l]), incidents[l]);
      }
      hide Inv, Safe, Happens, AlwaysInv, AllSafe;
      AlwaysLonger(c, incidents);
      SafeLonger(c, incidents);
    }
  }

  /** So with safe incidents every replica has its live, protected original. */
  lemma ReplicasStayProtected(c: Setup, incidents: seq<Incident>, t: Key)
    requires c.Valid() && AllSafe(c, incidents)
    ensures var s := Outcome(c, incidents);
      t in s.target ==> exists k :: t == c.Replica(k) && Held(c, s, k, s.target[t].origin)
  {
    hide Happens;
    SafeRunExactly(c, incidents);
    var s := Outcome(c, incidents);
    assert incidents[..|incidents|] == incidents && Inv(c, s);
    if t in s.target {
      var k :| t == c.Replica(k);
      assert ReplicaOk(c, s, k);
    }
  }

  lemma AlwaysLonger(c: Setup, incidents: seq<Incident>)
    requires incidents != []
    ensures var front := incidents[..|incidents| - 1];
      && (AlwaysInv(c, incidents) <==> AlwaysInv(c, front) && Inv(c, Outcome(c, incidents)))
      && (AlwaysInv(c, front) ==> Inv(c, Outcome(c, front)))
  {
    var l := |incidents| - 1;
    hide Inv, Outcome;
    assert forall i :: 0 <= i <= l ==> incidents[..l][..i] == incidents[..i];
    assert incidents[..l + 1] == incidents;
  }

  lemma SafeLonger(c: Setup, incidents: seq<Incident>)
    requires incidents != []
    ensures var l := |incidents| - 1;
      AllSafe(c, incidents) <==>
        AllSafe(c, incidents[..l]) && Safe(c, Outcome(c, incidents[..l]), incidents[l])
  {
    var l := |incidents| - 1;
    hide Safe, Outcome;
    assert forall i :: 0 <= i <= l ==> incidents[..l][..i] == incidents[..i];
  }
}
