/** The replication protocol of the example controller (examples/simple/controllers/replicate/logic.go),
    dispatched by the request handling (controller/controllerutils/reconciler/request.go): one worker per
    original, every API call an atomic step, interleaved with users and the clusters themselves. */
module Replicate {
  import opened ReplicationMapping

  /** The injective choice of target namespaces, the finalizer of the controller and the resource kind. */
  datatype Setup = Setup(namespaceFor: string -> string, finalizer: string, kind: Kind) {
    ghost predicate Valid() {
      forall a, b :: namespaceFor(a) == namespaceFor(b) ==> a == b
    }

    function Replica(k: Key): Key {
      Key(namespaceFor(k.namespace), k.name)
    }
  }

  /** An object of the source cluster; uid tells incarnations under the same key apart. */
  datatype Object = Object(uid: nat, finalizers: set<string>, deleting: bool, responsible: bool, replicated: bool)

  /** An object of the target cluster and the incarnation it was copied from. */
  datatype Copy = Copy(origin: nat, finalizers: set<string>, deleting: bool)

  /** Where the worker for a key stands, with the object it has read. */
  datatype Worker =
    | Idle
    | TakeResponsibility(obj: Object)
    | Record(obj: Object)
    | Fetch(obj: Object)
    | Create(obj: Object)
    | Apply(obj: Object, finalizers: set<string>)
    | Inspect(obj: Object)
    | Strip(found: Copy)
    | Delete
    | Release(obj: Object)
    | Unrecord

  datatype State = State(
    source: map<Key, Object>,
    target: map<Key, Copy>,
    world: World,
    workers: map<Key, Worker>,
    nextUid: nat)

  function WorkerOf(s: State, k: Key): Worker {
    if k in s.workers then s.workers[k] else Idle
  }

  function Goto(s: State, k: Key, w: Worker): State {
    s.(workers := s.workers[k := w])
  }

  /** The API server on finalizers: none may be added to an object under deletion. */
  predicate FinalizersAllowed(deleting: bool, old': set<string>, new': set<string>) {
    deleting ==> new' <= old'
  }

  /** Setting finalizers; an object under deletion goes with its last finalizer. */
  function PatchSource(s: State, k: Key, finalizers: set<string>): State
    requires k in s.source
  {
    if s.source[k].deleting && finalizers == {} then s.(source := s.source - {k})
    else s.(source := s.source[k := s.source[k].(finalizers := finalizers)])
  }

  function PatchTarget(s: State, t: Key, origin: nat, finalizers: set<string>): State
    requires t in s.target
  {
    if s.target[t].deleting && finalizers == {} then s.(target := s.target - {t})
    else s.(target := s.target[t := s.target[t].(origin := origin, finalizers := finalizers)])
  }

  function DeleteTarget(s: State, t: Key): State
    requires t in s.target
  {
    if s.target[t].finalizers == {} then s.(target := s.target - {t})
    else s.(target := s.target[t := s.target[t].(deleting := true)])
  }

  predicate Usable(s: State, ns: string) {
    ns in s.world.namespaces && s.world.namespaces[ns].Active?
  }

  // The steps of the worker for k; fault is the outcome of the API call of the step

  /** Request handling: the read that starts a reconciliation. */
  function Start(s: State, k: Key, fault: Fault): State {
    if k !in s.source || fault != NoFault then s
    else Dispatch(s, k, s.source[k])
  }

  /** What a reconciliation does with the object it has read. */
  function Dispatch(s: State, k: Key, obj: Object): State {
    if obj.deleting then Goto(s, k, Inspect(obj))
    else if obj.replicated then s
    else if !obj.responsible then Goto(s, k, Inspect(obj))
    else Goto(s, k, TakeResponsibility(obj))
  }

  function DoTakeResponsibility(c: Setup, s: State, k: Key, obj: Object, fault: Fault): State {
    var finalizers := obj.finalizers + {c.finalizer};
    if c.finalizer in obj.finalizers then Goto(s, k, Record(obj))
    else if k !in s.source || fault == Refused
            || !FinalizersAllowed(s.source[k].deleting, s.source[k].finalizers, finalizers) then Goto(s, k, Idle)
    else
      var s' := PatchSource(s, k, finalizers);
      if fault == AnswerLost || k !in s'.source then Goto(s', k, Idle) else Goto(s', k, Record(s'.source[k]))
  }

  /** A refused call is the one that creates the namespace, or the one that looks for it. */
  function DoRecord(c: Setup, s: State, k: Key, obj: Object, fault: Fault): State {
    var (w, ok) := SetStep(s.world, c.kind, c.Replica(k), Request("", k), fault == Refused, fault);
    Goto(s.(world := w), k, if ok then Fetch(obj) else Idle)
  }

  function DoFetch(c: Setup, s: State, k: Key, obj: Object, fault: Fault): State {
    var t := c.Replica(k);
    if fault != NoFault then Goto(s, k, Idle)
    else if t !in s.target then Goto(s, k, Create(obj))
    else if s.target[t].deleting then Goto(s, k, Idle)
    else Goto(s, k, Apply(obj, s.target[t].finalizers))
  }

  function DoCreate(c: Setup, s: State, k: Key, obj: Object, fault: Fault): State {
    var t := c.Replica(k);
    if fault == Refused || t in s.target || !Usable(s, t.namespace) then Goto(s, k, Idle)
    else Goto(s.(target := s.target[t := Copy(obj.uid, obj.finalizers - {c.finalizer}, false)]), k, Idle)
  }

  function DoApply(c: Setup, s: State, k: Key, obj: Object, finalizers: set<string>, fault: Fault): State {
    var t := c.Replica(k);
    if fault == Refused || t !in s.target
       || !FinalizersAllowed(s.target[t].deleting, s.target[t].finalizers, finalizers) then Goto(s, k, Idle)
    else Goto(PatchTarget(s, t, obj.uid, finalizers), k, Idle)
  }

  function DoInspect(c: Setup, s: State, k: Key, obj: Object, fault: Fault): State {
    var t := c.Replica(k);
    if fault != NoFault then Goto(s, k, Idle)
    else if t !in s.target then Goto(s, k, Release(obj))
    else if c.finalizer in s.target[t].finalizers then Goto(s, k, Strip(s.target[t]))
    else Goto(s, k, if s.target[t].deleting then Idle else Delete)
  }

  /** The patch for the replica is sent to the cluster of the original, under the key of the replica. */
  function DoStrip(c: Setup, s: State, k: Key, found: Copy, fault: Fault): State {
    var t, finalizers := c.Replica(k), found.finalizers - {c.finalizer};
    if t !in s.source || fault != NoFault
       || !FinalizersAllowed(s.source[t].deleting, s.source[t].finalizers, finalizers) then Goto(s, k, Idle)
    else Goto(PatchSource(s, t, finalizers), k, if found.deleting then Idle else Delete)
  }

  function DoDelete(c: Setup, s: State, k: Key, fault: Fault): State {
    if fault == Refused || c.Replica(k) !in s.target then Goto(s, k, Idle)
    else Goto(DeleteTarget(s, c.Replica(k)), k, Idle)
  }

  function DoRelease(c: Setup, s: State, k: Key, obj: Object, fault: Fault): State {
    var finalizers := obj.finalizers - {c.finalizer};
    if c.finalizer !in obj.finalizers then Goto(s, k, Unrecord)
    else if k !in s.source || fault == Refused
            || !FinalizersAllowed(s.source[k].deleting, s.source[k].finalizers, finalizers) then Goto(s, k, Idle)
    else Goto(PatchSource(s, k, finalizers), k, if fault == AnswerLost then Idle else Unrecord)
  }

  function DoUnrecord(c: Setup, s: State, k: Key, fault: Fault): State {
    Goto(s.(world := RemoveStep(s.world, c.kind, c.Replica(k), fault).0), k, Idle)
  }

  function Work(c: Setup, s: State, k: Key, fault: Fault): State {
    match WorkerOf(s, k)
    case Idle => Start(s, k, fault)
    case TakeResponsibility(obj) => DoTakeResponsibility(c, s, k, obj, fault)
    case Record(obj) => DoRecord(c, s, k, obj, fault)
    case Fetch(obj) => DoFetch(c, s, k, obj, fault)
    case Create(obj) => DoCreate(c, s, k, obj, fault)
    case Apply(obj, finalizers) => DoApply(c, s, k, obj, finalizers, fault)
    case Inspect(obj) => DoInspect(c, s, k, obj, fault)
    case Strip(found) => DoStrip(c, s, k, found, fault)
    case Delete => DoDelete(c, s, k, fault)
    case Release(obj) => DoRelease(c, s, k, obj, fault)
    case Unrecord => DoUnrecord(c, s, k, fault)
  }

  datatype Event =
    | Worked(k: Key, fault: Fault)
    // users of the source cluster
    | UserCreates(k: Key, finalizers: set<string>, responsible: bool, replicated: bool)
    | UserUpdates(k: Key, finalizers: set<string>, responsible: bool, replicated: bool)
    | UserDeletes(k: Key)
    // users of the target cluster
    | ReplicaUpdated(t: Key, finalizers: set<string>)
    | ReplicaDeleted(t: Key)
    // the target cluster empties and removes a namespace under deletion
    | NamespaceEmptied(ns: string)
    | NamespaceFinished(ns: string)

  /** Users edit other finalizers than the controller's. */
  function Foreign(c: Setup, had: set<string>, asked: set<string>): set<string> {
    asked - {c.finalizer} + (had * {c.finalizer})
  }

  /** Emptying a namespace deletes what it holds. */
  function Emptied(target: map<Key, Copy>, ns: string): map<Key, Copy> {
    map t | t in target && !(t.namespace == ns && target[t].finalizers == {}) ::
      if t.namespace == ns then target[t].(deleting := true) else target[t]
  }

  function Next(c: Setup, s: State, e: Event): State {
    match e
    case Worked(k, fault) => Work(c, s, k, fault)
    case UserCreates(k, finalizers, responsible, replicated) =>
      if k in s.source then s
      else s.(source := s.source[k := Object(s.nextUid, finalizers, false, responsible, replicated)],
              nextUid := s.nextUid + 1)
    case UserUpdates(k, asked, responsible, replicated) =>
      if k !in s.source then s
      else
        var obj := s.source[k];
        var finalizers := Foreign(c, obj.finalizers, asked);
        if !FinalizersAllowed(obj.deleting, obj.finalizers, finalizers) then s
        else
          var updated := obj.(responsible := responsible, replicated := replicated);
          PatchSource(s.(source := s.source[k := updated]), k, finalizers)
    case UserDeletes(k) =>
      if k !in s.source then s
      else if s.source[k].finalizers == {} then s.(source := s.source - {k})
      else s.(source := s.source[k := s.source[k].(deleting := true)])
    case ReplicaUpdated(t, asked) =>
      if t !in s.target then s
      else
        var finalizers := Foreign(c, s.target[t].finalizers, asked);
        if !FinalizersAllowed(s.target[t].deleting, s.target[t].finalizers, finalizers) then s
        else PatchTarget(s, t, s.target[t].origin, finalizers)
    case ReplicaDeleted(t) => if t !in s.target then s else DeleteTarget(s, t)
    case NamespaceEmptied(ns) =>
      if ns in s.world.namespaces && s.world.namespaces[ns].Terminating? then s.(target := Emptied(s.target, ns)) else s
    case NamespaceFinished(ns) =>
      if ns in s.world.namespaces && s.world.namespaces[ns].Terminating?
        && (forall t :: t in s.target ==> t.namespace != ns)
      then s.(world := s.world.(namespaces := s.world.namespaces - {ns})) else s
  }

  // ------------------------------------------------------------------------------------------
  // The invariant

  /** The original of k is there, in the incarnation uid, and held by the controller's finalizer. */
  ghost predicate Held(c: Setup, s: State, k: Key, uid: nat) {
    k in s.source && c.finalizer in s.source[k].finalizers && s.source[k].uid == uid
  }

  /** The mapping knows the original of k and keeps the target namespace. */
  ghost predicate Kept(c: Setup, s: State, k: Key) {
    Recorded(s.world.entries, c.kind, c.Replica(k)) && Usable(s, c.Replica(k).namespace)
  }

  ghost predicate WorkerOk(c: Setup, s: State, k: Key) {
    match WorkerOf(s, k)
    case TakeResponsibility(obj) => c.finalizer in obj.finalizers ==> Held(c, s, k, obj.uid)
    case Record(obj) => Held(c, s, k, obj.uid)
    case Fetch(obj) => Held(c, s, k, obj.uid) && Kept(c, s, k)
    case Create(obj) => Held(c, s, k, obj.uid) && Kept(c, s, k)
    case Apply(obj, finalizers) => Held(c, s, k, obj.uid) && Kept(c, s, k) && c.finalizer !in finalizers
    case Strip(_) => false
    case Release(_) => c.Replica(k) !in s.target
    case Unrecord => c.Replica(k) !in s.target
    case _ => true
  }

  /** A replica has a live original that is held, of the incarnation it was copied from, and a recorded
      entry in a usable namespace; it never carries the controller's finalizer itself. */
  ghost predicate ReplicaOk(c: Setup, s: State, k: Key) {
    var t := c.Replica(k);
    t in s.target ==> Held(c, s, k, s.target[t].origin) && Kept(c, s, k) && c.finalizer !in s.target[t].finalizers
  }

  ghost predicate Inv(c: Setup, s: State) {
    && (forall k :: ReplicaOk(c, s, k))
    && (forall k :: WorkerOk(c, s, k))
    && (forall t :: t in s.target ==> exists k :: t == c.Replica(k))
  }

  /** Nothing that concerns k has changed. */
  ghost predicate SameFor(c: Setup, s: State, s': State, k: Key) {
    && (k in s.source <==> k in s'.source) && (k in s.source ==> s'.source[k] == s.source[k])
    && (c.Replica(k) in s.target <==> c.Replica(k) in s'.target)
    && (c.Replica(k) in s.target ==> s'.target[c.Replica(k)] == s.target[c.Replica(k)])
    && (Kept(c, s, k) ==> Kept(c, s', k))
    && WorkerOf(s, k) == WorkerOf(s', k)
  }

  lemma OthersKeep(c: Setup, s: State, s': State, k: Key)
    requires Inv(c, s) && SameFor(c, s, s', k)
    ensures ReplicaOk(c, s', k) && WorkerOk(c, s', k)
  {
    assert ReplicaOk(c, s, k) && WorkerOk(c, s, k);
  }

  lemma ReplicasDiffer(c: Setup, k: Key, l: Key)
    requires c.Valid() && k != l
    ensures c.Replica(k) != c.Replica(l)
  {}

  lemma SetKeeps(w: World, kind: Kind, key: Key, tgt: Request, create: Fault, other: Key)
    ensures var (w', ok) := SetStep(w, kind, key, tgt, create == Refused, create);
      && (Recorded(w.entries, kind, other) ==> Recorded(w'.entries, kind, other))
      && (IsActive(w, other.namespace) ==> IsActive(w', other.namespace))
      && (ok ==> Recorded(w'.entries, kind, key) && IsActive(w', key.namespace))
  {}

  /** Removing an entry leaves every other recorded key recorded and its namespace usable. */
  lemma RemoveKeeps(w: World, kind: Kind, key: Key, delete: Fault, other: Key)
    requires Recorded(w.entries, kind, other) && IsActive(w, other.namespace) && other != key
    ensures var w' := RemoveStep(w, kind, key, delete).0;
            Recorded(w'.entries, kind, other) && IsActive(w', other.namespace)
  {
    if other.namespace == key.namespace {
      assert (kind, other.name) in Refs(w.entries, key.namespace);
    }
    RemovedRecorded(w.entries, kind, key, other);
  }

  lemma RemovedRecorded(entries: map<Kind, Entries>, kind: Kind, key: Key, other: Key)
    requires Recorded(entries, kind, other) && other != key
    ensures Recorded(entries[kind := Removed(EntriesOf(entries, kind), key)], kind, other)
  {
    if other.namespace == key.namespace {
      var rest := entries[kind][key.namespace] - {key.name};
      assert other.name in rest;
    }
  }

  /** A worker step changes no more than the objects of its own key and the mapping. */
  ghost predicate Local(c: Setup, s: State, s': State, k: Key) {
    && s'.source - {k} == s.source - {k}
    && s'.target - {c.Replica(k)} == s.target - {c.Replica(k)}
    && s'.workers - {k} == s.workers - {k}
  }

  lemma UpdateIsLocal<K, V>(m: map<K, V>, k: K, v: V)
    ensures m[k := v] - {k} == m - {k} && (m - {k}) - {k} == m - {k}
  {}

  lemma SourceIsLocal(c: Setup, s: State, k: Key, fault: Fault)
    requires WorkerOf(s, k).TakeResponsibility? || WorkerOf(s, k).Release?
    ensures Local(c, s, Work(c, s, k, fault), k)
  {
    var s' := Work(c, s, k, fault);
    UpdateIsLocal(s.workers, k, WorkerOf(s', k));
    if k in s.source && k in s'.source {
      UpdateIsLocal(s.source, k, s'.source[k]);
    } else if k in s.source {
      UpdateIsLocal(s.source, k, s.source[k]);
    }
  }

  lemma TargetIsLocal(c: Setup, s: State, k: Key, fault: Fault)
    requires WorkerOf(s, k).Create? || WorkerOf(s, k).Apply? || WorkerOf(s, k).Delete?
    ensures Local(c, s, Work(c, s, k, fault), k)
  {
    var s', t := Work(c, s, k, fault), c.Replica(k);
    UpdateIsLocal(s.workers, k, WorkerOf(s', k));
    if t in s'.target {
      UpdateIsLocal(s.target, t, s'.target[t]);
    } else if t in s.target {
      UpdateIsLocal(s.target, t, s.target[t]);
    }
  }

  lemma WorkIsLocal(c: Setup, s: State, k: Key, fault: Fault)
    requires !WorkerOf(s, k).Strip?
    ensures Local(c, s, Work(c, s, k, fault), k)
    ensures !WorkerOf(s, k).Record? && !WorkerOf(s, k).Unrecord? ==> Work(c, s, k, fault).world == s.world
  {
    match WorkerOf(s, k) {
      case TakeResponsibility(_) => SourceIsLocal(c, s, k, fault);
      case Release(_) => SourceIsLocal(c, s, k, fault);
      case Create(_) => TargetIsLocal(c, s, k, fault);
      case Apply(_, _) => TargetIsLocal(c, s, k, fault);
      case Delete => TargetIsLocal(c, s, k, fault);
      case _ => UpdateIsLocal(s.workers, k, WorkerOf(Work(c, s, k, fault), k));
    }
  }

  lemma WorkKeepsKept(c: Setup, s: State, k: Key, fault: Fault, l: Key)
    requires c.Valid() && l != k && Kept(c, s, l) && !WorkerOf(s, k).Strip?
    ensures Kept(c, Work(c, s, k, fault), l)
  {
    ReplicasDiffer(c, k, l);
    if WorkerOf(s, k).Record? {
      SetKeeps(s.world, c.kind, c.Replica(k), Request("", k), fault, c.Replica(l));
    } else if WorkerOf(s, k).Unrecord? {
      RemoveKeeps(s.world, c.kind, c.Replica(k), fault, c.Replica(l));
    } else {
      WorkIsLocal(c, s, k, fault);
    }
  }

  lemma WorkKeepsOthers(c: Setup, s: State, k: Key, fault: Fault, l: Key)
    requires c.Valid() && Inv(c, s) && l != k
    ensures SameFor(c, s, Work(c, s, k, fault), l)
  {
    assert WorkerOk(c, s, k);
    WorkIsLocal(c, s, k, fault);
    ReplicasDiffer(c, k, l);
    if Kept(c, s, l) {
      WorkKeepsKept(c, s, k, fault, l);
    }
    LocalIsSame(c, s, Work(c, s, k, fault), k, l);
  }

  lemma LocalIsSame(c: Setup, s: State, s': State, k: Key, l: Key)
    requires Local(c, s, s', k) && l != k && c.Replica(l) != c.Replica(k)
    requires Kept(c, s, l) ==> Kept(c, s', l)
    ensures SameFor(c, s, s', l)
  {
    OutsideIsSame(s.source, s'.source, k, l);
    OutsideIsSame(s.target, s'.target, c.Replica(k), c.Replica(l));
    OutsideIsSame(s.workers, s'.workers, k, l);
  }

  lemma OutsideIsSame<K, V>(m: map<K, V>, m': map<K, V>, k: K, l: K)
    requires m - {k} == m' - {k} && k != l
    ensures l in m <==> l in m'
    ensures l in m ==> m'[l] == m[l]
  {
    assert l in m <==> l in m - {k};
    assert l in m' <==> l in m' - {k};
    assert l in m ==> m[l] == (m - {k})[l];
    assert l in m' ==> m'[l] == (m' - {k})[l];
  }

  ghost predicate OwnOk(c: Setup, s: State, k: Key) {
    ReplicaOk(c, s, k) && WorkerOk(c, s, k)
  }

  lemma RecordKeepsOwn(c: Setup, s: State, k: Key, obj: Object, fault: Fault)
    requires OwnOk(c, s, k) && WorkerOf(s, k) == Record(obj)
    ensures OwnOk(c, DoRecord(c, s, k, obj, fault), k)
  {}

  lemma TakeKeepsOwn(c: Setup, s: State, k: Key, obj: Object, fault: Fault)
    requires OwnOk(c, s, k) && WorkerOf(s, k) == TakeResponsibility(obj)
    ensures OwnOk(c, DoTakeResponsibility(c, s, k, obj, fault), k)
  {}

  lemma ReleaseKeepsOwn(c: Setup, s: State, k: Key, obj: Object, fault: Fault)
    requires OwnOk(c, s, k) && WorkerOf(s, k) == Release(obj)
    ensures OwnOk(c, DoRelease(c, s, k, obj, fault), k)
  {}

  lemma TargetKeepsOwn(c: Setup, s: State, k: Key, fault: Fault)
    requires OwnOk(c, s, k)
    requires WorkerOf(s, k).Create? || WorkerOf(s, k).Apply? || WorkerOf(s, k).Delete?
    ensures OwnOk(c, Work(c, s, k, fault), k)
  {}

  lemma ReadKeepsOwn(c: Setup, s: State, k: Key, fault: Fault)
    requires OwnOk(c, s, k)
    requires WorkerOf(s, k).Idle? || WorkerOf(s, k).Fetch? || WorkerOf(s, k).Inspect?
    ensures OwnOk(c, Work(c, s, k, fault), k)
  {}

  lemma UnrecordKeepsOwn(c: Setup, s: State, k: Key, fault: Fault)
    requires OwnOk(c, s, k) && WorkerOf(s, k).Unrecord?
    ensures OwnOk(c, DoUnrecord(c, s, k, fault), k)
  {}

  /** The step taken by the worker for k itself. */
  lemma WorkKeepsOwn(c: Setup, s: State, k: Key, fault: Fault)
    requires c.Valid() && Inv(c, s)
    ensures OwnOk(c, Work(c, s, k, fault), k)
  {
    assert OwnOk(c, s, k);
    match WorkerOf(s, k) {
      case Record(obj) => RecordKeepsOwn(c, s, k, obj, fault);
      case TakeResponsibility(obj) => TakeKeepsOwn(c, s, k, obj, fault);
      case Release(obj) => ReleaseKeepsOwn(c, s, k, obj, fault);
      case Create(_) => TargetKeepsOwn(c, s, k, fault);
      case Apply(_, _) => TargetKeepsOwn(c, s, k, fault);
      case Delete => TargetKeepsOwn(c, s, k, fault);
      case Unrecord => UnrecordKeepsOwn(c, s, k, fault);
      case _ => ReadKeepsOwn(c, s, k, fault);
    }
  }

  lemma WorkKeepsKeys(c: Setup, s: State, k: Key, fault: Fault, t: Key)
    requires Inv(c, s) && t in Work(c, s, k, fault).target
    ensures exists l :: t == c.Replica(l)
  {
    assert WorkerOk(c, s, k);
    WorkIsLocal(c, s, k, fault);
    if t != c.Replica(k) {
      OutsideIsSame(s.target, Work(c, s, k, fault).target, c.Replica(k), t);
    }
  }

  lemma WorkKeepsInv(c: Setup, s: State, k: Key, fault: Fault)
    requires c.Valid() && Inv(c, s)
    ensures Inv(c, Work(c, s, k, fault))
  {
    var s' := Work(c, s, k, fault);
    forall l
      ensures ReplicaOk(c, s', l) && WorkerOk(c, s', l)
    {
      if l == k {
        WorkKeepsOwn(c, s, k, fault);
      } else {
        WorkKeepsOthers(c, s, k, fault, l);
        OthersKeep(c, s, s', l);
      }
    }
    forall t | t in s'.target
      ensures exists l :: t == c.Replica(l)
    {
      WorkKeepsKeys(c, s, k, fault, t);
    }
  }
}
