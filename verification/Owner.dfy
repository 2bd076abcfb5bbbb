/** Owner references across namespaces and clusters (owner/anno.go, owner/owner.go). */
module Owner {
  import opened Wrappers
  import Text

  const SEPARATOR := '/'
  const ANNOTATION := "cross-cluster.io/owner-id"

  function Slashless(s: string): bool {
    SEPARATOR !in s
  }

  // ------------------------------------------------------------------------------------------
  // Annotations: [cluster /] group / kind / namespace / name

  datatype Key = Key(namespace: string, name: string)

  datatype GroupKind = GroupKind(group: string, kind: string)

  datatype Annotation = Annotation(fields: seq<string>) {
    predicate Valid() {
      4 <= |fields|
    }

    function FromEnd(k: nat): string
      requires Valid() && 1 <= k <= 4
    {
      fields[|fields| - k]
    }

    function Gk(): GroupKind
      requires Valid()
    {
      GroupKind(FromEnd(4), FromEnd(3))
    }

    function ObjectKey(): Key
      requires Valid()
    {
      Key(FromEnd(2), FromEnd(1))
    }

    function ClusterId(def: string): string
      requires Valid()
    {
      if |fields| == 4 then def else Text.Join(fields[..|fields| - 4], SEPARATOR)
    }

    function ForCluster(id: string): (r: Annotation)
      requires Valid()
      ensures r.Valid() && r.Gk() == Gk() && r.ObjectKey() == ObjectKey() && forall def :: r.ClusterId(def) == id
    {
      Annotation([id] + fields[|fields| - 4..])
    }

    function ToString(): string {
      Text.Join(fields, SEPARATOR)
    }
  }

  function CrossNamespace(gk: GroupKind, key: Key): (a: Annotation)
    ensures a.Valid() && a.Gk() == gk && a.ObjectKey() == key && forall def :: a.ClusterId(def) == def
  {
    Annotation([gk.group, gk.kind, key.namespace, key.name])
  }

  /** AnnotationType.Get on the value of the annotation. */
  function Parse(v: string): Option<Annotation> {
    var a := Text.Split(v, SEPARATOR);
    if |a| < 4 then None else Some(Annotation(a))
  }

  predicate SlashlessOwner(gk: GroupKind, key: Key) {
    Slashless(gk.group) && Slashless(gk.kind) && Slashless(key.namespace) && Slashless(key.name)
  }

  /** p names the owner gk and key in the cluster id, or in the local cluster if there is none. */
  ghost predicate Names(p: Option<Annotation>, id: Option<string>, gk: GroupKind, key: Key) {
    && p.Some? && p.value.Valid() && p.value.Gk() == gk && p.value.ObjectKey() == key
    && forall def :: p.value.ClusterId(def) == if id.Some? then id.value else def
  }

  lemma ParsedFieldsAreSlashless(v: string)
    requires Parse(v).Some?
    ensures Parse(v).value.Valid() && SlashlessOwner(Parse(v).value.Gk(), Parse(v).value.ObjectKey())
  {
    var n := |Text.Split(v, SEPARATOR)|;
    Text.FieldsHaveNoSeparator(v, SEPARATOR, n - 4);
    Text.FieldsHaveNoSeparator(v, SEPARATOR, n - 3);
    Text.FieldsHaveNoSeparator(v, SEPARATOR, n - 2);
    Text.FieldsHaveNoSeparator(v, SEPARATOR, n - 1);
    hide Text.Split;
  }

  lemma ParsedLast(v: string, front: seq<string>, gk: GroupKind, key: Key)
    requires Text.Split(v, SEPARATOR) == front + CrossNamespace(gk, key).fields
    ensures Names(Parse(v), if front == [] then None else Some(Text.Join(front, SEPARATOR)), gk, key)
  {}

  lemma ClusterString(id: string, gk: GroupKind, key: Key)
    ensures CrossNamespace(gk, key).ForCluster(id).ToString()
            == Text.Join([id] + CrossNamespace(gk, key).fields, SEPARATOR)
  {}

  lemma SlashlessFields(gk: GroupKind, key: Key)
    requires SlashlessOwner(gk, key)
    ensures var fields := CrossNamespace(gk, key).fields;
            fields != [] && forall i :: 0 <= i < |fields| ==> SEPARATOR !in fields[i]
  {}

  lemma ClusterFields(id: string, gk: GroupKind, key: Key)
    requires SlashlessOwner(gk, key)
    ensures Text.Split(CrossNamespace(gk, key).ForCluster(id).ToString(), SEPARATOR)
            == Text.Split(id, SEPARATOR) + CrossNamespace(gk, key).fields
  {
    hide *;
    SlashlessFields(gk, key);
    ClusterString(id, gk, key);
    Text.SplitJoinAfter(id, CrossNamespace(gk, key).fields, SEPARATOR);
  }

  /** Names of parsed annotations have no slash. */
  lemma NamedIsSlashless(v: string, id: Option<string>, gk: GroupKind, key: Key)
    requires Names(Parse(v), id, gk, key)
    ensures SlashlessOwner(gk, key)
  {
    ParsedFieldsAreSlashless(v);
    hide Text.Split;
  }

  /** An annotation for another cluster reads back as written, for any cluster id, exactly if the four fields
      behind the id have no slash. */
  lemma CrossClusterRoundTrip(id: string, gk: GroupKind, key: Key)
    ensures Names(Parse(CrossNamespace(gk, key).ForCluster(id).ToString()), Some(id), gk, key)
            <==> SlashlessOwner(gk, key)
  {
    hide *;
    var v := CrossNamespace(gk, key).ForCluster(id).ToString();
    if SlashlessOwner(gk, key) {
      ClusterFields(id, gk, key);
      ParsedLast(v, Text.Split(id, SEPARATOR), gk, key);
      Text.JoinSplit(id, SEPARATOR);
    } else if Names(Parse(v), Some(id), gk, key) {
      NamedIsSlashless(v, Some(id), gk, key);
    }
  }

  /** The same for an annotation within the cluster. */
  lemma CrossNamespaceRoundTrip(gk: GroupKind, key: Key)
    ensures Names(Parse(CrossNamespace(gk, key).ToString()), None, gk, key) <==> SlashlessOwner(gk, key)
  {
    hide Text.Split, Text.Join;
    var v := CrossNamespace(gk, key).ToString();
    if SlashlessOwner(gk, key) {
      Text.SplitJoin([gk.group, gk.kind, key.namespace, key.name], SEPARATOR);
      ParsedLast(v, [], gk, key);
    } else if Names(Parse(v), None, gk, key) {
      NamedIsSlashless(v, None, gk, key);
    }
  }

  function Written(id: Option<string>, gk: GroupKind, key: Key): string {
    if id.None? then CrossNamespace(gk, key).ToString()
    else CrossNamespace(gk, key).ForCluster(id.value).ToString()
  }

  lemma LastFields(a: Annotation)
    requires a.Valid()
    ensures a.fields == a.fields[..|a.fields| - 4] + CrossNamespace(a.Gk(), a.ObjectKey()).fields
  {}

  lemma NamedCluster(a: Annotation, id: Option<string>)
    requires a.Valid() && forall def :: a.ClusterId(def) == if id.Some? then id.value else def
    ensures id == if |a.fields| == 4 then None else Some(Text.Join(a.fields[..|a.fields| - 4], SEPARATOR))
  {
    hide Text.Join;
    assert a.ClusterId("a") != a.ClusterId("b") <==> id == None;
  }

  lemma NamedFields(v: string, id: Option<string>, gk: GroupKind, key: Key) returns (front: seq<string>)
    requires Names(Parse(v), id, gk, key)
    ensures Text.Split(v, SEPARATOR) == front + CrossNamespace(gk, key).fields
    ensures id == if front == [] then None else Some(Text.Join(front, SEPARATOR))
  {
    hide Text.Split, Text.Join;
    var a := Parse(v).value;
    front := a.fields[..|a.fields| - 4];
    LastFields(a);
    NamedCluster(a, id);
  }

  lemma WrittenIsJoined(id: Option<string>, gk: GroupKind, key: Key)
    ensures var fields := CrossNamespace(gk, key).fields;
            fields != [] &&
            Written(id, gk, key) == Text.Join(if id.None? then fields else [id.value] + fields, SEPARATOR)
  {
    hide Text.Join;
    if id.Some? {
      ClusterString(id.value, gk, key);
    }
  }

  lemma NamedIsWritten(v: string, id: Option<string>, gk: GroupKind, key: Key)
    requires Names(Parse(v), id, gk, key)
    ensures v == Written(id, gk, key)
  {
    hide *;
    var front := NamedFields(v, id, gk, key);
    var last := CrossNamespace(gk, key).fields;
    Text.JoinSplit(v, SEPARATOR);
    WrittenIsJoined(id, gk, key);
    if front == [] {
      assert front + last == last;
    } else {
      Text.JoinJoined(front, last, SEPARATOR);
    }
  }

  lemma NamedOnce(v: string, id: Option<string>, gk: GroupKind, key: Key, i: Option<string>, g: GroupKind, k: Key)
    requires Names(Parse(v), id, gk, key) && Names(Parse(v), i, g, k)
    ensures (id, gk, key) == (i, g, k)
  {
    hide Parse;
    NamedCluster(Parse(v).value, id);
    NamedCluster(Parse(v).value, i);
  }

  /** An annotation names an owner exactly if it is the one written for it, and its four fields have no slash: no
      string names two owners, and no two strings name one. */
  lemma NamesExactly(v: string, id: Option<string>, gk: GroupKind, key: Key)
    ensures Names(Parse(v), id, gk, key) <==> v == Written(id, gk, key) && SlashlessOwner(gk, key)
  {
    hide Parse, Annotation.ToString, SlashlessOwner, Names;
    CrossNamespaceRoundTrip(gk, key);
    if id.Some? {
      CrossClusterRoundTrip(id.value, gk, key);
    }
    if Names(Parse(v), id, gk, key) {
      NamedIsWritten(v, id, gk, key);
      NamedIsSlashless(v, id, gk, key);
    }
  }

  // ------------------------------------------------------------------------------------------
  // Objects and clusters

  /** An owner reference; the API version is reduced to its group. */
  datatype Ref = Ref(gk: GroupKind, name: string, controller: bool)

  datatype Meta = Meta(refs: seq<Ref>, annotations: map<string, string>)

  /** A cluster; clusters are the same if they share a client. */
  datatype Cluster = Cluster(name: string, id: string, client: nat)

  datatype Owner = Owner(gk: GroupKind, key: Key)

  /** Maps a cluster id to a name, and says whether it is the local cluster. */
  type Matcher = string -> (string, bool)

  datatype Error = AlreadyOwned | NoSuchReference

  function Core(gk: GroupKind): GroupKind {
    if gk.group == "" then gk.(group := "core") else gk
  }

  function RefersTo(r: Ref, o: Owner): bool {
    r.gk == o.gk && r.name == o.key.name
  }

  function FindRef(refs: seq<Ref>, o: Owner): (i: int)
    ensures -1 <= i < |refs|
    ensures 0 <= i ==> RefersTo(refs[i], o)
    ensures i < 0 ==> forall k :: 0 <= k < |refs| ==> !RefersTo(refs[k], o)
  {
    if refs == [] then -1
    else if RefersTo(refs[0], o) then 0
    else
      var i := FindRef(refs[1..], o);
      if i < 0 then -1 else i + 1
  }

  function FindController(refs: seq<Ref>): (i: int)
    ensures -1 <= i < |refs|
  {
    if refs == [] then -1
    else if refs[0].controller then 0
    else
      var i := FindController(refs[1..]);
      if i < 0 then -1 else i + 1
  }

  /** controllerutil.SetControllerReference for owner and object in one namespace. */
  function WithController(refs: seq<Ref>, o: Owner): Result<seq<Ref>, Error> {
    var ref := Ref(o.gk, o.key.name, true);
    var c := FindController(refs);
    if 0 <= c && !RefersTo(refs[c], o) then Err(AlreadyOwned)
    else
      var i := FindRef(refs, o);
      Ok(if i < 0 then refs + [ref] else refs[i := ref])
  }

  /** controllerutil.RemoveOwnerReference. */
  function WithoutOwner(refs: seq<Ref>, o: Owner): Result<seq<Ref>, Error> {
    var i := FindRef(refs, o);
    if i < 0 then Err(NoSuchReference) else Ok(refs[..i] + refs[i + 1..])
  }

  predicate IsLocal(cluster: Cluster, target: Cluster, owner: Owner, namespace: string) {
    cluster.client == target.client && owner.key.namespace == namespace
  }

  function Reference(cluster: Cluster, target: Cluster, owner: Owner): (a: Annotation)
    ensures a.Valid()
  {
    var a := CrossNamespace(Core(owner.gk), owner.key);
    if cluster.client == target.client then a else a.ForCluster(cluster.id)
  }

  /** What SetOwner makes of an object: a local owner becomes its controller, another one its annotated owner. */
  function OwnerSet(cluster: Cluster, owner: Owner, target: Cluster, namespace: string, m: Meta)
    : Result<Meta, Error>
  {
    if IsLocal(cluster, target, owner, namespace) then
      var r := WithController(m.refs, owner);
      if r.Err? then Err(r.error) else Ok(m.(refs := r.value))
    else Ok(m.(annotations := m.annotations[ANNOTATION := Reference(cluster, target, owner).ToString()]))
  }

  /** What RemoveOwner makes of it. Outside of the local case any owner annotation goes, whichever owner it names. */
  function OwnerRemoved(cluster: Cluster, owner: Owner, target: Cluster, namespace: string, m: Meta)
    : Result<Meta, Error>
  {
    if IsLocal(cluster, target, owner, namespace) then
      var r := WithoutOwner(m.refs, owner);
      if r.Err? then Err(r.error) else Ok(m.(refs := r.value))
    else Ok(m.(annotations := m.annotations - {ANNOTATION}))
  }

  /** How an owner is annotated: the cluster, unless it is that of the object, and group, kind, namespace and name, with
      "core" for the group without name. */
  lemma WrittenOwner(cluster: Cluster, target: Cluster, owner: Owner)
    ensures Reference(cluster, target, owner).ToString() ==
            (if cluster.client == target.client then "" else cluster.id + "/")
            + (if owner.gk.group == "" then "core" else owner.gk.group) + "/" + owner.gk.kind + "/"
            + owner.key.namespace + "/" + owner.key.name
  {
    var gk, key := Core(owner.gk), owner.key;
    var fields := CrossNamespace(gk, key).fields;
    JoinedFour(gk.group, gk.kind, key.namespace, key.name);
    if cluster.client != target.client {
      ClusterString(cluster.id, gk, key);
      assert ([cluster.id] + fields)[1..] == fields;
      Text.JoinAfter([cluster.id], fields, SEPARATOR);
      hide Annotation.ToString;
    }
  }

  lemma JoinedFour(a: string, b: string, c: string, d: string)
    ensures Text.Join([a, b, c, d], SEPARATOR) == a + "/" + b + "/" + c + "/" + d
  {
    assert [a, b, c, d][1..] == [b, c, d] && [b, c, d][1..] == [c, d] && [c, d][1..] == [d];
    assert Text.Join([d], SEPARATOR) == d;
    assert Text.Join([c, d], SEPARATOR) == c + "/" + d;
    assert Text.Join([b, c, d], SEPARATOR) == b + "/" + (c + "/" + d);
  }

  /** What becomes of the references of an object with a new local owner: the owner is among them as the controller, and
      no other reference changes; it is refused exactly if the first controller is another one. */
  lemma ControllerExactly(refs: seq<Ref>, o: Owner)
    ensures WithController(refs, o).Err? <==>
            exists k :: 0 <= k < |refs| && refs[k].controller && !RefersTo(refs[k], o)
                        && forall j :: 0 <= j < k ==> !refs[j].controller
    ensures WithController(refs, o).Err? ==> WithController(refs, o).error == AlreadyOwned
    ensures WithController(refs, o).Ok? ==>
              var after := WithController(refs, o).value;
              exists i :: 0 <= i <= |refs| && i < |after| && |after| == (if i < |refs| then |refs| else |refs| + 1)
                && after[i] == Ref(o.gk, o.key.name, true)
                && (i < |refs| ==> RefersTo(refs[i], o))
                && (forall j :: 0 <= j < |refs| && j != i ==> after[j] == refs[j])
                && (i == |refs| ==> forall j :: 0 <= j < |refs| ==> !RefersTo(refs[j], o))
  {
    FirstController(refs);
    var c, i := FindController(refs), FindRef(refs, o);
    hide FindController, FindRef;
    if WithController(refs, o).Ok? {
      var after := WithController(refs, o).value;
      assert after[if i < 0 then |refs| else i] == Ref(o.gk, o.key.name, true);
    }
  }

  lemma {:induction false} FirstController(refs: seq<Ref>)
    ensures var i := FindController(refs);
      if i < 0 then forall k :: 0 <= k < |refs| ==> !refs[k].controller
      else refs[i].controller && forall k :: 0 <= k < i ==> !refs[k].controller
  {
    if refs != [] && !refs[0].controller {
      FirstController(refs[1..]);
      assert forall k :: 1 <= k < |refs| ==> refs[k] == refs[1..][k - 1];
    }
  }

  /** A removed local owner loses its first reference and nothing else; it is an error if there is none. */
  lemma RemovedReferenceExactly(refs: seq<Ref>, o: Owner)
    ensures WithoutOwner(refs, o).Err? <==> forall k :: 0 <= k < |refs| ==> !RefersTo(refs[k], o)
    ensures WithoutOwner(refs, o).Err? ==> WithoutOwner(refs, o).error == NoSuchReference
    ensures WithoutOwner(refs, o).Ok? ==>
              exists i :: 0 <= i < |refs| && RefersTo(refs[i], o)
                && (forall j :: 0 <= j < i ==> !RefersTo(refs[j], o))
                && WithoutOwner(refs, o).value == refs[..i] + refs[i + 1..]
  {
    FirstReference(refs, o);
  }

  lemma {:induction false} FirstReference(refs: seq<Ref>, o: Owner)
    ensures var i := FindRef(refs, o); forall k :: 0 <= k < i ==> !RefersTo(refs[k], o)
  {
    if refs != [] && !RefersTo(refs[0], o) {
      FirstReference(refs[1..], o);
      assert forall k :: 1 <= k < |refs| ==> refs[k] == refs[1..][k - 1];
    }
  }

  class Slave {
    const namespace: string
    var meta: Meta

    constructor (namespace: string, meta: Meta)
      ensures this.namespace == namespace && this.meta == meta
    {
      this.namespace, this.meta := namespace, meta;
    }
  }

  method SetOwner(cluster: Cluster, owner: Owner, target: Cluster, slave: Slave) returns (err: Option<Error>)
    modifies slave
    ensures var r := OwnerSet(cluster, owner, target, slave.namespace, old(slave.meta));
            if r.Ok? then err == None && slave.meta == r.value
            else err == Some(r.error) && slave.meta == old(slave.meta)
  {
    hide Annotation.ToString;
    err := None;
    if cluster.client == target.client && owner.key.namespace == slave.namespace {
      var r := WithController(slave.meta.refs, owner);
      if r.Err? {
        return Some(r.error);
      }
      slave.meta := slave.meta.(refs := r.value);
      return;
    }
    var gk := owner.gk;
    if gk.group == "" {
      gk := gk.(group := "core");
    }
    var o := CrossNamespace(gk, owner.key);
    if cluster.client != target.client {
      o := o.ForCluster(cluster.id);
    }
    slave.meta := slave.meta.(annotations := slave.meta.annotations[ANNOTATION := o.ToString()]);
  }

  method RemoveOwner(cluster: Cluster, owner: Owner, target: Cluster, slave: Slave) returns (err: Option<Error>)
    modifies slave
    ensures var r := OwnerRemoved(cluster, owner, target, slave.namespace, old(slave.meta));
            if r.Ok? then err == None && slave.meta == r.value
            else err == Some(r.error) && slave.meta == old(slave.meta)
  {
    err := None;
    if cluster.client == target.client && owner.key.namespace == slave.namespace {
      var r := WithoutOwner(slave.meta.refs, owner);
      if r.Err? {
        return Some(r.error);
      }
      slave.meta := slave.meta.(refs := r.value);
      return;
    }
    slave.meta := slave.meta.(annotations := slave.meta.annotations - {ANNOTATION});
  }

  /** Whether an owner reference is of the kind asked for. */
  predicate OfKind(r: Ref, kind: GroupKind) {
    r.gk.kind == kind.kind && (r.gk.group == kind.group || (kind.group == "core" && r.gk.group == ""))
  }

  function AnnotatedOwner(cmatch: Matcher, target: Cluster, meta: Meta, kind: GroupKind): Option<(string, Key)> {
    if ANNOTATION !in meta.annotations then None
    else match Parse(meta.annotations[ANNOTATION])
      case None => None
      case Some(a) =>
        if a.Gk() != Core(kind) then None
        else
          var name := cmatch(a.ClusterId(target.id)).0;
          if name == "" then None else Some((name, a.ObjectKey()))
  }

  /** What GetOwner answers: the first local reference of the kind if the matcher takes the cluster as local,
      otherwise the annotated owner. */
  ghost predicate IsOwner(cmatch: Matcher, target: Cluster, namespace: string, meta: Meta, kind: GroupKind,
                          res: Option<(string, Key)>) {
    if cmatch(target.id).1 && exists k :: 0 <= k < |meta.refs| && OfKind(meta.refs[k], kind) then
      exists k :: 0 <= k < |meta.refs| && OfKind(meta.refs[k], kind)
                  && (forall j :: 0 <= j < k ==> !OfKind(meta.refs[j], kind))
                  && res == Some((target.name, Key(namespace, meta.refs[k].name)))
    else res == AnnotatedOwner(cmatch, target, meta, kind)
  }

  method GetOwner(cmatch: Matcher, target: Cluster, namespace: string, meta: Meta, kind: GroupKind)
    returns (res: Option<(string, Key)>)
    ensures IsOwner(cmatch, target, namespace, meta, kind, res)
  {
    var eq := cmatch(target.id).1;
    if eq {
      for k := 0 to |meta.refs|
        invariant forall j :: 0 <= j < k ==> !OfKind(meta.refs[j], kind)
      {
        var r := meta.refs[k];
        if r.gk.kind != kind.kind {
          continue;
        }
        if r.gk.group == kind.group || (kind.group == "core" && r.gk.group == "") {
          return Some((target.name, Key(namespace, r.name)));
        }
      }
    }
    var wanted := if kind.group == "" then kind.(group := "core") else kind;
    if ANNOTATION !in meta.annotations {
      return None;
    }
    var a := Parse(meta.annotations[ANNOTATION]);
    if a.None? || a.value.Gk() != wanted {
      return None;
    }
    var cname := cmatch(a.value.ClusterId(target.id)).0;
    if cname == "" {
      return None;
    }
    return Some((cname, a.value.ObjectKey()));
  }

  // ------------------------------------------------------------------------------------------
  // Matchers (owner/matcher.go); registered clusters are given by their names, by id

  function MatcherFor(own: string, names: map<string, string>): Matcher {
    id => if id in names then (names[id], id == own) else ("", false)
  }

  function LocalMatcher(localName: string, localId: string): Matcher {
    id => if id == "" || id == localId then (localName, true) else ("", false)
  }

  function MatcherForClusters(names: map<string, string>, localId: string): Matcher {
    given =>
      if given == "" && localId == "" then ("", true)
      else
        var id := if given == "" then localId else given;
        if id in names then (names[id], id == localId) else ("", false)
  }

  // ------------------------------------------------------------------------------------------
  // Set, get and remove

  /** kind asks for the owner's kind, with the core group written either way. */
  predicate AsksFor(kind: GroupKind, owner: Owner) {
    Core(kind) == Core(owner.gk) && (owner.gk.group == "core" ==> kind.group == "core")
  }

  ghost predicate NoRefOfKind(meta: Meta, kind: GroupKind) {
    forall k :: 0 <= k < |meta.refs| ==> !OfKind(meta.refs[k], kind)
  }

  /** The annotation SetOwner writes names the owner in its cluster. */
  lemma ReferenceNames(cluster: Cluster, target: Cluster, owner: Owner)
    requires SlashlessOwner(Core(owner.gk), owner.key)
    ensures Names(Parse(Reference(cluster, target, owner).ToString()),
                  if cluster.client == target.client then None else Some(cluster.id), Core(owner.gk), owner.key)
  {
    hide Parse, Annotation.ToString, SlashlessOwner, Names;
    CrossNamespaceRoundTrip(Core(owner.gk), owner.key);
    CrossClusterRoundTrip(cluster.id, Core(owner.gk), owner.key);
  }

  lemma LocalOwnerIsFound(cmatch: Matcher, target: Cluster, owner: Owner, before: Meta, kind: GroupKind,
                          refs: seq<Ref>, res: Option<(string, Key)>)
    requires AsksFor(kind, owner) && WithController(before.refs, owner) == Ok(refs) && cmatch(target.id).1
    requires NoRefOfKind(before, kind)
    requires IsOwner(cmatch, target, owner.key.namespace, before.(refs := refs), kind, res)
    ensures res == Some((target.name, owner.key))
  {
    hide FindController, AnnotatedOwner;
    var n := |before.refs|;
    var i := FindRef(before.refs, owner);
    assert 0 <= i ==> OfKind(before.refs[i], kind);
    assert refs == before.refs + [Ref(owner.gk, owner.key.name, true)];
    assert OfKind(refs[n], kind);
    assert forall k :: 0 <= k < n ==> refs[k] == before.refs[k];
  }

  /** What GetOwner finds after SetOwner. An annotated owner is found under the name the matcher has for its cluster,
      exactly if it has one. A local owner is found exactly if the matcher takes the cluster as local, as the one
      for a fleet never does; otherwise the annotation found before is still found. */
  lemma SetThenGet(cmatch: Matcher, cluster: Cluster, owner: Owner, target: Cluster, namespace: string,
                   before: Meta, after: Meta, kind: GroupKind, res: Option<(string, Key)>)
    requires SlashlessOwner(Core(owner.gk), owner.key) && AsksFor(kind, owner) && NoRefOfKind(before, kind)
    requires OwnerSet(cluster, owner, target, namespace, before) == Ok(after)
    requires IsOwner(cmatch, target, namespace, after, kind, res)
    ensures var id := if cluster.client == target.client then target.id else cluster.id;
            res == if IsLocal(cluster, target, owner, namespace) then
              if cmatch(id).1 then Some((target.name, owner.key)) else AnnotatedOwner(cmatch, target, before, kind)
            else if cmatch(id).0 != "" then Some((cmatch(id).0, owner.key)) else None
  {
    hide Parse, Annotation.ToString, SlashlessOwner, WithController;
    if IsLocal(cluster, target, owner, namespace) {
      hide AnnotatedOwner, AsksFor;
      if cmatch(target.id).1 {
        LocalOwnerIsFound(cmatch, target, owner, before, kind, after.refs, res);
      }
    } else {
      ReferenceNames(cluster, target, owner);
      hide AnnotatedOwner, Names, Annotation.ClusterId;
      AnnotationIsFound(cmatch, target, owner, after, kind,
                        if cluster.client == target.client then None else Some(cluster.id));
    }
  }

  lemma AnnotationIsFound(cmatch: Matcher, target: Cluster, owner: Owner, m: Meta, kind: GroupKind,
                          id: Option<string>)
    requires ANNOTATION in m.annotations && Core(kind) == Core(owner.gk)
    requires Names(Parse(m.annotations[ANNOTATION]), id, Core(owner.gk), owner.key)
    ensures var name := cmatch(if id.Some? then id.value else target.id).0;
            AnnotatedOwner(cmatch, target, m, kind) == if name == "" then None else Some((name, owner.key))
  {}

  lemma NewOwnerIsAppended(owner: Owner, before: Meta, kind: GroupKind)
    requires NoRefOfKind(before, kind) && AsksFor(kind, owner)
    ensures forall k :: 0 <= k < |before.refs| ==> !RefersTo(before.refs[k], owner)
    ensures WithController(before.refs, owner).Ok? ==>
              WithController(before.refs, owner).value == before.refs + [Ref(owner.gk, owner.key.name, true)]
  {
    hide FindController;
    assert forall k :: 0 <= k < |before.refs| && RefersTo(before.refs[k], owner) ==> OfKind(before.refs[k], kind);
  }

  lemma AppendedOwnerGoes(refs: seq<Ref>, owner: Owner, ref: Ref)
    requires RefersTo(ref, owner) && forall k :: 0 <= k < |refs| ==> !RefersTo(refs[k], owner)
    ensures WithoutOwner(refs + [ref], owner) == Ok(refs)
  {
    var n, after := |refs|, refs + [ref];
    assert RefersTo(after[n], owner) && forall k :: 0 <= k < n ==> after[k] == refs[k];
    assert FindRef(after, owner) == n;
    assert after[..n] + after[n + 1..] == refs;
  }

  lemma NothingIsFound(cmatch: Matcher, target: Cluster, namespace: string, meta: Meta, kind: GroupKind,
                       res: Option<(string, Key)>)
    requires NoRefOfKind(meta, kind) && ANNOTATION !in meta.annotations
    requires IsOwner(cmatch, target, namespace, meta, kind, res)
    ensures res == None
  {}

  /** RemoveOwner takes back a SetOwner: references are as before, and so is the annotation of an object with a
      local owner, while one with an annotated owner loses it. GetOwner finds no owner set by it. */
  lemma SetThenRemove(cmatch: Matcher, cluster: Cluster, owner: Owner, target: Cluster, namespace: string,
                      before: Meta, after: Meta, kind: GroupKind, res: Option<(string, Key)>)
    requires NoRefOfKind(before, kind) && AsksFor(kind, owner)
    requires OwnerSet(cluster, owner, target, namespace, before) == Ok(after)
    ensures var r := OwnerRemoved(cluster, owner, target, namespace, after);
            && r.Ok? && r.value.refs == before.refs
            && r.value.annotations == (if IsLocal(cluster, target, owner, namespace) then before.annotations
                                       else before.annotations - {ANNOTATION})
            && (ANNOTATION !in before.annotations && IsOwner(cmatch, target, namespace, r.value, kind, res)
                ==> res == None)
  {
    var r := OwnerRemoved(cluster, owner, target, namespace, after);
    if IsLocal(cluster, target, owner, namespace) {
      NewOwnerIsAppended(owner, before, kind);
      AppendedOwnerGoes(before.refs, owner, Ref(owner.gk, owner.key.name, true));
      hide WithController, WithoutOwner, AsksFor, IsOwner, NoRefOfKind, RefersTo;
      assert r == Ok(before);
    } else {
      hide Reference, Annotation.ToString, IsOwner, NoRefOfKind, AsksFor;
      assert before.annotations[ANNOTATION := Reference(cluster, target, owner).ToString()] - {ANNOTATION}
          == before.annotations - {ANNOTATION};
      assert r.Ok? && r.value.refs == before.refs;
      SameReferences(before, r.value, kind);
    }
    if ANNOTATION !in before.annotations && IsOwner(cmatch, target, namespace, r.value, kind, res) {
      NothingIsFound(cmatch, target, namespace, r.value, kind, res);
    }
  }

  lemma SameReferences(m: Meta, m': Meta, kind: GroupKind)
    requires NoRefOfKind(m, kind) && m'.refs == m.refs
    ensures NoRefOfKind(m', kind)
  {}

  /** The cluster under which SetOwner annotates an owner. */
  function OwnerCluster(cluster: Cluster, target: Cluster): Option<string> {
    if cluster.client == target.client then None else Some(cluster.id)
  }

  /** The owner annotation of the object names the given owner. */
  ghost predicate Annotated(m: Meta, id: Option<string>, gk: GroupKind, key: Key) {
    ANNOTATION in m.annotations && Names(Parse(m.annotations[ANNOTATION]), id, gk, key)
  }

  /** Every annotated owner but the given one is still there. */
  ghost predicate OthersStay(before: Meta, after: Meta, id: Option<string>, gk: GroupKind, key: Key) {
    forall i, g, k :: (i, g, k) != (id, gk, key) && Annotated(before, i, g, k) ==> Annotated(after, i, g, k)
  }

  /** The annotation is missing, malformed, or written for the given owner, whose fields have no slash. */
  predicate Unclaimed(m: Meta, id: Option<string>, gk: GroupKind, key: Key) {
    ANNOTATION in m.annotations ==>
      || Parse(m.annotations[ANNOTATION]) == None
      || (m.annotations[ANNOTATION] == Written(id, gk, key) && SlashlessOwner(gk, key))
  }

  lemma SomeoneIsNamed(v: string) returns (id: Option<string>, gk: GroupKind, key: Key)
    requires Parse(v).Some?
    ensures Names(Parse(v), id, gk, key)
  {
    var a := Parse(v).value;
    gk, key := a.Gk(), a.ObjectKey();
    id := if |a.fields| == 4 then None else Some(Text.Join(a.fields[..|a.fields| - 4], SEPARATOR));
  }

  /** Outside of the local case RemoveOwner leaves all other owners alone exactly if the annotation of the object
      is missing, malformed, or the one SetOwner writes for the owner to be removed. */
  lemma RemovalSparesOthersExactly(cluster: Cluster, owner: Owner, target: Cluster, namespace: string,
                                   before: Meta, after: Meta)
    requires !IsLocal(cluster, target, owner, namespace)
    requires OwnerRemoved(cluster, owner, target, namespace, before) == Ok(after)
    ensures var id := OwnerCluster(cluster, target);
            OthersStay(before, after, id, Core(owner.gk), owner.key) <==>
              Unclaimed(before, id, Core(owner.gk), owner.key)
  {
    hide *;
    var id, gk, key := OwnerCluster(cluster, target), Core(owner.gk), owner.key;
    AnnotationGoes(cluster, owner, target, namespace, before, after);
    ForgottenExactly(before, after, id, gk, key);
  }

  lemma AnnotationGoes(cluster: Cluster, owner: Owner, target: Cluster, namespace: string, before: Meta, after: Meta)
    requires !IsLocal(cluster, target, owner, namespace)
    requires OwnerRemoved(cluster, owner, target, namespace, before) == Ok(after)
    ensures ANNOTATION !in after.annotations
  {}

  lemma ForgottenExactly(before: Meta, after: Meta, id: Option<string>, gk: GroupKind, key: Key)
    requires ANNOTATION !in after.annotations
    ensures OthersStay(before, after, id, gk, key) <==> Unclaimed(before, id, gk, key)
  {
    hide Parse, Names, Written, SlashlessOwner;
    if ANNOTATION in before.annotations {
      var v := before.annotations[ANNOTATION];
      NamesExactly(v, id, gk, key);
      if Parse(v).Some? {
        var i, g, k := SomeoneIsNamed(v);
        assert Annotated(before, i, g, k) && !Annotated(after, i, g, k);
        forall i, g, k | Annotated(before, i, g, k) && Annotated(before, id, gk, key)
          ensures (i, g, k) == (id, gk, key)
        {
          NamedOnce(v, i, g, k, id, gk, key);
        }
      } else {
        forall i, g, k {
          NoneIsNamed(v, i, g, k);
        }
      }
    }
  }

  lemma NoneIsNamed(v: string, id: Option<string>, gk: GroupKind, key: Key)
    requires Parse(v) == None
    ensures !Names(Parse(v), id, gk, key)
  {}

  /** Removing any owner that is not local makes GetOwner forget the annotated one: it answers as before exactly if
      it found no owner or a local one, whichever owner is removed. */
  lemma RemoveThenGet(cmatch: Matcher, cluster: Cluster, owner: Owner, target: Cluster, namespace: string,
                      before: Meta, after: Meta, kind: GroupKind, found: Option<(string, Key)>,
                      left: Option<(string, Key)>)
    requires !IsLocal(cluster, target, owner, namespace)
    requires OwnerRemoved(cluster, owner, target, namespace, before) == Ok(after)
    requires IsOwner(cmatch, target, namespace, before, kind, found)
    requires IsOwner(cmatch, target, namespace, after, kind, left)
    ensures left == found <==> found == None || (cmatch(target.id).1 && !NoRefOfKind(before, kind))
  {
    hide Parse, Core;
  }

  /** So an owner that has been set and is found is gone after another one has been removed. */
  lemma RemovalOfAnotherOwner(cmatch: Matcher, cluster: Cluster, owner: Owner, other: Cluster, another: Owner,
                              target: Cluster, namespace: string, before: Meta, owned: Meta, after: Meta,
                              kind: GroupKind, found: Option<(string, Key)>, left: Option<(string, Key)>)
    requires SlashlessOwner(Core(owner.gk), owner.key) && AsksFor(kind, owner) && NoRefOfKind(before, kind)
    requires !IsLocal(cluster, target, owner, namespace) && !IsLocal(other, target, another, namespace)
    requires cmatch(if cluster.client == target.client then target.id else cluster.id).0 != ""
    requires OwnerSet(cluster, owner, target, namespace, before) == Ok(owned)
    requires OwnerRemoved(other, another, target, namespace, owned) == Ok(after)
    requires IsOwner(cmatch, target, namespace, owned, kind, found)
    requires IsOwner(cmatch, target, namespace, after, kind, left)
    ensures found.Some? && found.value.1 == owner.key && left == None
  {
    SetThenGet(cmatch, cluster, owner, target, namespace, before, owned, kind, found);
    RemoveThenGet(cmatch, other, another, target, namespace, owned, after, kind, found, left);
    hide SlashlessOwner, AsksFor, Parse, Reference, Annotation.ToString;
  }

  /** Between registered clusters with non-empty names any owner is found under the name of its cluster. */
  lemma RegisteredOwnerIsFound(names: map<string, string>, cluster: Cluster, owner: Owner, target: Cluster,
                               namespace: string, before: Meta, after: Meta, kind: GroupKind,
                               res: Option<(string, Key)>)
    requires SlashlessOwner(Core(owner.gk), owner.key) && AsksFor(kind, owner) && NoRefOfKind(before, kind)
    requires cluster.client == target.client <==> cluster == target
    requires forall c :: c in {cluster, target} ==> c.id != "" && c.id in names && names[c.id] == c.name && c.name != ""
    requires OwnerSet(cluster, owner, target, namespace, before) == Ok(after)
    requires IsOwner(MatcherForClusters(names, target.id), target, namespace, after, kind, res)
          || IsOwner(MatcherFor(target.id, names), target, namespace, after, kind, res)
    ensures res == Some((cluster.name, owner.key))
  {
    hide OwnerSet, SlashlessOwner, AsksFor, NoRefOfKind, IsOwner;
    assert target in {cluster, target} && cluster in {cluster, target};
    if IsOwner(MatcherFor(target.id, names), target, namespace, after, kind, res) {
      SetThenGet(MatcherFor(target.id, names), cluster, owner, target, namespace, before, after, kind, res);
    } else {
      SetThenGet(MatcherForClusters(names, target.id), cluster, owner, target, namespace, before, after, kind, res);
    }
  }

  /** With the matcher that knows the local cluster only, exactly the owners in that cluster are found. */
  lemma LocalMatcherSeesOneCluster(cluster: Cluster, owner: Owner, target: Cluster, namespace: string,
                                   before: Meta, after: Meta, kind: GroupKind, res: Option<(string, Key)>)
    requires SlashlessOwner(Core(owner.gk), owner.key) && AsksFor(kind, owner) && NoRefOfKind(before, kind)
    requires (cluster.client == target.client <==> cluster == target)
             && (cluster.id == target.id <==> cluster == target)
    requires cluster.id != "" && target.name != ""
    requires OwnerSet(cluster, owner, target, namespace, before) == Ok(after)
    requires IsOwner(LocalMatcher(target.name, target.id), target, namespace, after, kind, res)
    ensures res == if cluster == target then Some((target.name, owner.key)) else None
  {
    hide OwnerSet, SlashlessOwner, AsksFor, NoRefOfKind, IsOwner;
    SetThenGet(LocalMatcher(target.name, target.id), cluster, owner, target, namespace, before, after, kind, res);
  }
}
