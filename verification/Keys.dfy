/** Object keys (types/key.go) and the names of fleet members (cluster/fleet/fpi/utils.go). */
module Keys {
  import opened Wrappers
  import Text

  const SEPARATOR := '/'
  const MEMBER := '#'

  predicate Slashless(s: string) {
    SEPARATOR !in s
  }

  datatype GlobalKey = GlobalKey(cluster: string, namespace: string, name: string) {
    function AsKey(): string {
      cluster + [SEPARATOR] + namespace + [SEPARATOR] + name
    }
  }

  function ParseGlobalKey(key: string): Option<GlobalKey> {
    var fields := Text.Split(key, SEPARATOR);
    if |fields| != 3 then None else Some(GlobalKey(fields[0], fields[1], fields[2]))
  }

  datatype TypedKey = TypedKey(cluster: string, group: string, kind: string, namespace: string, name: string) {
    predicate Typed() {
      kind != "" && group != ""
    }

    function AsLocalKey(): TypedKey {
      this.(cluster := "")
    }

    function AsKey(useGK: bool): string {
      var key := cluster + [SEPARATOR];
      var key := if useGK && Typed() then key + kind + "." + group + [SEPARATOR] else key;
      key + namespace + [SEPARATOR] + name
    }

    /** No separator where a key is taken apart; the group may have dots. */
    predicate Proper() {
      Slashless(group) && Slashless(kind) && '.' !in kind && Slashless(namespace) && Slashless(name)
    }

    /** What a key string keeps: core kinds have no group, and so their kind is not written. */
    function Written(): TypedKey {
      if Typed() then this else this.(group := "", kind := "")
    }

    function Tail(): seq<string> {
      (if Typed() then [kind + "." + group] else []) + [namespace, name]
    }
  }

  // ------------------------------------------------------------------------------------------
  // Reading keys back

  lemma GlobalKeyJoins(k: GlobalKey)
    ensures k.AsKey() == Text.Join([k.cluster, k.namespace, k.name], SEPARATOR)
  {
    assert [k.cluster, k.namespace, k.name][1..] == [k.namespace, k.name];
    assert [k.namespace, k.name][1..] == [k.name];
    assert Text.Join([k.namespace, k.name], SEPARATOR) == k.namespace + [SEPARATOR] + k.name;
    Text.Assoc(k.cluster + [SEPARATOR], k.namespace, [SEPARATOR] + k.name);
    Text.Assoc(k.namespace, [SEPARATOR], k.name);
    Text.Assoc(k.cluster + [SEPARATOR] + k.namespace, [SEPARATOR], k.name);
  }

  /** A global key reads back as written exactly if no part of it has a slash. */
  lemma GlobalKeyRoundTrip(k: GlobalKey)
    ensures ParseGlobalKey(k.AsKey()) == Some(k) <==>
            Slashless(k.cluster) && Slashless(k.namespace) && Slashless(k.name)
  {
    hide Text.Split, Text.Join, GlobalKey.AsKey;
    GlobalKeyJoins(k);
    var s := k.AsKey();
    if Slashless(k.cluster) && Slashless(k.namespace) && Slashless(k.name) {
      Text.SplitJoin([k.cluster, k.namespace, k.name], SEPARATOR);
    } else if ParseGlobalKey(s) == Some(k) {
      Text.FieldsHaveNoSeparator(s, SEPARATOR, 0);
      Text.FieldsHaveNoSeparator(s, SEPARATOR, 1);
      Text.FieldsHaveNoSeparator(s, SEPARATOR, 2);
    }
  }

  /** A string that is read as a global key is the string of that key. */
  lemma ParsedKeyIsWrittenBack(s: string)
    requires ParseGlobalKey(s).Some?
    ensures ParseGlobalKey(s).value.AsKey() == s
  {
    hide Text.Split, Text.Join, GlobalKey.AsKey;
    var fields := Text.Split(s, SEPARATOR);
    Text.JoinSplit(s, SEPARATOR);
    GlobalKeyJoins(ParseGlobalKey(s).value);
    assert fields == [fields[0], fields[1], fields[2]];
  }

  // ------------------------------------------------------------------------------------------
  // Typed keys

  lemma LocalKeySuffix(k: TypedKey)
    ensures k.AsKey(true) == k.cluster + k.AsLocalKey().AsKey(true)
  {}

  lemma TailJoins(k: TypedKey)
    ensures k.AsLocalKey().AsKey(true) == [SEPARATOR] + Text.Join(k.Tail(), SEPARATOR)
  {
    var last := [k.namespace, k.name];
    assert last[1..] == [k.name];
    assert Text.Join(last, SEPARATOR) == k.namespace + [SEPARATOR] + k.name;
    if k.Typed() {
      assert k.Tail()[1..] == last;
    }
  }

  lemma KeyFields(k: TypedKey)
    requires k.Proper()
    ensures Text.Split(k.AsKey(true), SEPARATOR) == Text.Split(k.cluster, SEPARATOR) + k.Tail()
  {
    TailIsSlashless(k);
    hide *;
    LocalKeySuffix(k);
    TailJoins(k);
    Text.SplitJoin(k.Tail(), SEPARATOR);
    Text.SplitAppend(k.cluster, SEPARATOR, Text.Join(k.Tail(), SEPARATOR));
    Text.Assoc(k.cluster, [SEPARATOR], Text.Join(k.Tail(), SEPARATOR));
  }

  lemma TailIsSlashless(k: TypedKey)
    requires k.Proper()
    ensures k.Tail() != [] && forall i :: 0 <= i < |k.Tail()| ==> SEPARATOR !in k.Tail()[i]
  {}

  lemma KindIsPrefix(a: string, x: string, b: string, y: string)
    requires '.' !in a && '.' !in b && a + "." + x == b + "." + y
    ensures a == b && x == y
  {
    Text.IndexOfFirst(a, '.', x);
    Text.IndexOfFirst(b, '.', y);
    hide *;
    assert a == (a + "." + x)[..|a|];
    assert x == (a + "." + x)[|a| + 1..];
    assert b == (b + "." + y)[..|b|];
    assert y == (b + "." + y)[|b| + 1..];
  }

  lemma SameTail(a: TypedKey, b: TypedKey)
    requires a.Proper() && b.Proper() && a.cluster == b.cluster && a.Tail() == b.Tail()
    ensures a.Written() == b.Written()
  {
    var n := |a.Tail()|;
    assert a.Tail()[n - 1] == b.Tail()[n - 1] && a.Tail()[n - 2] == b.Tail()[n - 2];
    if a.Typed() {
      assert a.Tail()[0] == b.Tail()[0];
      KindIsPrefix(a.kind, a.group, b.kind, b.group);
    }
  }

  lemma SameSuffix<T>(x: seq<T>, s: seq<T>, y: seq<T>, t: seq<T>)
    requires x + s == y + t && |s| == |t|
    ensures x == y && s == t
  {
    assert x == (x + s)[..|x|] && y == (y + t)[..|y|];
    assert s == (x + s)[|x|..] && t == (y + t)[|y|..];
  }

  lemma SameShape(a: TypedKey, b: TypedKey)
    requires a.Proper() && b.Proper() && (a.Typed() <==> b.Typed()) && a.AsKey(true) == b.AsKey(true)
    ensures a.Written() == b.Written()
  {
    hide TypedKey.AsKey, Text.Split, Text.Join, TypedKey.Proper, TypedKey.Written;
    KeyFields(a);
    KeyFields(b);
    SameSuffix(Text.Split(a.cluster, SEPARATOR), a.Tail(), Text.Split(b.cluster, SEPARATOR), b.Tail());
    Text.JoinSplit(a.cluster, SEPARATOR);
    Text.JoinSplit(b.cluster, SEPARATOR);
    SameTail(a, b);
  }

  /** The cluster name of the untyped key b ends in what a writes for its kind. */
  predicate Nests(a: TypedKey, b: TypedKey) {
    && a.Typed() && !b.Typed() && a.namespace == b.namespace && a.name == b.name
    && b.cluster == a.cluster + "/" + a.kind + "." + a.group
  }

  lemma OtherShape(a: TypedKey, b: TypedKey)
    requires a.Proper() && b.Proper() && a.Typed() && !b.Typed() && a.AsKey(true) == b.AsKey(true)
    ensures Nests(a, b)
  {
    hide TypedKey.AsKey, Text.Split, Text.Join, TypedKey.Proper;
    var x, y, kind, last := Text.Split(a.cluster, SEPARATOR), Text.Split(b.cluster, SEPARATOR),
      a.kind + "." + a.group, [a.namespace, a.name];
    KeyFields(a);
    KeyFields(b);
    assert a.Tail() == [kind] + last;
    Text.Assoc(x, [kind], last);
    SameSuffix(x + [kind], last, y, b.Tail());
    assert last[0] == b.Tail()[0] && last[1] == b.Tail()[1];
    Text.JoinSplit(a.cluster, SEPARATOR);
    Text.JoinSplit(b.cluster, SEPARATOR);
    Text.JoinAfter(x, [kind], SEPARATOR);
    SingleField(kind);
    Text.Assoc(a.cluster + "/", a.kind + ".", a.group);
    Text.Assoc(a.cluster + "/", a.kind, ".");
  }

  lemma SingleField(s: string)
    ensures Text.Join([s], SEPARATOR) == s
  {}

  /** With a slash in a cluster name, an untyped key may have the string of a typed one. */
  lemma SlashedClusterCollides(k: TypedKey)
    requires k.Typed()
    ensures TypedKey(k.cluster + "/" + k.kind + "." + k.group, "", "", k.namespace, k.name).AsKey(true) == k.AsKey(true)
  {}

  /** Two keys have the same string exactly if they agree on what is written, or if only one of them is typed and its
      kind ends the cluster name of the other one. */
  lemma KeyStringExactly(a: TypedKey, b: TypedKey)
    requires a.Proper() && b.Proper()
    ensures a.AsKey(true) == b.AsKey(true) <==> a.Written() == b.Written() || Nests(a, b) || Nests(b, a)
  {
    if a.Typed() <==> b.Typed() {
      if a.AsKey(true) == b.AsKey(true) {
        hide TypedKey.AsKey;
        SameShape(a, b);
      }
    } else {
      var t, u := if a.Typed() then a else b, if a.Typed() then b else a;
      if Nests(t, u) {
        SlashedClusterCollides(t);
      }
      hide TypedKey.AsKey, TypedKey.Proper;
      if t.AsKey(true) == u.AsKey(true) {
        OtherShape(t, u);
      }
    }
  }

  /** How keys are written: the cluster, the kind with its group unless it is of the core group, namespace and name. */
  lemma WrittenKeys(cluster: string, group: string, kind: string, namespace: string, name: string)
    ensures GlobalKey(cluster, namespace, name).AsKey() == cluster + "/" + namespace + "/" + name
    ensures group != "" && kind != "" ==>
              TypedKey(cluster, group, kind, namespace, name).AsKey(true)
              == cluster + "/" + kind + "." + group + "/" + namespace + "/" + name
    ensures group == "" || kind == "" ==>
              TypedKey(cluster, group, kind, namespace, name).AsKey(true) == cluster + "/" + namespace + "/" + name
    ensures TypedKey(cluster, group, kind, namespace, name).AsKey(false) == cluster + "/" + namespace + "/" + name
  {
    GlobalKeyJoins(GlobalKey(cluster, namespace, name));
  }

  /** Kinds of the core group are not told apart. */
  lemma CoreKindsCollide(cluster: string, namespace: string, name: string)
    ensures TypedKey(cluster, "", "Secret", namespace, name).AsKey(true)
            == TypedKey(cluster, "", "ConfigMap", namespace, name).AsKey(true)
  {}

  // ------------------------------------------------------------------------------------------
  // Fleet members

  function Compose(fleet: string, name: string): string {
    if name == "" then fleet else fleet + [MEMBER] + name
  }

  function Split(name: string): (string, string) {
    var i := Text.IndexOf(name, MEMBER);
    if i < 0 then ("", name) else (name[..i], name[i + 1..])
  }

  predicate Match(fleet: string, name: string) {
    fleet == name || Split(name).0 == fleet
  }

  /** Without a member the name is that of the fleet; member names extend it, and differ for different members. */
  lemma ComposeExactly(fleet: string, a: string, b: string)
    ensures Compose(fleet, "") == fleet
    ensures a != "" ==> fleet + "#" <= Compose(fleet, a) && Compose(fleet, a)[|fleet| + 1..] == a
    ensures Compose(fleet, a) == Compose(fleet, b) <==> a == b
  {
    assert a != "" ==> Compose(fleet, a)[|fleet| + 1..] == a;
    assert b != "" ==> Compose(fleet, b)[|fleet| + 1..] == b;
  }

  /** A member name splits into fleet and member exactly if there is a member and the fleet name has no '#'; the
      name of the member may have one. */
  lemma SplitCompose(fleet: string, name: string)
    ensures Split(Compose(fleet, name)) == (fleet, name) <==> MEMBER !in fleet && (name != "" || fleet == "")
  {
    if MEMBER !in fleet && name != "" {
      Text.IndexOfFirst(fleet, MEMBER, name);
      assert (fleet + [MEMBER] + name)[..|fleet|] == fleet;
      assert (fleet + [MEMBER] + name)[|fleet| + 1..] == name;
    }
  }

  /** A fleet takes its own name and, if it has no separator in it, the names of its members; the nameless fleet takes
      every name without separator, too. */
  lemma MatchExactly(fleet: string, name: string)
    ensures Match(fleet, name) <==>
            || name == fleet || (MEMBER !in fleet && fleet + [MEMBER] <= name)
            || (fleet == "" && MEMBER !in name)
  {
    var i := Text.IndexOf(name, MEMBER);
    if MEMBER !in fleet && fleet + [MEMBER] <= name {
      var rest := name[|fleet| + 1..];
      assert name == fleet + [MEMBER] + rest;
      Text.IndexOfFirst(fleet, MEMBER, rest);
    }
    if 0 <= i && Split(name).0 == fleet {
      assert name[..i + 1] == fleet + [MEMBER];
    }
  }

  /** Different fleets have no member name in common. */
  lemma FleetsAreDisjoint(f: string, g: string, m: string, n: string)
    requires MEMBER !in f && MEMBER !in g && m != "" && n != ""
    ensures Compose(f, m) == Compose(g, n) ==> f == g && m == n
  {
    SplitCompose(f, m);
    SplitCompose(g, n);
  }

  function NormalizeKeyString(fleet: string, localCluster: string, key: string): string {
    Normalized(Compose(fleet, localCluster), key)
  }

  /** A key without a cluster is meant for the cluster it is found in. */
  function Normalized(cluster: string, key: string): string {
    if key != "" && key[0] == SEPARATOR then cluster + key else key
  }

  lemma FirstSlash(c: string, v: string, k: string, l: string)
    requires Slashless(c) && Slashless(k) && v != "" && v[0] == SEPARATOR && l != "" && l[0] == SEPARATOR
    requires c + v == k + l
    ensures c == k && v == l
  {
    assert c + v == c + [SEPARATOR] + v[1..] && k + l == k + [SEPARATOR] + l[1..];
    Text.IndexOfFirst(c, SEPARATOR, v[1..]);
    Text.IndexOfFirst(k, SEPARATOR, l[1..]);
    assert c == (c + v)[..|c|] && k == (k + l)[..|k|];
    assert v == (c + v)[|c|..] && l == (k + l)[|k|..];
  }

  /** No slash follows a first part of the name. */
  predicate Headless(c: string) {
    Text.IndexOf(c, SEPARATOR) <= 0
  }

  /** The strings that mean the key k in a cluster: the key itself, and its local form in the cluster of the key. */
  lemma NormalizedExactly(cluster: string, v: string, k: TypedKey)
    requires Headless(cluster) && Slashless(k.cluster) && k.cluster != ""
    ensures Normalized(cluster, v) == k.AsKey(true) <==>
            v == k.AsKey(true) || (v == k.AsLocalKey().AsKey(true) && cluster == k.cluster)
    ensures k.AsKey(true) != k.AsLocalKey().AsKey(true)
  {
    var g, l := k.AsKey(true), k.AsLocalKey().AsKey(true);
    LocalKeySuffix(k);
    assert l[0] == SEPARATOR && g[0] == k.cluster[0];
    hide TypedKey.AsKey;
    assert Text.IndexOf(cluster, SEPARATOR) == 0 ==> (cluster + v)[0] == SEPARATOR;
    if v != "" && v[0] == SEPARATOR && cluster + v == g {
      FirstSlash(cluster, v, k.cluster, l);
    }
  }

  /** In a cluster whose name has such a part there is a key that a value means, although it is neither. */
  lemma HeadMisleads(cluster: string, p: string, q: string)
    requires cluster == p + [SEPARATOR] + q && p != "" && Slashless(p)
    ensures var k := TypedKey(p, "", "", q, "n");
      && Normalized(cluster, "/n") == k.AsKey(true)
      && "/n" != k.AsKey(true) && "/n" != k.AsLocalKey().AsKey(true)
  {
    var k := TypedKey(p, "", "", q, "n");
    assert k.AsKey(true) == p + [SEPARATOR] + q + [SEPARATOR] + "n";
    assert cluster + "/n" == p + [SEPARATOR] + q + [SEPARATOR] + "n";
    assert k.AsKey(true)[0] == p[0];
    assert |k.AsLocalKey().AsKey(true)| == |q| + 3;
  }
}
