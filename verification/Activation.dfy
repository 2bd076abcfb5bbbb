/** Selection of controllers by names and groups (options/activationopts/options.go) and the group
    closure of the constraint context (controller/constraints/constraints.go). */
module Activation {
  import opened Graphs
  import Text

  const ALL := "all"

  /** The declared controllers and their groups. A nil member list is a missing entry. */
  datatype ControllerSet = ControllerSet(names: seq<string>, groups: map<string, seq<string>>)

  // ------------------------------------------------------------------------------------------
  // Short names

  function ShortForm(comps: seq<string>, i: nat): string
    requires i < |comps|
  {
    Text.Join(comps[|comps| - i - 1..], '.')
  }

  function Empty(m: map<string, string>, t: string): bool {
    t !in m || m[t] == ""
  }

  /** The entry n makes in the table of short forms, looking from its i-th suffix on. */
  function Enter(m: map<string, string>, n: string, i: nat): map<string, string>
    requires i <= |Text.Split(n, '.')|
    decreases |Text.Split(n, '.')| - i
  {
    var comps := Text.Split(n, '.');
    if |comps| == 1 then m[n := n]
    else if i == |comps| then m
    else if Empty(m, ShortForm(comps, i)) then m[ShortForm(comps, i) := n]
    else Enter(m, n, i + 1)
  }

  function Table(names: seq<string>): map<string, string> {
    if names == [] then map[] else Enter(Table(names[..|names| - 1]), names[|names| - 1], 0)
  }

  method Simplify(names: seq<string>) returns (result: map<string, string>)
    ensures result == Table(names)
  {
    hide Text.Split;
    hide Text.Join;
    result := map[];
    for k := 0 to |names|
      invariant result == Table(names[..k])
    {
      var n := names[k];
      assert names[..k + 1][..k] == names[..k];
      var comps := Text.Split(n, '.');
      if |comps| == 1 {
        result := result[n := n];
      } else {
        ghost var before := result;
        var done := false;
        for i := 0 to |comps|
          invariant if done then result == Enter(before, n, 0)
                    else result == before && Enter(before, n, 0) == Enter(before, n, i)
        {
          if !done {
            var t := Text.Join(comps[|comps| - i - 1..], '.');
            if Empty(result, t) {
              result := result[t := n];
              done := true;
            }
          }
        }
      }
    }
    assert names[..|names|] == names;
  }

  function Canonical(table: map<string, string>, n: string): string {
    if n in table then table[n] else n
  }

  ghost predicate Undotted(n: string) {
    '.' !in n
  }

  lemma {:induction false} UndottedTable(names: seq<string>)
    requires forall k :: 0 <= k < |names| ==> Undotted(names[k])
    ensures forall n :: n in Table(names) ==> Table(names)[n] == n
  {
    if names != [] {
      UndottedTable(names[..|names| - 1]);
      assert |Text.Split(names[|names| - 1], '.')| == 1;
    }
  }

  /** With undotted names the table maps every name to itself. */
  lemma UndottedCanonical(names: seq<string>, n: string)
    requires forall k :: 0 <= k < |names| ==> Undotted(names[k])
    ensures Canonical(Table(names), n) == n
  {
    UndottedTable(names);
  }

  lemma EnterStep(m: map<string, string>, n: string, comps: seq<string>, i: nat)
    requires comps == Text.Split(n, '.') && 1 < |comps| && i <= |comps|
    ensures Enter(m, n, i) ==
            if i == |comps| then m
            else if Empty(m, ShortForm(comps, i)) then m[ShortForm(comps, i) := n]
            else Enter(m, n, i + 1)
  {
    hide Text.Split;
    hide Text.Join;
  }

  // --- Which name gets an entry

  /** x is t, or ends in t behind a dot. */
  predicate EndsIn(x: string, t: string) {
    x == t || (|t| < |x| && x[|x| - |t| - 1..] == ['.'] + t)
  }

  /** The turn of x enters it under t: t is free, and all shorter endings of t are taken. */
  ghost predicate Picks(m: map<string, string>, x: string, t: string) {
    EndsIn(x, t) && Empty(m, t) && forall s :: EndsIn(t, s) && s != t ==> !Empty(m, s)
  }

  lemma {:induction false} JoinEndsIn(parts: seq<string>, q: nat)
    requires q < |parts|
    ensures EndsIn(Text.Join(parts, '.'), Text.Join(parts[q..], '.'))
    ensures q > 0 ==> |Text.Join(parts[q..], '.')| < |Text.Join(parts, '.')|
  {
    if q > 0 {
      var rest := Text.Join(parts[1..], '.');
      JoinEndsIn(parts[1..], q - 1);
      assert parts[1..][q - 1..] == parts[q..];
      var t := Text.Join(parts[q..], '.');
      assert Text.Join(parts, '.') == parts[0] + ['.'] + rest;
      hide Text.Join;
      EndsInLonger(parts[0], rest, t);
    }
  }

  lemma EndsInLonger(p: string, x: string, t: string)
    requires EndsIn(x, t)
    ensures EndsIn(p + ['.'] + x, t)
  {
    var y := p + ['.'] + x;
    if x == t {
      assert y[|y| - |t| - 1..] == ['.'] + t;
    } else {
      assert y[|y| - |t| - 1..] == x[|x| - |t| - 1..];
    }
  }

  /** The endings of a name are the joins of its last components. */
  lemma JoinEndings(parts: seq<string>, s: string) returns (q: nat)
    requires parts != [] && (forall k :: 0 <= k < |parts| ==> Undotted(parts[k])) && EndsIn(Text.Join(parts, '.'), s)
    ensures q < |parts| && s == Text.Join(parts[q..], '.')
  {
    var x := Text.Join(parts, '.');
    q := 0;
    if x == s {
      assert parts[0..] == parts;
    } else {
      var p := x[..|x| - |s| - 1];
      assert x == p + ['.'] + s;
      Text.SplitJoin(parts, '.');
      Text.SplitAppend(p, '.', s);
      Text.JoinSplit(s, '.');
      q := |Text.Split(p, '.')|;
      hide *;
      assert parts[q..] == Text.Split(s, '.');
    }
  }

  /** The endings of the k-th short form are the short forms up to it. */
  lemma ShortFormEndings(comps: seq<string>, k: nat, s: string)
    requires k < |comps| && forall i :: 0 <= i < |comps| ==> Undotted(comps[i])
    ensures EndsIn(ShortForm(comps, k), s) <==> exists j :: 0 <= j <= k && s == ShortForm(comps, j)
    ensures forall j :: 0 <= j < k ==> ShortForm(comps, j) != ShortForm(comps, k)
  {
    hide Text.Join, EndsIn;
    var b := |comps| - k - 1;
    var parts := comps[b..];
    if EndsIn(ShortForm(comps, k), s) {
      var q := JoinEndings(parts, s);
      assert parts[q..] == comps[|comps| - (k - q) - 1..];
      assert s == ShortForm(comps, k - q);
    }
    forall j | 0 <= j <= k
      ensures EndsIn(ShortForm(comps, k), ShortForm(comps, j)) && (j < k ==> ShortForm(comps, j) != ShortForm(comps, k))
    {
      JoinEndsIn(parts, k - j);
      assert parts[k - j..] == comps[|comps| - j - 1..];
    }
  }

  /** Picks in terms of the components. */
  ghost predicate PicksFrom(m: map<string, string>, comps: seq<string>, i: nat, t: string) {
    exists k :: i <= k < |comps| && t == ShortForm(comps, k) && Empty(m, t)
                && forall j :: i <= j < k ==> !Empty(m, ShortForm(comps, j))
  }

  lemma PicksFromStep(m: map<string, string>, comps: seq<string>, i: nat, t: string)
    requires i <= |comps|
    ensures PicksFrom(m, comps, i, t) <==>
            if i == |comps| then false
            else if Empty(m, ShortForm(comps, i)) then t == ShortForm(comps, i)
            else PicksFrom(m, comps, i + 1, t)
  {
    hide ShortForm, Empty;
  }

  lemma {:induction false} EnterFrom(m: map<string, string>, x: string, comps: seq<string>, i: nat, t: string)
    requires comps == Text.Split(x, '.') && 1 < |comps| && i <= |comps|
    ensures t in Enter(m, x, i) <==> t in m || PicksFrom(m, comps, i, t)
    ensures t in Enter(m, x, i) ==> Enter(m, x, i)[t] == if PicksFrom(m, comps, i, t) then x else m[t]
    decreases |comps| - i
  {
    EnterStep(m, x, comps, i);
    PicksFromStep(m, comps, i, t);
    hide Text.Split, Enter, ShortForm, PicksFrom, Empty;
    if i < |comps| && !Empty(m, ShortForm(comps, i)) {
      EnterFrom(m, x, comps, i + 1, t);
    }
  }

  lemma Components(x: string) returns (comps: seq<string>)
    ensures comps == Text.Split(x, '.') && comps != [] && forall i :: 0 <= i < |comps| ==> Undotted(comps[i])
    ensures ShortForm(comps, |comps| - 1) == x
    ensures '.' in x ==> 1 < |comps|
  {
    comps := Text.Split(x, '.');
    forall i | 0 <= i < |comps|
      ensures Undotted(comps[i])
    {
      Text.FieldsHaveNoSeparator(x, '.', i);
    }
    Text.JoinSplit(x, '.');
    assert comps[0..] == comps;
    hide Text.Split, Text.Join;
    if '.' in x {
      var first, rest := Text.FirstField(x, '.');
      Text.SplitAppend(first, '.', rest);
    }
  }

  /** The k-th short form as a pick: free, with the ones before it taken. */
  lemma PickForm(m: map<string, string>, comps: seq<string>, k: nat)
    requires k < |comps| && forall i :: 0 <= i < |comps| ==> Undotted(comps[i])
    ensures (forall s :: EndsIn(ShortForm(comps, k), s) && s != ShortForm(comps, k) ==> !Empty(m, s)) <==>
            (forall j :: 0 <= j < k ==> !Empty(m, ShortForm(comps, j)))
  {
    var t := ShortForm(comps, k);
    hide ShortForm, EndsIn, Empty;
    ShortFormEndings(comps, k, t);
    forall s
      ensures EndsIn(t, s) <==> exists j :: 0 <= j <= k && s == ShortForm(comps, j)
    {
      ShortFormEndings(comps, k, s);
    }
    assert forall j :: 0 <= j < k ==> EndsIn(t, ShortForm(comps, j)) && ShortForm(comps, j) != t;
  }

  lemma PicksByForms(m: map<string, string>, x: string, comps: seq<string>, t: string)
    requires comps != [] && ShortForm(comps, |comps| - 1) == x
    requires forall i :: 0 <= i < |comps| ==> Undotted(comps[i])
    ensures Picks(m, x, t) <==> PicksFrom(m, comps, 0, t)
  {
    hide ShortForm, EndsIn, Empty;
    ShortFormEndings(comps, |comps| - 1, t);
    if EndsIn(x, t) {
      var k :| 0 <= k < |comps| && t == ShortForm(comps, k);
      PickForm(m, comps, k);
    }
    if PicksFrom(m, comps, 0, t) {
      var k :| 0 <= k < |comps| && t == ShortForm(comps, k) && Empty(m, t)
               && forall j :: 0 <= j < k ==> !Empty(m, ShortForm(comps, j));
      PickForm(m, comps, k);
    }
  }

  /** What the turn of a dotted name does to the table. */
  lemma EnterExactly(m: map<string, string>, x: string, t: string)
    requires '.' in x
    ensures t in Enter(m, x, 0) <==> t in m || Picks(m, x, t)
    ensures t in Enter(m, x, 0) ==> Enter(m, x, 0)[t] == if Picks(m, x, t) then x else m[t]
  {
    hide *;
    var comps := Components(x);
    PicksByForms(m, x, comps, t);
    EnterFrom(m, x, comps, 0, t);
  }

  lemma EnterUndotted(m: map<string, string>, x: string)
    requires Undotted(x)
    ensures Enter(m, x, 0) == m[x := x]
  {
    assert |Text.Split(x, '.')| == 1;
  }

  lemma TableStep(names: seq<string>, n: string)
    ensures Table(names + [n]) == Enter(Table(names), n, 0)
  {}

  /** Every entry leads to a declared name that ends in it. */
  lemma {:induction false} EntriesEnd(names: seq<string>, t: string)
    requires t in Table(names)
    ensures Table(names)[t] in names && EndsIn(Table(names)[t], t)
  {
    if names != [] {
      var front, x := names[..|names| - 1], names[|names| - 1];
      hide Enter, EndsIn;
      if '.' in x {
        EnterExactly(Table(front), x, t);
      } else {
        EnterUndotted(Table(front), x);
        assert EndsIn(x, x) by {
          EndsInItself(x);
        }
      }
      if t in Table(front) {
        EntriesEnd(front, t);
      }
    }
  }

  lemma EndsInItself(x: string)
    ensures EndsIn(x, x)
  {}

  /** A name that no other declared name ends in acts on itself. */
  lemma UnsharedNameIsKept(names: seq<string>, n: string)
    requires forall k :: 0 <= k < |names| && names[k] != n ==> !EndsIn(names[k], n)
    ensures Canonical(Table(names), n) == n
  {
    if n in Table(names) {
      EntriesEnd(names, n);
    }
  }

  /** The k-th name takes n away: it is entered under n, and an undotted n is not declared after it. */
  ghost predicate Captures(names: seq<string>, k: int, n: string) {
    && 0 <= k < |names| && names[k] != n && '.' in names[k] && Picks(Table(names[..k]), names[k], n)
    && (Undotted(n) ==> n !in names[k + 1..])
  }

  /** A name acts on another one exactly if some other declared name ends in it and has its turn when the name is free
      and all its shorter endings are taken. */
  lemma {:induction false} CapturedExactly(names: seq<string>, n: string)
    ensures Canonical(Table(names), n) != n <==> exists k :: Captures(names, k, n)
  {
    if names != [] {
      var l := |names| - 1;
      var front, x := names[..l], names[l];
      CapturedExactly(front, n);
      CapturesLast(names, n);
      hide Enter, Text.Split, EndsIn, Captures;
      if '.' in x {
        EnterExactly(Table(front), x, n);
        if Picks(Table(front), x, n) {
          FreeIsKept(front, n);
        }
      } else {
        EnterUndotted(Table(front), x);
      }
    }
  }

  lemma CapturesLast(names: seq<string>, n: string)
    requires names != []
    ensures var l := |names| - 1;
      (exists k :: Captures(names, k, n)) <==>
        || ((exists k :: Captures(names[..l], k, n)) && (Undotted(n) ==> names[l] != n))
        || (names[l] != n && '.' in names[l] && Picks(Table(names[..l]), names[l], n))
  {
    var l := |names| - 1;
    CapturesFront(names, n);
    assert names[l + 1..] == [];
    hide Picks, Table;
    if exists k :: Captures(names, k, n) {
      var k :| Captures(names, k, n);
      assert k < l ==> Captures(names[..l], k, n);
    }
    if (exists k :: Captures(names[..l], k, n)) && (Undotted(n) ==> names[l] != n) {
      var k :| Captures(names[..l], k, n);
      assert Captures(names, k, n);
    }
    if names[l] != n && '.' in names[l] && Picks(Table(names[..l]), names[l], n) {
      assert Captures(names, l, n);
    }
  }

  lemma CapturesFront(names: seq<string>, n: string)
    requires names != []
    ensures var l := |names| - 1;
      forall k :: 0 <= k < l ==>
        (Captures(names, k, n) <==> Captures(names[..l], k, n) && (Undotted(n) ==> names[l] != n))
  {
    var l := |names| - 1;
    var front := names[..l];
    hide Picks, Table;
    forall k | 0 <= k < l
      ensures Captures(names, k, n) <==> Captures(front, k, n) && (Undotted(n) ==> names[l] != n)
    {
      assert names[k + 1..] == front[k + 1..] + [names[l]];
      assert front[..k] == names[..k];
    }
  }

  /** A free name has not been captured. */
  lemma FreeIsKept(names: seq<string>, n: string)
    requires Empty(Table(names), n)
    ensures Canonical(Table(names), n) == n
  {
    if n in Table(names) {
      EntriesEnd(names, n);
    }
  }

  /** The smallest such input: of b.c and a.b.c declared in this order, b.c acts on a.b.c. */
  lemma LongerNameCaptures(a: string, b: string, c: string)
    requires Undotted(a) && Undotted(b) && Undotted(c) && c != ""
    ensures var short, long := b + "." + c, a + "." + b + "." + c;
            Canonical(Table([short] + [long]), short) == long
  {
    var short, long := b + "." + c, a + "." + b + "." + c;
    hide *;
    ShortIsEntered(b, c);
    LongEndsInShort(a, b, c);
    TableStep([short], long);
    EnterExactly(Table([short]), long, short);
    CanonicalEntry(Table([short] + [long]), short);
  }

  lemma CanonicalEntry(table: map<string, string>, n: string)
    ensures n in table ==> Canonical(table, n) == table[n]
  {}

  lemma LongEndsInShort(a: string, b: string, c: string)
    requires Undotted(b) && Undotted(c) && Empty(Table([b + "." + c]), b + "." + c)
    requires !Empty(Table([b + "." + c]), c)
    ensures var short, long := b + "." + c, a + "." + b + "." + c;
            '.' in long && Picks(Table([short]), long, short)
  {
    var short, long := b + "." + c, a + "." + b + "." + c;
    assert long == a + ['.'] + short && long[|a|] == '.';
    EndsInItself(short);
    EndsInLonger(a, short, short);
    EndingsOfTwo(b, c);
    hide Table, EndsIn, Empty;
  }

  /** b.c alone is entered under c. */
  lemma ShortIsEntered(b: string, c: string)
    requires Undotted(b) && Undotted(c) && c != ""
    ensures var short := b + "." + c; Empty(Table([short]), short) && !Empty(Table([short]), c)
  {
    var short := b + "." + c;
    OnlyTable(short);
    PicksOfTwo(b, c);
    hide *;
    EnterExactly(map[], short, c);
    EnterExactly(map[], short, short);
    EmptyEntries(Enter(map[], short, 0), c, short);
  }

  lemma OnlyTable(x: string)
    ensures Table([x]) == Enter(map[], x, 0)
  {
    assert [] + [x] == [x] && Table([]) == map[];
    hide Enter;
    TableStep([], x);
  }

  lemma EmptyEntries(m: map<string, string>, c: string, short: string)
    ensures c in m && m[c] != "" ==> !Empty(m, c)
    ensures short !in m ==> Empty(m, short)
  {}

  lemma PicksOfTwo(b: string, c: string)
    requires Undotted(b) && Undotted(c)
    ensures var short := b + "." + c;
            short != "" && '.' in short && Picks(map[], short, c) && !Picks(map[], short, short)
  {
    EndingsOfTwo(b, c);
    hide EndsIn;
  }

  lemma EndingsOfTwo(b: string, c: string)
    requires Undotted(b) && Undotted(c)
    ensures forall s :: EndsIn(b + "." + c, s) <==> s == b + "." + c || s == c
    ensures forall s :: EndsIn(c, s) <==> s == c
    ensures '.' in b + "." + c && b + "." + c != c
  {
    var short, parts := b + "." + c, [b, c];
    assert parts[1..] == [c] && parts[0..] == parts && [c][0..] == [c];
    assert Text.Join([c], '.') == c && Text.Join(parts, '.') == short;
    JoinEndsIn(parts, 0);
    JoinEndsIn(parts, 1);
    JoinEndsIn([c], 0);
    hide *;
    forall s | EndsIn(short, s)
      ensures s == short || s == c
    {
      EndingOfJoin(parts, s);
    }
    forall s | EndsIn(c, s)
      ensures s == c
    {
      EndingOfJoin([c], s);
    }
  }

  lemma EndingOfJoin(parts: seq<string>, s: string)
    requires 0 < |parts| <= 2 && forall k :: 0 <= k < |parts| ==> Undotted(parts[k])
    requires EndsIn(Text.Join(parts, '.'), s)
    ensures s == Text.Join(parts[0..], '.') || (|parts| == 2 && s == Text.Join(parts[1..], '.'))
  {
    hide *;
    var q := JoinEndings(parts, s);
    assert q == 0 || q == 1;
  }

  // ------------------------------------------------------------------------------------------
  // handle: the path-scoped search

  /** Neither a group nor the name of all controllers. */
  ghost predicate IsLeaf(cs: ControllerSet, n: string) {
    n !in cs.groups && n != ALL
  }

  function Members(cs: ControllerSet, n: string): seq<string> {
    if n in cs.groups then cs.groups[n] else if n == ALL then cs.names else []
  }

  function CanonicalAll(table: map<string, string>, l: seq<string>): (r: seq<string>)
    ensures |r| == |l| && forall i :: 0 <= i < |l| ==> r[i] == Canonical(table, l[i])
  {
    seq(|l|, i requires 0 <= i < |l| => Canonical(table, l[i]))
  }

  /** The graph handle walks: canonical names and the canonical names of their members. */
  function Tree(cs: ControllerSet, table: map<string, string>): Graph<string> {
    map n | n in cs.groups.Keys + {ALL} :: CanonicalAll(table, Members(cs, n))
  }

  /** The leaves handle acts on for name n while the names in path are under way. */
  ghost function Leaves(cs: ControllerSet, table: map<string, string>, n: string, path: set<string>): set<string>
    decreases cs.groups.Keys + {ALL} - path, 0, 0
  {
    var c := Canonical(table, n);
    if c in path then {}
    else if IsLeaf(cs, c) then {c}
    else LeavesOf(cs, table, c, |Members(cs, c)|, path)
  }

  /** The leaves of the first k members of the group c. */
  ghost function LeavesOf(cs: ControllerSet, table: map<string, string>, c: string, k: nat,
      path: set<string>): set<string>
    requires !IsLeaf(cs, c) && c !in path && k <= |Members(cs, c)|
    decreases cs.groups.Keys + {ALL} - (path + {c}), 1, k
  {
    if k == 0 then {}
    else LeavesOf(cs, table, c, k - 1, path) + Leaves(cs, table, Members(cs, c)[k - 1], path + {c})
  }

  lemma {:induction false} LeavesSound(cs: ControllerSet, table: map<string, string>, n: string, path: set<string>,
      l: string)
    requires l in Leaves(cs, table, n, path)
    ensures IsLeaf(cs, l) && Reach(Tree(cs, table), Canonical(table, n), l)
    decreases cs.groups.Keys + {ALL} - path, 0, 0
  {
    var c := Canonical(table, n);
    if IsLeaf(cs, c) {
      ReachRefl(Tree(cs, table), c);
    } else {
      LeavesOfSound(cs, table, c, |Members(cs, c)|, path, l);
    }
  }

  lemma {:induction false} LeavesOfSound(cs: ControllerSet, table: map<string, string>, c: string, k: nat,
      path: set<string>, l: string)
    requires !IsLeaf(cs, c) && c !in path && k <= |Members(cs, c)|
    requires l in LeavesOf(cs, table, c, k, path)
    ensures IsLeaf(cs, l) && Reach(Tree(cs, table), c, l)
    decreases cs.groups.Keys + {ALL} - (path + {c}), 1, k
  {
    var m := Members(cs, c)[k - 1];
    if l in LeavesOf(cs, table, c, k - 1, path) {
      LeavesOfSound(cs, table, c, k - 1, path, l);
    } else {
      LeavesSound(cs, table, m, path + {c}, l);
      assert CanonicalAll(table, Members(cs, c))[k - 1] == Canonical(table, m);
      ReachStep(Tree(cs, table), c, Canonical(table, m), l);
    }
  }

  lemma {:induction false} LeavesOfMember(cs: ControllerSet, table: map<string, string>, c: string, k: nat,
      path: set<string>, i: nat, l: string)
    requires !IsLeaf(cs, c) && c !in path && i < k <= |Members(cs, c)|
    requires l in Leaves(cs, table, Members(cs, c)[i], path + {c})
    ensures l in LeavesOf(cs, table, c, k, path)
    decreases k
  {
    if i < k - 1 {
      LeavesOfMember(cs, table, c, k - 1, path, i, l);
    }
  }

  lemma {:induction false} LastOccurrence(p: seq<string>, x: string) returns (i: nat)
    requires x in p
    ensures i < |p| && p[i] == x && x !in p[i + 1..]
  {
    i := |p| - 1;
    while p[i] != x
      invariant i < |p| && x in p[..i + 1] && x !in p[i + 1..]
      decreases i
    {
      assert p[..i + 1] == p[..i] + [p[i]];
      assert p[i..] == [p[i]] + p[i + 1..];
      i := i - 1;
    }
  }

  lemma WalkMoves(g: Graph<string>, p: seq<string>)
    requires IsWalk(g, p) && 1 < |p|
    ensures p[1] in Succ(g, p[0])
  {}

  /** A leaf at the end of a walk off the path is found: cut the walk behind its last visit of the group. */
  lemma {:induction false} LeavesComplete(cs: ControllerSet, table: map<string, string>, n: string, path: set<string>,
      p: seq<string>, l: string)
    requires WalkFrom(Tree(cs, table), p, Canonical(table, n), l)
    requires IsLeaf(cs, l) && Elems(p) !! path
    ensures l in Leaves(cs, table, n, path)
    decreases |p|
  {
    var g, c := Tree(cs, table), Canonical(table, n);
    assert c in Elems(p);
    if !IsLeaf(cs, c) {
      var i := LastOccurrence(p, c);
      assert p[|p| - 1] == l;
      var q := p[i + 1..];
      assert q[0] in Succ(g, p[i]);
      var j :| 0 <= j < |CanonicalAll(table, Members(cs, c))| && CanonicalAll(table, Members(cs, c))[j] == q[0];
      assert IsWalk(g, q) by {
        forall k | 0 < k < |q|
          ensures q[k] in Succ(g, q[k - 1])
        {
          assert q[k] == p[i + 1 + k] && q[k - 1] == p[i + k];
        }
      }
      assert Elems(q) <= Elems(p) && c !in Elems(q);
      LeavesComplete(cs, table, Members(cs, c)[j], path + {c}, q, l);
      LeavesOfMember(cs, table, c, |Members(cs, c)|, path, j, l);
    } else {
      if 1 < |p| {
        WalkMoves(g, p);
        assert false;
      }
    }
  }

  /** The members of a group are its entries in the declaration, and those of "all", unless there is such a group, all
      declared names. */
  lemma TreeEdges(cs: ControllerSet, table: map<string, string>, x: string, y: string)
    ensures y in Succ(Tree(cs, table), x) <==>
            exists m :: Canonical(table, m) == y
                        && if x in cs.groups then m in cs.groups[x] else x == "all" && m in cs.names
  {
    hide Canonical;
    if y in Succ(Tree(cs, table), x) {
      var j :| 0 <= j < |Members(cs, x)| && CanonicalAll(table, Members(cs, x))[j] == y;
      assert Canonical(table, Members(cs, x)[j]) == y;
    }
    if m :| Canonical(table, m) == y && if x in cs.groups then m in cs.groups[x] else x == "all" && m in cs.names {
      var j :| 0 <= j < |Members(cs, x)| && Members(cs, x)[j] == m;
      assert CanonicalAll(table, Members(cs, x))[j] == y;
    }
  }

  /** On every group graph, cyclic or not, handle acts on exactly the leaves reachable from the name. */
  lemma LeavesAreReachable(cs: ControllerSet, table: map<string, string>, n: string, l: string)
    ensures l in Leaves(cs, table, n, {}) <==> IsLeaf(cs, l) && Reach(Tree(cs, table), Canonical(table, n), l)
  {
    if l in Leaves(cs, table, n, {}) {
      LeavesSound(cs, table, n, {}, l);
    }
    if IsLeaf(cs, l) && Reach(Tree(cs, table), Canonical(table, n), l) {
      var p :| WalkFrom(Tree(cs, table), p, Canonical(table, n), l);
      LeavesComplete(cs, table, n, {}, p, l);
    }
  }

  // ------------------------------------------------------------------------------------------
  // The selection list

  predicate Negative(e: string) {
    e != "" && e[0] == '-'
  }

  function NameOf(e: string): string {
    if e != "" && (e[0] == '-' || e[0] == '+') then e[1..] else e
  }

  ghost function Touched(cs: ControllerSet, table: map<string, string>, e: string): set<string> {
    Leaves(cs, table, NameOf(e), {})
  }

  /** The fold: a leading negative entry starts from all controllers. */
  ghost function Activated(cs: ControllerSet, table: map<string, string>, list: seq<string>): set<string> {
    if list == [] then {}
    else
      var e, before := list[|list| - 1], Activated(cs, table, list[..|list| - 1]);
      if Negative(e) then (if |list| == 1 then Elems(cs.names) else before) - Touched(cs, table, e)
      else before + Touched(cs, table, e)
  }

  /** What one more entry does to the selection, in its three forms: "-g" takes the leaves of g out, of all declared
      names if it comes first; "+g" and a bare g put them in. */
  lemma OneMoreEntry(cs: ControllerSet, table: map<string, string>, before: seq<string>, g: string)
    ensures Activated(cs, table, before + ["-" + g]) ==
            (if before == [] then set n | n in cs.names else Activated(cs, table, before)) - Leaves(cs, table, g, {})
    ensures Activated(cs, table, before + ["+" + g]) == Activated(cs, table, before) + Leaves(cs, table, g, {})
    ensures g == "" || (g[0] != '-' && g[0] != '+') ==>
              Activated(cs, table, before + [g]) == Activated(cs, table, before) + Leaves(cs, table, g, {})
  {
    hide Leaves;
    assert ("-" + g)[1..] == g && ("+" + g)[1..] == g;
    LastEntry(cs, table, before, "-" + g);
    LastEntry(cs, table, before, "+" + g);
    LastEntry(cs, table, before, g);
  }

  lemma LastEntry(cs: ControllerSet, table: map<string, string>, before: seq<string>, e: string)
    ensures Activated(cs, table, before + [e]) ==
            if Negative(e) then (if before == [] then Elems(cs.names) else Activated(cs, table, before))
                                - Touched(cs, table, e)
            else Activated(cs, table, before) + Touched(cs, table, e)
  {
    hide Touched;
    assert (before + [e])[..|before|] == before;
  }

  /** e is the last entry of the list that touches x. */
  ghost predicate LastWord(cs: ControllerSet, table: map<string, string>, list: seq<string>, x: string, i: nat) {
    && i < |list| && x in Touched(cs, table, list[i])
    && forall j :: i < j < |list| ==> x !in Touched(cs, table, list[j])
  }

  lemma {:induction false} LastWordWins(cs: ControllerSet, table: map<string, string>, list: seq<string>, x: string,
      i: nat)
    requires LastWord(cs, table, list, x, i)
    ensures x in Activated(cs, table, list) <==> !Negative(list[i])
    decreases |list|
  {
    var shorter := list[..|list| - 1];
    if i < |shorter| {
      assert forall j :: i <= j < |shorter| ==> shorter[j] == list[j];
      LastWordWins(cs, table, shorter, x, i);
      assert x !in Touched(cs, table, list[|list| - 1]);
    }
  }

  lemma {:induction false} Untouched(cs: ControllerSet, table: map<string, string>, list: seq<string>, x: string)
    requires forall i :: 0 <= i < |list| ==> x !in Touched(cs, table, list[i])
    ensures x in Activated(cs, table, list) <==> list != [] && Negative(list[0]) && x in cs.names
    decreases |list|
  {
    if list != [] {
      var shorter := list[..|list| - 1];
      assert forall i :: 0 <= i < |shorter| ==> shorter[i] == list[i];
      Untouched(cs, table, shorter, x);
      assert x !in Touched(cs, table, list[|list| - 1]);
    }
  }

  /** Whether a controller is active is decided by the last entry that touches it; if there is none it
      is active iff the list starts with a deselection and the controller is declared. */
  lemma LastWordDecides(cs: ControllerSet, table: map<string, string>, list: seq<string>, x: string)
    ensures x in Activated(cs, table, list) <==>
            || (exists i: nat :: LastWord(cs, table, list, x, i) && !Negative(list[i]))
            || ((forall i :: 0 <= i < |list| ==> x !in Touched(cs, table, list[i]))
                && list != [] && Negative(list[0]) && x in cs.names)
  {
    if i :| 0 <= i < |list| && x in Touched(cs, table, list[i]) {
      var k := LastTouch(cs, table, list, x, i);
      LastWordWins(cs, table, list, x, k);
      forall j: nat | LastWord(cs, table, list, x, j)
        ensures j == k
      {
      }
    } else {
      Untouched(cs, table, list, x);
    }
  }

  lemma {:induction false} LastTouch(cs: ControllerSet, table: map<string, string>, list: seq<string>, x: string,
      i: nat) returns (k: nat)
    requires i < |list| && x in Touched(cs, table, list[i])
    ensures LastWord(cs, table, list, x, k)
    decreases |list| - i
  {
    if j :| i < j < |list| && x in Touched(cs, table, list[j]) {
      k := LastTouch(cs, table, list, x, j);
    } else {
      k := i;
    }
  }

  /** The two sets that the recursion shares. */
  class Selection {
    const cs: ControllerSet
    const table: map<string, string>
    var names: set<string>
    var handled: set<string>

    constructor (cs: ControllerSet, table: map<string, string>)
      ensures this.cs == cs && this.table == table && names == {} && handled == {}
    {
      this.cs, this.table := cs, table;
      names, handled := {}, {};
    }

    method Handle(add: bool, name: string)
      modifies this
      ensures handled == old(handled)
      ensures names == if add then old(names) + Leaves(cs, table, name, old(handled))
                       else old(names) - Leaves(cs, table, name, old(handled))
      decreases cs.groups.Keys + {ALL} - handled
    {
      var c := Canonical(table, name);
      if c in handled {
        return;
      }
      handled := handled + {c};
      if c in cs.groups || c == ALL {
        var list := Members(cs, c);
        for k := 0 to |list|
          invariant handled == old(handled) + {c}
          invariant names == if add then old(names) + LeavesOf(cs, table, c, k, old(handled))
                             else old(names) - LeavesOf(cs, table, c, k, old(handled))
        {
          Handle(add, list[k]);
        }
      } else {
        names := if add then names + {c} else names - {c};
      }
      handled := handled - {c};
    }
  }

  method GetActivation(cs: ControllerSet, offered: seq<string>, activated: seq<string>) returns (names: set<string>)
    ensures names == Activated(cs, Table(offered), activated)
  {
    hide Leaves, LeavesOf, Canonical, Table;
    var simplified := Simplify(offered);
    var sel := new Selection(cs, simplified);
    for i := 0 to |activated|
      invariant sel.cs == cs && sel.table == simplified && sel.handled == {}
      invariant sel.names == Activated(cs, simplified, activated[..i])
    {
      var name := activated[i];
      assert activated[..i + 1][..i] == activated[..i];
      if name != "" && name[0] == '-' {
        if i == 0 {
          sel.names := sel.names + set x | x in cs.names;
        }
        sel.Handle(false, name[1..]);
      } else if name != "" && name[0] == '+' {
        sel.Handle(true, name[1..]);
      } else {
        sel.Handle(true, name);
      }
    }
    assert activated[..|activated|] == activated;
    names := sel.names;
  }
}
