/** Activation constraints over the selected controllers (controller/constraints). */
module Constraints {
  import opened Wrappers
  import opened Graphs
  import A = Activation

  // ------------------------------------------------------------------------------------------
  // Group closures: the search with a shared visited set (constraints.go)

  type Groups = Graph<string>

  /** Names without members count as controllers. */
  ghost predicate IsMember(groups: Groups, n: string) {
    Succ(groups, n) == []
  }

  class NameSet {
    var elems: set<string>

    constructor ()
      ensures elems == {}
    {
      elems := {};
    }
  }

  /** The names in `done` that are not in `before` have been searched completely. */
  ghost predicate Searched(groups: Groups, before: set<string>, done: set<string>, result0: set<string>,
      result: set<string>) {
    && before <= done
    && (forall x, y :: x in done - before && y in Succ(groups, x) ==> y in done)
    && result == result0 + set x | x in done - before && IsMember(groups, x)
  }

  method Closure(name: string, groups: Groups, result: NameSet, handled: NameSet)
    requires result != handled
    modifies result, handled
    ensures name in handled.elems
    ensures Searched(groups, old(handled.elems), handled.elems, old(result.elems), result.elems)
    ensures forall x :: x in handled.elems - old(handled.elems) ==> Reach(groups, name, x)
    decreases groups.Keys - handled.elems
  {
    if name in handled.elems {
      return;
    }
    handled.elems := handled.elems + {name};
    var grp := Succ(groups, name);
    ReachRefl(groups, name);
    if |grp| == 0 {
      result.elems := result.elems + {name};
    } else {
      ghost var h0 := old(handled.elems);
      for k := 0 to |grp|
        invariant h0 + {name} <= handled.elems
        invariant forall x, y :: x in handled.elems - h0 - {name} && y in Succ(groups, x) ==> y in handled.elems
        invariant result.elems == old(result.elems) + set x | x in handled.elems - h0 && IsMember(groups, x)
        invariant forall j :: 0 <= j < k ==> grp[j] in handled.elems
        invariant forall x :: x in handled.elems - h0 ==> Reach(groups, name, x)
      {
        ghost var before, found := handled.elems, result.elems;
        Closure(grp[k], groups, result, handled);
        forall x | x in handled.elems - h0
          ensures Reach(groups, name, x)
        {
          if x !in before {
            ReachStep(groups, name, grp[k], x);
          }
        }
      }
    }
  }

  /** The controllers of a group: the memberless names reachable from it. */
  ghost predicate InClosure(groups: Groups, name: string, x: string) {
    IsMember(groups, x) && Reach(groups, name, x)
  }

  method ClosureOf(name: string, groups: Groups) returns (members: set<string>)
    ensures forall x :: x in members <==> InClosure(groups, name, x)
  {
    var result := new NameSet();
    var handled := new NameSet();
    Closure(name, groups, result, handled);
    members := result.elems;
    forall x | InClosure(groups, name, x)
      ensures x in members
    {
      ReachStaysIn(groups, handled.elems, name, x);
    }
  }

  // ------------------------------------------------------------------------------------------

  datatype Context = Context(groups: map<string, set<string>>, selected: set<string>) {
    ghost predicate Closes(cs: A.ControllerSet) {
      && groups.Keys == cs.groups.Keys
      && forall g, x :: g in groups ==> (x in groups[g] <==> InClosure(cs.groups, g, x))
    }
  }

  /** NewContext followed by WithSelectedSet; the loop over the group map takes any order. */
  method NewContext(cs: A.ControllerSet, selected: set<string>) returns (ctx: Context)
    ensures ctx.Closes(cs) && ctx.selected == selected
  {
    var groups: map<string, set<string>> := map[];
    var todo := cs.groups.Keys;
    while todo != {}
      invariant todo <= cs.groups.Keys && groups.Keys == cs.groups.Keys - todo
      invariant forall g, x :: g in groups ==> (x in groups[g] <==> InClosure(cs.groups, g, x))
      decreases |todo|
    {
      var name :| name in todo;
      var members := ClosureOf(name, cs.groups);
      groups := groups[name := members];
      todo := todo - {name};
    }
    ctx := Context(groups, selected);
  }

  // ------------------------------------------------------------------------------------------
  // Activations (types/activation.go)

  datatype Activation = Yes | No | NoOpinion {
    function Index(): nat {
      match this case No => 0 case NoOpinion => 1 case Yes => 2
    }

    function Or(b: Activation): Activation {
      [[No, No, Yes], [No, NoOpinion, Yes], [Yes, Yes, Yes]][Index()][b.Index()]
    }

    function And(b: Activation): Activation {
      [[No, No, No], [No, NoOpinion, Yes], [No, Yes, Yes]][Index()][b.Index()]
    }

    function Not(): Activation {
      match this case No => Yes case Yes => No case NoOpinion => NoOpinion
    }
  }

  datatype Problem =
    | Undeclared(group: string)
    | Incomplete(group: string)
    | Overlap(first: string, second: string)
    | Joined(left: Problem, op: string, right: Problem)

  type Verdict = (Activation, Option<Problem>)

  function JoinProblems(a: Option<Problem>, b: Option<Problem>, op: string): Option<Problem> {
    if a == None then b else if b == None then a else Some(Joined(a.value, op, b.value))
  }

  datatype Constraint =
    | Always
    | Activated(names: seq<string>)
    | Complete(groups: seq<string>)
    | Disjoint(groups: seq<string>)
    | And(all: seq<Constraint>)
    | Or(any: seq<Constraint>)
    | Not(cond: Constraint)

  // --- Complete (complete.go)

  lemma SubsetByCount(g: set<string>, s: set<string>)
    ensures |g| == |g * s| <==> g <= s
  {
    if |g| == |g * s| {
      assert |g - g * s| == |g| - |g * s|;
      assert g - g * s == {};
    }
    if g <= s {
      assert g * s == g;
    }
  }

  predicate CompleteGroup(ctx: Context, g: string) {
    g in ctx.groups && ctx.groups[g] <= ctx.selected
  }

  function CompleteProblem(ctx: Context, groups: seq<string>): Option<Problem> {
    if groups == [] then None
    else if groups[0] !in ctx.groups then Some(Undeclared(groups[0]))
    else if !(ctx.groups[groups[0]] <= ctx.selected) then Some(Incomplete(groups[0]))
    else CompleteProblem(ctx, groups[1..])
  }

  method MatchComplete(ctx: Context, groups: seq<string>) returns (err: Option<Problem>)
    ensures err == CompleteProblem(ctx, groups)
    ensures err == None <==> forall k :: 0 <= k < |groups| ==> CompleteGroup(ctx, groups[k])
  {
    for k := 0 to |groups|
      invariant CompleteProblem(ctx, groups) == CompleteProblem(ctx, groups[k..])
      invariant forall j :: 0 <= j < k ==> CompleteGroup(ctx, groups[j])
    {
      if groups[k] !in ctx.groups {
        return Some(Undeclared(groups[k]));
      }
      var g := ctx.groups[groups[k]];
      SubsetByCount(g, ctx.selected);
      if |g| != |g * ctx.selected| {
        return Some(Incomplete(groups[k]));
      }
    }
    err := None;
  }

  /** What Complete reports is the first listed group that is undeclared or not completely selected. */
  lemma {:induction false} CompleteReportsFirst(ctx: Context, groups: seq<string>)
    ensures CompleteProblem(ctx, groups) == None <==> forall k :: 0 <= k < |groups| ==> CompleteGroup(ctx, groups[k])
    ensures CompleteProblem(ctx, groups).Some? ==>
              exists k :: 0 <= k < |groups| && !CompleteGroup(ctx, groups[k])
                && (forall j :: 0 <= j < k ==> CompleteGroup(ctx, groups[j]))
                && CompleteProblem(ctx, groups).value
                   == if groups[k] in ctx.groups then Incomplete(groups[k]) else Undeclared(groups[k])
  {
    if groups != [] {
      var rest := groups[1..];
      CompleteReportsFirst(ctx, rest);
      if CompleteGroup(ctx, groups[0]) {
        assert forall j :: 1 <= j < |groups| ==> groups[j] == rest[j - 1];
        if CompleteProblem(ctx, rest).Some? {
          var k :| 0 <= k < |rest| && !CompleteGroup(ctx, rest[k])
            && (forall j :: 0 <= j < k ==> CompleteGroup(ctx, rest[j]))
            && CompleteProblem(ctx, rest).value
               == if rest[k] in ctx.groups then Incomplete(rest[k]) else Undeclared(rest[k]);
          assert rest[k] == groups[k + 1];
        }
      }
    }
  }

  // --- Disjoint (disjoint.go)

  predicate Meets(ctx: Context, g: string) {
    g in ctx.groups && ctx.groups[g] * ctx.selected != {}
  }

  /** The group remembered after looking at the given positions from the start. */
  function Remembered(ctx: Context, groups: seq<string>): string {
    if groups == [] then ""
    else if Meets(ctx, groups[|groups| - 1]) then groups[|groups| - 1]
    else Remembered(ctx, groups[..|groups| - 1])
  }

  /** What the first sweep over the positions ends with; None goes on. */
  function Sweep(ctx: Context, groups: seq<string>): Option<Verdict> {
    if groups == [] then None
    else
      var k := |groups| - 1;
      var before := Sweep(ctx, groups[..k]);
      if before.Some? then before
      else if groups[k] !in ctx.groups then Some((NoOpinion, Some(Undeclared(groups[k]))))
      else if Meets(ctx, groups[k]) && Remembered(ctx, groups[..k]) != ""
        then Some((Yes, Some(Overlap(Remembered(ctx, groups[..k]), groups[k]))))
      else None
  }

  function DisjointVerdict(ctx: Context, groups: seq<string>): Verdict {
    if Sweep(ctx, groups).Some? then Sweep(ctx, groups).value else (NoOpinion, None)
  }

  /** A clash: two listed positions with selected members, the earlier one under a nonempty name. */
  ghost predicate Clash(ctx: Context, groups: seq<string>, p: int, q: int) {
    0 <= p < q < |groups| && Meets(ctx, groups[p]) && Meets(ctx, groups[q]) && groups[p] != ""
  }

  lemma {:induction false} RememberedIs(ctx: Context, groups: seq<string>)
    ensures Remembered(ctx, groups) != "" ==>
              exists p :: 0 <= p < |groups| && groups[p] == Remembered(ctx, groups) && Meets(ctx, groups[p])
                          && forall q :: p < q < |groups| ==> !Meets(ctx, groups[q])
    ensures Remembered(ctx, groups) == "" ==>
              (forall p :: 0 <= p < |groups| ==> !Meets(ctx, groups[p]))
              || exists p :: 0 <= p < |groups| && groups[p] == "" && Meets(ctx, groups[p])
                             && forall q :: p < q < |groups| ==> !Meets(ctx, groups[q])
  {
    if groups != [] && !Meets(ctx, groups[|groups| - 1]) {
      var shorter := groups[..|groups| - 1];
      RememberedIs(ctx, shorter);
      assert forall p :: 0 <= p < |shorter| ==> shorter[p] == groups[p];
    }
  }

  /** Exactly when the first sweep finds a problem. */
  lemma {:induction false} SweepFinds(ctx: Context, groups: seq<string>)
    ensures Sweep(ctx, groups).Some? <==>
              (exists k :: 0 <= k < |groups| && groups[k] !in ctx.groups) || (exists p, q :: Clash(ctx, groups, p, q))
    ensures Sweep(ctx, groups).Some? ==> Sweep(ctx, groups).value.1.Some?
  {
    if groups != [] {
      var k := |groups| - 1;
      var shorter := groups[..k];
      SweepFinds(ctx, shorter);
      RememberedIs(ctx, shorter);
      assert forall p :: 0 <= p < k ==> shorter[p] == groups[p];
      if Sweep(ctx, shorter).Some? {
        if p, q :| Clash(ctx, shorter, p, q) {
          assert Clash(ctx, groups, p, q);
        }
      } else {
        assert forall p, q :: !Clash(ctx, shorter, p, q);
        if Meets(ctx, groups[k]) && Remembered(ctx, shorter) != "" {
          var p :| 0 <= p < k && shorter[p] == Remembered(ctx, shorter) && Meets(ctx, shorter[p]);
          assert Clash(ctx, groups, p, k);
        }
        if p, q :| Clash(ctx, groups, p, q) {
          assert q == k by { assert q < k ==> Clash(ctx, shorter, p, q); }
          assert shorter[p] == groups[p] && Meets(ctx, shorter[p]);
          if Remembered(ctx, shorter) == "" {
            var p0 :| 0 <= p0 < k && shorter[p0] == "" && Meets(ctx, shorter[p0])
                      && forall r :: p0 < r < k ==> !Meets(ctx, shorter[r]);
            assert Clash(ctx, shorter, p, p0);
            assert false;
          }
        }
      }
    }
  }

  /** What the sweep reports at position k: an undeclared group without opinion, or an overlap with the nearest earlier
      position with selected members. */
  ghost predicate Reports(ctx: Context, groups: seq<string>, k: int, v: Verdict) {
    && 0 <= k < |groups|
    && if groups[k] !in ctx.groups then v == (NoOpinion, Some(Undeclared(groups[k])))
       else exists p :: Clash(ctx, groups, p, k) && (forall q :: p < q < k ==> !Meets(ctx, groups[q]))
                        && v == (Yes, Some(Overlap(groups[p], groups[k])))
  }

  lemma ReportsLater(ctx: Context, groups: seq<string>, k: int, v: Verdict)
    requires groups != [] && Reports(ctx, groups[..|groups| - 1], k, v)
    ensures Reports(ctx, groups, k, v)
  {
    var shorter := groups[..|groups| - 1];
    assert groups[k] == shorter[k];
    if groups[k] in ctx.groups {
      var p :| Clash(ctx, shorter, p, k) && (forall q :: p < q < k ==> !Meets(ctx, shorter[q]))
               && v == (Yes, Some(Overlap(shorter[p], shorter[k])));
      assert Clash(ctx, groups, p, k);
      assert forall q :: 0 <= q < |shorter| ==> groups[q] == shorter[q];
    }
  }

  /** The sweep reports the first position at which there is something to report. */
  lemma {:induction false} SweepReports(ctx: Context, groups: seq<string>) returns (k: int)
    ensures Sweep(ctx, groups).Some? ==>
              Reports(ctx, groups, k, Sweep(ctx, groups).value) && Sweep(ctx, groups[..k]) == None
  {
    k := |groups| - 1;
    if groups != [] {
      var shorter := groups[..k];
      if Sweep(ctx, shorter).Some? {
        k := SweepReports(ctx, shorter);
        ReportsLater(ctx, groups, k, Sweep(ctx, shorter).value);
        assert shorter[..k] == groups[..k];
      } else if Sweep(ctx, groups).Some? && groups[k] in ctx.groups {
        RememberedIs(ctx, shorter);
        var p :| 0 <= p < k && shorter[p] == Remembered(ctx, shorter) && Meets(ctx, shorter[p])
                 && forall q :: p < q < k ==> !Meets(ctx, shorter[q]);
        assert Clash(ctx, groups, p, k);
        assert forall q :: 0 <= q < k ==> groups[q] == shorter[q];
      }
    }
  }

  lemma {:induction false} SweepStops(ctx: Context, groups: seq<string>, k: nat)
    requires k <= |groups| && Sweep(ctx, groups[..k]).Some?
    ensures Sweep(ctx, groups) == Sweep(ctx, groups[..k])
    decreases |groups|
  {
    if k < |groups| {
      var shorter := groups[..|groups| - 1];
      assert shorter[..k] == groups[..k];
      SweepStops(ctx, shorter, k);
    } else {
      assert groups[..k] == groups;
    }
  }

  lemma SweepNext(ctx: Context, groups: seq<string>, k: nat)
    requires k < |groups|
    ensures Remembered(ctx, groups[..k + 1])
            == if Meets(ctx, groups[k]) then groups[k] else Remembered(ctx, groups[..k])
    ensures groups[k] !in ctx.groups ==> Sweep(ctx, groups[..k + 1]).Some?
    ensures groups[k] !in ctx.groups && Sweep(ctx, groups[..k]) == None
            ==> Sweep(ctx, groups[..k + 1]) == Some((NoOpinion, Some(Undeclared(groups[k]))))
    ensures Sweep(ctx, groups[..k]) == None && Meets(ctx, groups[k]) && Remembered(ctx, groups[..k]) != ""
            ==> Sweep(ctx, groups[..k + 1]) == Some((Yes, Some(Overlap(Remembered(ctx, groups[..k]), groups[k]))))
    ensures Sweep(ctx, groups[..k]) == None && groups[k] in ctx.groups
            && (Meets(ctx, groups[k]) ==> Remembered(ctx, groups[..k]) == "")
            ==> Sweep(ctx, groups[..k + 1]) == None
    ensures Meets(ctx, groups[k]) <==> groups[k] in ctx.groups && |ctx.groups[groups[k]] * ctx.selected| > 0
  {
    assert groups[..k + 1][..k] == groups[..k];
  }

  method MatchDisjoint(ctx: Context, groups: seq<string>) returns (a: Activation, err: Option<Problem>)
    ensures (a, err) == DisjointVerdict(ctx, groups)
  {
    assert Sweep(ctx, []) == None && Remembered(ctx, []) == "";
    hide Sweep, Remembered, Meets;
    var i := 0;
    while i < |groups|
      invariant 0 <= i <= |groups|
      invariant 0 < i ==> Sweep(ctx, groups) == None && forall k :: i <= k < |groups| ==> !Meets(ctx, groups[k])
    {
      var found := "";
      var start := i;
      var rest := groups[start..]; // the range is fixed before i changes
      for j := 0 to |rest|
        invariant start == 0 ==> Sweep(ctx, groups[..j]) == None && found == Remembered(ctx, groups[..j])
        invariant start == 0 ==> 0 <= i <= j && i < |groups| && forall k :: i < k < j ==> !Meets(ctx, groups[k])
        invariant 0 < start ==> i == start && found == ""
      {
        var group := rest[j];
        SweepNext(ctx, groups, start + j);
        if group !in ctx.groups {
          SweepStops(ctx, groups, start + j + 1);
          return NoOpinion, Some(Undeclared(group));
        }
        var members := ctx.groups[group] * ctx.selected;
        if |members| > 0 {
          if found != "" {
            SweepStops(ctx, groups, j + 1);
            return Yes, Some(Overlap(found, group));
          }
          found := group;
          i := j;
        }
      }
      assert start == 0 ==> groups[..|rest|] == groups;
      i := i + 1;
    }
    assert Sweep(ctx, groups) == None;
    return NoOpinion, None;
  }

  ghost predicate TwoMeet(ctx: Context, groups: seq<string>) {
    exists p, q :: 0 <= p < q < |groups| && Meets(ctx, groups[p]) && Meets(ctx, groups[q])
  }

  /** Disjoint errs iff a listed group is undeclared or two listed positions have selected members, except
      in one case: all are declared and every meeting position but the last carries the empty name. */
  lemma DisjointMeaning(ctx: Context, groups: seq<string>)
    ensures (DisjointVerdict(ctx, groups).1.Some? <==>
             (exists k :: 0 <= k < |groups| && groups[k] !in ctx.groups) || TwoMeet(ctx, groups))
            <==>
            !(&& (forall k :: 0 <= k < |groups| ==> groups[k] in ctx.groups)
              && TwoMeet(ctx, groups)
              && forall p, q :: 0 <= p < q < |groups| && Meets(ctx, groups[p]) && Meets(ctx, groups[q])
                  ==> groups[p] == "")
  {
    SweepFinds(ctx, groups);
    if exists p, q :: Clash(ctx, groups, p, q) {
      var p, q :| Clash(ctx, groups, p, q);
      assert TwoMeet(ctx, groups);
      assert groups[p] != "";
    } else {
      forall p, q | 0 <= p < q < |groups| && Meets(ctx, groups[p]) && Meets(ctx, groups[q])
        ensures groups[p] == ""
      {
        assert !Clash(ctx, groups, p, q);
      }
    }
  }

  lemma DisjointOfTwo(ctx: Context, a: string, b: string)
    requires Meets(ctx, a) && Meets(ctx, b)
    ensures DisjointVerdict(ctx, [a, b]) == if a == "" then (NoOpinion, None) else (Yes, Some(Overlap(a, b)))
  {
    assert [a, b][..1] == [a] && [a][..0] == [];
    assert Sweep(ctx, []) == None;
    assert Sweep(ctx, [a]) == None && Remembered(ctx, [a]) == a;
  }

  /** An overlap with the group under the empty name, listed first, is not found; the other way round it is. */
  lemma NamelessGroupOverlaps(g: string, c: string)
    requires g != ""
    ensures var ctx := Context(map["" := {c}, g := {c}], {c});
            && TwoMeet(ctx, ["", g]) && DisjointVerdict(ctx, ["", g]) == (NoOpinion, None)
            && DisjointVerdict(ctx, [g, ""]) == (Yes, Some(Overlap(g, "")))
  {
    var ctx := Context(map["" := {c}, g := {c}], {c});
    assert c in ctx.groups[""] * ctx.selected && c in ctx.groups[g] * ctx.selected;
    assert Meets(ctx, ["", g][0]) && Meets(ctx, ["", g][1]);
    hide DisjointVerdict;
    DisjointOfTwo(ctx, "", g);
    DisjointOfTwo(ctx, g, "");
  }

  // --- And, Or, Not (operators.go)

  function AndFrom(r: Activation, e: Option<Problem>, vs: seq<Verdict>): Verdict
    decreases |vs|
  {
    if vs == [] then (r, e)
    else if r.And(vs[0].0) == No then (No, vs[0].1)
    else AndFrom(r.And(vs[0].0), JoinProblems(e, vs[0].1, "AND"), vs[1..])
  }

  function OrFrom(r: Activation, e: Option<Problem>, found: bool, vs: seq<Verdict>): Verdict
    decreases |vs|
  {
    if vs == [] then (r, if found then None else e)
    else
      var (ok, err) := vs[0];
      if ok == No then OrFrom(r.Or(ok), e, found, vs[1..])
      else if err == None then OrFrom(r.Or(ok), e, true, vs[1..])
      else OrFrom(r.Or(ok), JoinProblems(e, err, "OR"), found, vs[1..])
  }

  function Eval(c: Constraint, ctx: Context): Verdict
    decreases c, 0
  {
    match c
    case Always => (Yes, None)
    case Activated(names) =>
      (if names == [] then NoOpinion
       else if forall k :: 0 <= k < |names| ==> names[k] in ctx.selected then Yes
       else No, None)
    case Complete(groups) => (NoOpinion, CompleteProblem(ctx, groups))
    case Disjoint(groups) => DisjointVerdict(ctx, groups)
    case And(all) => AndFrom(NoOpinion, None, EvalAll(c, all, ctx))
    case Or(any) => OrFrom(NoOpinion, None, false, EvalAll(c, any, ctx))
    case Not(cond) => (Eval(cond, ctx).0.Not(), Eval(cond, ctx).1)
  }

  function EvalAll(parent: Constraint, cs: seq<Constraint>, ctx: Context): (vs: seq<Verdict>)
    requires forall k :: 0 <= k < |cs| ==> cs[k] < parent
    ensures |vs| == |cs| && forall k :: 0 <= k < |cs| ==> vs[k] == Eval(cs[k], ctx)
    decreases parent, 0, |cs|
  {
    if cs == [] then [] else [Eval(cs[0], ctx)] + EvalAll(parent, cs[1..], ctx)
  }

  method MatchActivated(ctx: Context, names: seq<string>) returns (a: Activation)
    ensures (a, None) == Eval(Activated(names), ctx)
  {
    if |names| == 0 {
      return NoOpinion;
    }
    for k := 0 to |names|
      invariant forall j :: 0 <= j < k ==> names[j] in ctx.selected
    {
      if names[k] !in ctx.selected {
        return No;
      }
    }
    return Yes;
  }

  method Match(c: Constraint, ctx: Context) returns (a: Activation, err: Option<Problem>)
    ensures (a, err) == Eval(c, ctx)
    decreases c
  {
    match c {
      case Always => a, err := Yes, None;
      case Activated(names) =>
        a := MatchActivated(ctx, names);
        err := None;
      case Complete(groups) =>
        err := MatchComplete(ctx, groups);
        a := NoOpinion;
      case Disjoint(groups) => a, err := MatchDisjoint(ctx, groups);
      case Not(cond) =>
        a, err := Match(cond, ctx);
        a := a.Not();
      case And(all) =>
        ghost var vs := EvalAll(c, all, ctx);
        var r, rerr := NoOpinion, None;
        for k := 0 to |all|
          invariant r != No && AndFrom(NoOpinion, None, vs) == AndFrom(r, rerr, vs[k..])
        {
          var ok, e := Match(all[k], ctx);
          assert vs[k..][0] == (ok, e) && vs[k..][1..] == vs[k + 1..];
          r := r.And(ok);
          if r == No {
            return r, e;
          }
          if e != None {
            rerr := JoinProblems(rerr, e, "AND");
          }
        }
        a, err := r, rerr;
      case Or(any) =>
        ghost var vs := EvalAll(c, any, ctx);
        var r, rerr, found := NoOpinion, None, false;
        for k := 0 to |any|
          invariant OrFrom(NoOpinion, None, false, vs) == OrFrom(r, rerr, found, vs[k..])
        {
          var ok, e := Match(any[k], ctx);
          assert vs[k..][0] == (ok, e) && vs[k..][1..] == vs[k + 1..];
          r := r.Or(ok);
          if ok != No {
            if e == None {
              found := true;
            } else {
              rerr := JoinProblems(rerr, e, "OR");
            }
          }
        }
        a, err := r, if found then None else rerr;
    }
  }

  // ------------------------------------------------------------------------------------------
  // What the leaves and the negation mean

  /** A list of controllers is activated if all of them are selected, and has no opinion if it is empty. */
  lemma ActivatedMeaning(names: seq<string>, ctx: Context)
    ensures Eval(Activated(names), ctx).0 == Yes <==> names != [] && forall n :: n in names ==> n in ctx.selected
    ensures Eval(Activated(names), ctx).0 == No <==> exists n :: n in names && n !in ctx.selected
    ensures Eval(Activated(names), ctx).0 == NoOpinion <==> names == []
    ensures Eval(Activated(names), ctx).1 == None
  {
    if names != [] {
      assert names[0] in names;
    }
  }

  function Singles(names: seq<string>): (cs: seq<Constraint>)
    ensures |cs| == |names| && forall k :: 0 <= k < |cs| ==> cs[k] == Activated([names[k]])
  {
    seq(|names|, k requires 0 <= k < |names| => Activated([names[k]]))
  }

  /** It has the value of the conjunction over its controllers. */
  lemma ActivatedIsConjunction(names: seq<string>, ctx: Context)
    ensures Eval(Activated(names), ctx).0 == Eval(And(Singles(names)), ctx).0
  {
    var cs := Singles(names);
    hide Eval, Singles;
    AndMeaning(cs, ctx);
    ActivatedMeaning(names, ctx);
    forall k | 0 <= k < |names|
      ensures cs[k] in cs && Eval(cs[k], ctx).0 == if names[k] in ctx.selected then Yes else No
    {
      ActivatedMeaning([names[k]], ctx);
      assert names[k] in [names[k]];
    }
    if n :| n in names && n !in ctx.selected {
      var k :| 0 <= k < |names| && names[k] == n;
      assert Eval(cs[k], ctx).0 == No;
    }
    if names != [] && forall n :: n in names ==> n in ctx.selected {
      assert Eval(cs[0], ctx).0 == Yes;
    }
  }

  /** Always says Yes; Complete and Disjoint only ever warn, Disjoint with a Yes if groups overlap; Not turns Yes and No
      around and keeps the error. */
  lemma LeafMeaning(groups: seq<string>, cond: Constraint, ctx: Context)
    ensures Eval(Always, ctx) == (Yes, None)
    ensures Eval(Complete(groups), ctx).0 == NoOpinion
    ensures Eval(Complete(groups), ctx).1 == None <==>
            forall k :: 0 <= k < |groups| ==> CompleteGroup(ctx, groups[k])
    ensures Eval(Disjoint(groups), ctx).0 == Yes <==>
            Eval(Disjoint(groups), ctx).1.Some? && Eval(Disjoint(groups), ctx).1.value.Overlap?
    ensures Eval(Disjoint(groups), ctx).0 != No
    ensures Eval(Not(cond), ctx).0 == Yes <==> Eval(cond, ctx).0 == No
    ensures Eval(Not(cond), ctx).0 == No <==> Eval(cond, ctx).0 == Yes
    ensures Eval(Not(cond), ctx).1 == Eval(cond, ctx).1
  {
    CompleteReportsFirst(ctx, groups);
    var k := SweepReports(ctx, groups);
    hide Sweep, CompleteProblem, CompleteGroup, Clash, Meets;
  }

  // ------------------------------------------------------------------------------------------
  // What the operators mean

  /** The fold of And over all values, without the early exit. */
  function FullAnd(vs: seq<Verdict>): Activation {
    if vs == [] then NoOpinion else FullAnd(vs[..|vs| - 1]).And(vs[|vs| - 1].0)
  }

  ghost predicate Has(vs: seq<Verdict>, a: Activation) {
    exists k :: 0 <= k < |vs| && vs[k].0 == a
  }

  /** No beats Yes beats NoOpinion. */
  ghost predicate IsConjunction(a: Activation, vs: seq<Verdict>) {
    && (a == No <==> Has(vs, No))
    && (a == Yes <==> !Has(vs, No) && Has(vs, Yes))
  }

  ghost predicate FirstNo(vs: seq<Verdict>, k: int) {
    0 <= k < |vs| && vs[k].0 == No && forall j :: 0 <= j < k ==> vs[j].0 != No
  }

  lemma {:induction false} AndFromMeaning(r: Activation, e: Option<Problem>, vs: seq<Verdict>)
    requires r != No
    ensures AndFrom(r, e, vs).0 == No <==> Has(vs, No)
    ensures AndFrom(r, e, vs).0 == Yes <==> !Has(vs, No) && (r == Yes || Has(vs, Yes))
    // the error: that of the first No, or of any part
    ensures !Has(vs, No) ==>
            (AndFrom(r, e, vs).1 != None <==> e != None || exists k :: 0 <= k < |vs| && vs[k].1 != None)
    ensures forall k :: FirstNo(vs, k) ==> AndFrom(r, e, vs).1 == vs[k].1
    decreases |vs|
  {
    if vs != [] {
      var rest := vs[1..];
      assert forall k :: 0 <= k < |rest| ==> rest[k] == vs[k + 1];
      assert forall k :: 1 <= k < |vs| ==> vs[k] == rest[k - 1];
      if vs[0].0 != No {
        AndFromMeaning(r.And(vs[0].0), JoinProblems(e, vs[0].1, "AND"), rest);
        if Has(vs, No) {
          var k :| 0 <= k < |vs| && vs[k].0 == No;
          assert rest[k - 1].0 == No;
        }
        if Has(vs, Yes) && vs[0].0 != Yes {
          var k :| 0 <= k < |vs| && vs[k].0 == Yes;
          assert rest[k - 1].0 == Yes;
        }
        forall k | FirstNo(vs, k)
          ensures AndFrom(r, e, vs).1 == vs[k].1
        {
          assert FirstNo(rest, k - 1);
        }
      }
    }
  }

  lemma {:induction false} OrFromMeaning(r: Activation, e: Option<Problem>, found: bool, vs: seq<Verdict>)
    ensures OrFrom(r, e, found, vs).0 == Yes <==> r == Yes || Has(vs, Yes)
    ensures OrFrom(r, e, found, vs).0 == No <==> r != Yes && !Has(vs, Yes) && (r == No || Has(vs, No))
    ensures OrFrom(r, e, found, vs).1 != None <==>
              && !found && (forall k :: 0 <= k < |vs| && vs[k].0 != No ==> vs[k].1 != None)
              && (e != None || exists k :: 0 <= k < |vs| && vs[k].0 != No)
    decreases |vs|
  {
    if vs != [] {
      var rest, ok, err := vs[1..], vs[0].0, vs[0].1;
      assert forall k :: 0 <= k < |rest| ==> rest[k] == vs[k + 1];
      assert forall k :: 1 <= k < |vs| ==> vs[k] == rest[k - 1];
      OrFromMeaning(r.Or(ok), if ok == No || err == None then e else JoinProblems(e, err, "OR"),
        found || (ok != No && err == None), rest);
      OrHas(vs, Yes);
      OrHas(vs, No);
    }
  }

  lemma OrHas(vs: seq<Verdict>, a: Activation)
    requires vs != []
    ensures Has(vs, a) <==> vs[0].0 == a || Has(vs[1..], a)
  {}

  lemma {:induction false} FullAndMeaning(vs: seq<Verdict>)
    ensures IsConjunction(FullAnd(vs), vs)
  {
    if vs != [] {
      var k := |vs| - 1;
      var shorter := vs[..k];
      FullAndMeaning(shorter);
      assert forall j :: 0 <= j < k ==> shorter[j] == vs[j];
      forall a | Has(shorter, a)
        ensures Has(vs, a)
      {
        var j :| 0 <= j < k && shorter[j].0 == a;
        assert vs[j].0 == a;
      }
      assert Has(vs, vs[k].0);
    }
  }

  /** Leaving the loop at the first No does not change the value of the conjunction. */
  lemma AndExitsSafely(vs: seq<Verdict>)
    ensures AndFrom(NoOpinion, None, vs).0 == FullAnd(vs)
  {
    AndFromMeaning(NoOpinion, None, vs);
    FullAndMeaning(vs);
  }

  ghost predicate SameParts(cs: seq<Constraint>, ds: seq<Constraint>) {
    forall c :: c in cs <==> c in ds
  }

  /** Some part has the value a. */
  ghost predicate Takes(cs: seq<Constraint>, ctx: Context, a: Activation) {
    exists c :: c in cs && Eval(c, ctx).0 == a
  }

  lemma HasPart(parent: Constraint, cs: seq<Constraint>, ctx: Context, a: Activation)
    requires forall k :: 0 <= k < |cs| ==> cs[k] < parent
    ensures Has(EvalAll(parent, cs, ctx), a) <==> Takes(cs, ctx, a)
  {}

  lemma OperatorsFold(cs: seq<Constraint>, ctx: Context)
    ensures Eval(And(cs), ctx) == AndFrom(NoOpinion, None, EvalAll(And(cs), cs, ctx))
    ensures Eval(Or(cs), ctx) == OrFrom(NoOpinion, None, false, EvalAll(Or(cs), cs, ctx))
  {}

  lemma AndMeaning(cs: seq<Constraint>, ctx: Context)
    ensures Eval(And(cs), ctx).0 == No <==> Takes(cs, ctx, No)
    ensures Eval(And(cs), ctx).0 == Yes <==> !Takes(cs, ctx, No) && Takes(cs, ctx, Yes)
  {
    hide *;
    OperatorsFold(cs, ctx);
    AndFromMeaning(NoOpinion, None, EvalAll(And(cs), cs, ctx));
    HasPart(And(cs), cs, ctx, No);
    HasPart(And(cs), cs, ctx, Yes);
  }

  lemma OrMeaning(cs: seq<Constraint>, ctx: Context)
    ensures Eval(Or(cs), ctx).0 == Yes <==> Takes(cs, ctx, Yes)
    ensures Eval(Or(cs), ctx).0 == No <==> !Takes(cs, ctx, Yes) && Takes(cs, ctx, No)
  {
    hide *;
    OperatorsFold(cs, ctx);
    OrFromMeaning(NoOpinion, None, false, EvalAll(Or(cs), cs, ctx));
    HasPart(Or(cs), cs, ctx, No);
    HasPart(Or(cs), cs, ctx, Yes);
  }

  /** Values do not depend on order or repetition of the parts. */
  lemma OperatorsPermute(cs: seq<Constraint>, ds: seq<Constraint>, ctx: Context)
    requires SameParts(cs, ds)
    ensures Eval(And(cs), ctx).0 == Eval(And(ds), ctx).0
    ensures Eval(Or(cs), ctx).0 == Eval(Or(ds), ctx).0
  {
    hide Eval;
    AndMeaning(cs, ctx);
    AndMeaning(ds, ctx);
    OrMeaning(cs, ctx);
    OrMeaning(ds, ctx);
  }

  /** Some part has an opinion other than No; all such parts err. */
  ghost predicate Speaks(cs: seq<Constraint>, ctx: Context) {
    exists c :: c in cs && Eval(c, ctx).0 != No
  }

  ghost predicate SpeakersErr(cs: seq<Constraint>, ctx: Context) {
    forall c :: c in cs && Eval(c, ctx).0 != No ==> Eval(c, ctx).1 != None
  }

  lemma SpeakersByIndex(cs: seq<Constraint>, vs: seq<Verdict>, ctx: Context)
    requires |vs| == |cs| && forall k :: 0 <= k < |cs| ==> vs[k] == Eval(cs[k], ctx)
    ensures Speaks(cs, ctx) <==> exists k :: 0 <= k < |vs| && vs[k].0 != No
    ensures SpeakersErr(cs, ctx) <==> forall k :: 0 <= k < |vs| && vs[k].0 != No ==> vs[k].1 != None
  {}

  /** Or errs iff some part is not No and all of these parts err, whatever the order of the parts. */
  lemma OrError(cs: seq<Constraint>, ctx: Context)
    ensures Eval(Or(cs), ctx).1 != None <==> Speaks(cs, ctx) && SpeakersErr(cs, ctx)
  {
    var vs := EvalAll(Or(cs), cs, ctx);
    OrFromMeaning(NoOpinion, None, false, vs);
    SpeakersByIndex(cs, vs, ctx);
  }

  ghost predicate SomeErrs(cs: seq<Constraint>, ctx: Context) {
    exists c :: c in cs && Eval(c, ctx).1 != None
  }

  lemma ErrorsByIndex(cs: seq<Constraint>, vs: seq<Verdict>, ctx: Context)
    requires |vs| == |cs| && forall k :: 0 <= k < |cs| ==> vs[k] == Eval(cs[k], ctx)
    ensures SomeErrs(cs, ctx) <==> exists k :: 0 <= k < |vs| && vs[k].1 != None
  {}

  /** k is the first part with value No. */
  ghost predicate FirstRefusal(cs: seq<Constraint>, ctx: Context, k: int) {
    0 <= k < |cs| && Eval(cs[k], ctx).0 == No && forall j :: 0 <= j < k ==> Eval(cs[j], ctx).0 != No
  }

  /** And errs iff its value is not No and some part errs, or the first part with value No errs. */
  lemma AndError(cs: seq<Constraint>, ctx: Context, k: int)
    ensures Eval(And(cs), ctx).0 != No ==> (Eval(And(cs), ctx).1 != None <==> SomeErrs(cs, ctx))
    ensures FirstRefusal(cs, ctx, k) ==> Eval(And(cs), ctx).1 == Eval(cs[k], ctx).1
  {
    var vs := EvalAll(And(cs), cs, ctx);
    AndFromMeaning(NoOpinion, None, vs);
    assert Eval(And(cs), ctx) == AndFrom(NoOpinion, None, vs);
    ErrorsByIndex(cs, vs, ctx);
    hide Eval;
    hide AndFrom;
    hide SomeErrs;
    assert FirstRefusal(cs, ctx, k) ==> FirstNo(vs, k);
  }

  /** The single problems behind a joined one. */
  function Singled(p: Problem): seq<Problem> {
    match p
    case Joined(left, _, right) => Singled(left) + Singled(right)
    case _ => [p]
  }

  function Listed(e: Option<Problem>): seq<Problem> {
    if e == None then [] else Singled(e.value)
  }

  /** The problems of all verdicts, or of those that are not No. */
  function ListedAll(vs: seq<Verdict>, spoken: bool): seq<Problem> {
    if vs == [] then []
    else (if spoken && vs[0].0 == No then [] else Listed(vs[0].1)) + ListedAll(vs[1..], spoken)
  }

  lemma JoinedList(a: Option<Problem>, b: Option<Problem>, op: string)
    ensures Listed(JoinProblems(a, b, op)) == Listed(a) + Listed(b)
  {}

  lemma {:induction false} AndFromLists(r: Activation, e: Option<Problem>, vs: seq<Verdict>)
    requires r != No && !Has(vs, No)
    ensures Listed(AndFrom(r, e, vs).1) == Listed(e) + ListedAll(vs, false)
    decreases |vs|
  {
    if vs != [] {
      OrHas(vs, No);
      assert r.And(vs[0].0) != No;
      hide Listed, JoinProblems, Has, Activation.And;
      var joined := JoinProblems(e, vs[0].1, "AND");
      AndFromLists(r.And(vs[0].0), joined, vs[1..]);
      JoinedList(e, vs[0].1, "AND");
      assert AndFrom(r, e, vs) == AndFrom(r.And(vs[0].0), joined, vs[1..]);
      assert ListedAll(vs, false) == Listed(vs[0].1) + ListedAll(vs[1..], false);
      hide AndFrom, ListedAll;
    }
  }

  lemma {:induction false} OrFromLists(r: Activation, e: Option<Problem>, found: bool, vs: seq<Verdict>)
    requires OrFrom(r, e, found, vs).1 != None
    ensures Listed(OrFrom(r, e, found, vs).1) == Listed(e) + ListedAll(vs, true)
    decreases |vs|
  {
    if vs != [] {
      var (ok, err) := vs[0];
      if ok == No {
        OrFromLists(r.Or(ok), e, found, vs[1..]);
      } else if err == None {
        OrFromMeaning(r.Or(ok), e, true, vs[1..]);
        assert false;
      } else {
        hide Listed, JoinProblems;
        OrFromLists(r.Or(ok), JoinProblems(e, err, "OR"), found, vs[1..]);
        JoinedList(e, err, "OR");
      }
    }
  }

  /** The error of an operator lists the problems of its parts in their order: of all parts for And if none is No, of
      the parts that are not No for Or. */
  lemma ErrorsAreListed(cs: seq<Constraint>, ctx: Context)
    ensures !Takes(cs, ctx, No) ==>
              Listed(Eval(And(cs), ctx).1) == ListedAll(EvalAll(And(cs), cs, ctx), false)
    ensures Eval(Or(cs), ctx).1 != None ==>
              Listed(Eval(Or(cs), ctx).1) == ListedAll(EvalAll(Or(cs), cs, ctx), true)
  {
    hide *;
    OperatorsFold(cs, ctx);
    HasPart(And(cs), cs, ctx, No);
    if !Takes(cs, ctx, No) {
      AndFromLists(NoOpinion, None, EvalAll(And(cs), cs, ctx));
    }
    if Eval(Or(cs), ctx).1 != None {
      OrFromLists(NoOpinion, None, false, EvalAll(Or(cs), cs, ctx));
    }
    NothingListed();
  }

  lemma NothingListed()
    ensures Listed(None) == []
  {}

  /** Some part with value No errs, or does not. */
  ghost predicate Refuses(cs: seq<Constraint>, ctx: Context, clean: bool) {
    exists c :: c in cs && Eval(c, ctx).0 == No && (Eval(c, ctx).1 == None) == clean
  }

  ghost predicate AndErrs(cs: seq<Constraint>, ctx: Context) {
    Eval(And(cs), ctx).1 != None
  }

  /** Whether And errs is the same for every order and repetition of the parts. */
  ghost predicate Settled(cs: seq<Constraint>, ctx: Context) {
    forall ds :: SameParts(cs, ds) ==> (AndErrs(ds, ctx) <==> AndErrs(cs, ctx))
  }

  lemma RefusalDecides(cs: seq<Constraint>, ctx: Context)
    requires Takes(cs, ctx, No)
    ensures AndErrs(cs, ctx) ==> Refuses(cs, ctx, false)
    ensures !AndErrs(cs, ctx) ==> Refuses(cs, ctx, true)
  {
    hide Eval;
    var k := FirstRefusalOf(cs, ctx);
    AndError(cs, ctx, k);
    assert cs[k] in cs;
  }

  lemma {:induction false} FirstRefusalOf(cs: seq<Constraint>, ctx: Context) returns (k: int)
    requires Takes(cs, ctx, No)
    ensures FirstRefusal(cs, ctx, k)
  {
    hide Eval;
    if Eval(cs[0], ctx).0 == No {
      k := 0;
    } else {
      var c :| c in cs && Eval(c, ctx).0 == No;
      assert c in cs[1..];
      k := FirstRefusalOf(cs[1..], ctx);
      k := k + 1;
    }
  }

  lemma RefusalFirst(cs: seq<Constraint>, ctx: Context, clean: bool) returns (ds: seq<Constraint>)
    requires Refuses(cs, ctx, clean)
    ensures SameParts(cs, ds) && AndErrs(ds, ctx) == !clean
  {
    hide Eval;
    var c :| c in cs && Eval(c, ctx).0 == No && (Eval(c, ctx).1 == None) == clean;
    ds := [c] + cs;
    assert FirstRefusal(ds, ctx, 0);
    AndError(ds, ctx, 0);
  }

  /** Whether And errs depends on the order of its parts exactly if some parts with value No err and some do not. */
  lemma AndErrorSettledExactly(cs: seq<Constraint>, ctx: Context)
    ensures Settled(cs, ctx) <==> !(Refuses(cs, ctx, true) && Refuses(cs, ctx, false))
  {
    hide Eval, AndErrs;
    if Refuses(cs, ctx, true) && Refuses(cs, ctx, false) {
      var ds := RefusalFirst(cs, ctx, true);
      var es := RefusalFirst(cs, ctx, false);
      assert AndErrs(ds, ctx) != AndErrs(es, ctx);
    } else {
      forall ds | SameParts(cs, ds)
        ensures AndErrs(ds, ctx) <==> AndErrs(cs, ctx)
      {
        SameErrors(cs, ds, ctx);
      }
    }
  }

  lemma SameErrors(cs: seq<Constraint>, ds: seq<Constraint>, ctx: Context)
    requires SameParts(cs, ds) && !(Refuses(cs, ctx, true) && Refuses(cs, ctx, false))
    ensures AndErrs(ds, ctx) <==> AndErrs(cs, ctx)
  {
    hide Eval;
    if Takes(cs, ctx, No) {
      RefusalDecides(cs, ctx);
      RefusalDecides(ds, ctx);
    } else {
      AndMeaning(cs, ctx);
      AndMeaning(ds, ctx);
      AndError(cs, ctx, 0);
      AndError(ds, ctx, 0);
    }
  }

  /** Such parts: a controller that is not selected, and the negation of a Disjoint that fails. */
  lemma AndErrorDependsOnOrder(z: string, a: string, b: string, c: string)
    requires z != c && a != "" && a != b
    ensures var ctx := Context(map[a := {c}, b := {c}], {c});
            var missing, negated := Activated([z]), Not(Disjoint([a, b]));
            && Eval(And([missing, negated]), ctx) == (No, None)
            && Eval(And([negated, missing]), ctx) == (No, Some(Overlap(a, b)))
  {
    var ctx := Context(map[a := {c}, b := {c}], {c});
    var missing, negated := Activated([z]), Not(Disjoint([a, b]));
    assert c in ctx.groups[a] * ctx.selected && c in ctx.groups[b] * ctx.selected;
    DisjointOfTwo(ctx, a, b);
    assert Eval(negated, ctx) == (No, Some(Overlap(a, b)));
    assert [z][0] !in ctx.selected;
    assert Eval(missing, ctx) == (No, None);
    hide DisjointVerdict;
    AndError([missing, negated], ctx, 0);
    AndError([negated, missing], ctx, 0);
    AndMeaning([missing, negated], ctx);
    AndMeaning([negated, missing], ctx);
    assert missing in [missing, negated] && missing in [negated, missing];
  }

  /** Negations pushed to the leaves by De Morgan's laws. */
  function Nnf(c: Constraint, negate: bool): Constraint
    decreases c, 0
  {
    match c
    case Not(cond) => Nnf(cond, !negate)
    case And(all) => if negate then Or(NnfAll(c, all, negate)) else And(NnfAll(c, all, negate))
    case Or(any) => if negate then And(NnfAll(c, any, negate)) else Or(NnfAll(c, any, negate))
    case _ => if negate then Not(c) else c
  }

  function NnfAll(parent: Constraint, cs: seq<Constraint>, negate: bool): (r: seq<Constraint>)
    requires forall k :: 0 <= k < |cs| ==> cs[k] < parent
    ensures |r| == |cs| && forall k :: 0 <= k < |cs| ==> r[k] == Nnf(cs[k], negate)
    decreases parent, 0, |cs|
  {
    if cs == [] then [] else [Nnf(cs[0], negate)] + NnfAll(parent, cs[1..], negate)
  }

  ghost predicate PushedIn(c: Constraint, negate: bool, ctx: Context) {
    Eval(Nnf(c, negate), ctx).0 == if negate then Eval(c, ctx).0.Not() else Eval(c, ctx).0
  }

  lemma PushedParts(cs: seq<Constraint>, ds: seq<Constraint>, negate: bool, ctx: Context, a: Activation)
    requires |cs| == |ds| && forall k :: 0 <= k < |cs| ==> ds[k] == Nnf(cs[k], negate) && PushedIn(cs[k], negate, ctx)
    ensures Takes(ds, ctx, a) <==> Takes(cs, ctx, if negate then a.Not() else a)
  {}

  lemma PushedAnd(cs: seq<Constraint>, negate: bool, ctx: Context)
    requires forall k :: 0 <= k < |cs| ==> PushedIn(cs[k], negate, ctx)
    ensures PushedIn(And(cs), negate, ctx)
  {
    var ds := NnfAll(And(cs), cs, negate);
    PushedParts(cs, ds, negate, ctx, Yes);
    PushedParts(cs, ds, negate, ctx, No);
    AndMeaning(cs, ctx);
    AndMeaning(ds, ctx);
    OrMeaning(ds, ctx);
  }

  lemma PushedOr(cs: seq<Constraint>, negate: bool, ctx: Context)
    requires forall k :: 0 <= k < |cs| ==> PushedIn(cs[k], negate, ctx)
    ensures PushedIn(Or(cs), negate, ctx)
  {
    var ds := NnfAll(Or(cs), cs, negate);
    PushedParts(cs, ds, negate, ctx, Yes);
    PushedParts(cs, ds, negate, ctx, No);
    OrMeaning(cs, ctx);
    AndMeaning(ds, ctx);
    OrMeaning(ds, ctx);
  }

  /** De Morgan duality on arbitrarily nested constraints: pushing negations in keeps the value. */
  lemma {:induction false} DeMorgan(c: Constraint, negate: bool, ctx: Context)
    ensures PushedIn(c, negate, ctx)
    decreases c
  {
    match c {
      case Not(cond) => DeMorgan(cond, !negate, ctx);
      case And(all) =>
        forall k | 0 <= k < |all|
          ensures PushedIn(all[k], negate, ctx)
        {
          DeMorgan(all[k], negate, ctx);
        }
        PushedAnd(all, negate, ctx);
      case Or(any) =>
        forall k | 0 <= k < |any|
          ensures PushedIn(any[k], negate, ctx)
        {
          DeMorgan(any[k], negate, ctx);
        }
        PushedOr(any, negate, ctx);
      case _ =>
    }
  }

  // ------------------------------------------------------------------------------------------
  // The two searches agree

  /** Undotted names, members in every group, and no node called "all". */
  ghost predicate Regular(cs: A.ControllerSet, offered: seq<string>) {
    && (forall k :: 0 <= k < |offered| ==> A.Undotted(offered[k]))
    && (forall g :: g in cs.groups ==> cs.groups[g] != [] && g != A.ALL && A.ALL !in cs.groups[g])
  }

  lemma SameSuccessors(cs: A.ControllerSet, offered: seq<string>, x: string)
    requires Regular(cs, offered) && x != A.ALL
    ensures Succ(A.Tree(cs, A.Table(offered)), x) == Succ(cs.groups, x)
  {
    if x in cs.groups {
      forall m
        ensures A.Canonical(A.Table(offered), m) == m
      {
        A.UndottedCanonical(offered, m);
      }
      assert A.CanonicalAll(A.Table(offered), cs.groups[x]) == cs.groups[x];
    }
  }

  lemma WalkExtends(g: Groups, p: seq<string>)
    requires 1 < |p|
    ensures IsWalk(g, p) <==> IsWalk(g, p[..|p| - 1]) && p[|p| - 1] in Succ(g, p[|p| - 2])
  {}

  lemma {:induction false} SameWalk(cs: A.ControllerSet, offered: seq<string>, p: seq<string>)
    requires Regular(cs, offered) && 0 < |p| && p[0] != A.ALL
    ensures IsWalk(A.Tree(cs, A.Table(offered)), p) <==> IsWalk(cs.groups, p)
    ensures IsWalk(cs.groups, p) ==> p[|p| - 1] != A.ALL
    decreases |p|
  {
    if 1 < |p| {
      var q := p[..|p| - 1];
      SameWalk(cs, offered, q);
      WalkExtends(cs.groups, p);
      WalkExtends(A.Tree(cs, A.Table(offered)), p);
      hide A.Tree;
      hide A.Table;
      if IsWalk(cs.groups, q) {
        SameSuccessors(cs, offered, p[|p| - 2]);
        hide IsWalk;
      }
    }
  }

  /** For a regular controller set the leaves handle acts on for a group are the closure of the group. */
  lemma SearchesAgree(cs: A.ControllerSet, offered: seq<string>, g: string, x: string)
    requires Regular(cs, offered) && g in cs.groups
    ensures x in A.Leaves(cs, A.Table(offered), g, {}) <==> InClosure(cs.groups, g, x)
  {
    var tree := A.Tree(cs, A.Table(offered));
    A.LeavesAreReachable(cs, A.Table(offered), g, x);
    A.UndottedCanonical(offered, g);
    if Reach(tree, g, x) {
      var p :| WalkFrom(tree, p, g, x);
      SameWalk(cs, offered, p);
      assert WalkFrom(cs.groups, p, g, x);
    }
    if Reach(cs.groups, g, x) {
      var p :| WalkFrom(cs.groups, p, g, x);
      SameWalk(cs, offered, p);
      assert WalkFrom(tree, p, g, x);
    }
  }

  lemma LastSelection(cs: A.ControllerSet, table: map<string, string>, list: seq<string>, g: string)
    requires list != [] && list[|list| - 1] == "+" + g
    ensures A.Leaves(cs, table, g, {}) <= A.Activated(cs, table, list)
  {}

  /** A selection list that ends by selecting a group satisfies the completeness constraint of the group. */
  lemma SelectedGroupIsComplete(cs: A.ControllerSet, offered: seq<string>, list: seq<string>, g: string, ctx: Context)
    requires Regular(cs, offered) && g in cs.groups
    requires list != [] && list[|list| - 1] == "+" + g
    requires ctx.Closes(cs) && ctx.selected == A.Activated(cs, A.Table(offered), list)
    ensures Eval(Complete([g]), ctx) == (NoOpinion, None)
  {
    LastSelection(cs, A.Table(offered), list, g);
    forall x | x in ctx.groups[g]
      ensures x in ctx.selected
    {
      SearchesAgree(cs, offered, g, x);
    }
    CompleteOne(ctx, g);
  }

  lemma CompleteOne(ctx: Context, g: string)
    requires CompleteGroup(ctx, g)
    ensures Eval(Complete([g]), ctx) == (NoOpinion, None)
  {
    assert CompleteProblem(ctx, [g][1..]) == None;
    assert CompleteProblem(ctx, [g]) == None;
  }

  /** A group that lists "all" tells the searches apart: activation takes "all" for every controller, the closure
      takes it for a name like any other. */
  lemma AllMemberSeparatesSearches(c: string)
    requires A.Undotted(c) && c != A.ALL && c != "G"
    ensures var cs := A.ControllerSet([c], map["G" := [A.ALL]]);
            && InClosure(cs.groups, "G", A.ALL) && !InClosure(cs.groups, "G", c)
            && c in A.Leaves(cs, map[], "G", {}) && A.ALL !in A.Leaves(cs, map[], "G", {})
  {
    var cs := A.ControllerSet([c], map["G" := [A.ALL]]);
    assert WalkFrom(cs.groups, ["G", A.ALL], "G", A.ALL);
    if Reach(cs.groups, "G", c) {
      ReachStaysIn(cs.groups, {"G", A.ALL}, "G", c);
    }
    var tree := A.Tree(cs, map[]);
    assert tree["G"][0] == A.ALL && tree[A.ALL][0] == c;
    assert WalkFrom(tree, ["G", A.ALL, c], "G", c);
    A.LeavesAreReachable(cs, map[], "G", c);
    A.LeavesAreReachable(cs, map[], "G", A.ALL);
  }
}
