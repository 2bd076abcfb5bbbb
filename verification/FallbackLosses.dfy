/** Required names that a successful validation leaves out (cluster/defs.go): the iteration orders that do so. */
module FallbackLosses {
  import opened Wrappers
  import opened Graphs
  import opened Fallback
  import Keys

  /** After the turns of `turns` in the first pass everything but c is resolved and nothing is missing. */
  ghost predicate Losing(cfg: Config, c: string, turns: seq<string>)
    requires Elems(turns) <= cfg.elements.Keys
  {
    && RunPass(cfg, START, turns).Ok?
    && var st := RunPass(cfg, START, turns).value;
      && !st.missing && st.intermediate <= {DEFAULT}
      && c in turns && DEFAULT in st.clusters && c !in st.clusters
      && forall n :: n in turns && n in cfg.Required() && n != c ==> n in st.clusters
  }

  /** A state in which the turn of a required definition with a resolved target resolves it. */
  ghost predicate Ready(cfg: Config, c: string, st: State, m: string) {
    && cfg.Valid() && Inv(cfg, st.clusters, st.intermediate)
    && !st.missing && st.intermediate <= {DEFAULT} && c !in st.clusters
    && m in cfg.elements && m != c
    && (m in cfg.Required() ==> ResolvesBeside(cfg, c, m))
    && (m in cfg.Required() && cfg.elements[m].create.Absent? ==> Lookup(st.clusters, cfg.elements[m].fallback).Some?)
  }

  lemma ReadyIsAccepted(cfg: Config, c: string, st: State, m: string)
    requires Ready(cfg, c, st, m) && m in cfg.Required() && cfg.elements[m].create.Absent?
    ensures cfg.elements[m].fallback != ""
    ensures Lookup(st.clusters, cfg.elements[m].fallback).value.fleet ==> cfg.elements[m].acceptFleet
  {
    hide Lookup, Target;
    RequiredNeeded(cfg, m);
    AliasServes(cfg, st.clusters, st.intermediate, m);
    var w :| Walks(cfg, m, w) && (w.fleet ==> cfg.elements[m].acceptFleet);
    WalkUnique(cfg, m, w, Lookup(st.clusters, cfg.elements[m].fallback).value);
  }

  lemma ReadyMakes(cfg: Config, c: string, st: State, m: string)
    requires Ready(cfg, c, st, m) && Open(cfg, st, m) && m in cfg.Required()
    ensures Visit(cfg, st, m).Ok? && Resolving(st, m, Visit(cfg, st, m).value)
  {
    if cfg.elements[m].create.Absent? {
      ReadyIsAccepted(cfg, c, st, m);
    }
    OpenIsUnseen(cfg, st, m);
    hide Lookup, Target, Inv, Walks, Resolving, Config.Valid, Config.Required;
    assert Visit(cfg, st, m).Ok?;
    hide Visit;
    VisitMakes(cfg, st, m);
  }

  lemma ReadyTurn(cfg: Config, c: string, st: State, m: string)
    requires Ready(cfg, c, st, m)
    ensures Visit(cfg, st, m).Ok?
    ensures var v := Visit(cfg, st, m).value;
      && !v.missing && v.intermediate == st.intermediate && c !in v.clusters
      && st.clusters.Keys <= v.clusters.Keys && (m in cfg.Required() ==> m in v.clusters)
  {
    hide Visit, Inv, ResolvesBeside, Lookup;
    if Open(cfg, st, m) {
      assert m != DEFAULT;
      ReadyMakes(cfg, c, st, m);
    } else {
      VisitIdle(cfg, st, m);
    }
  }

  /** A required definition whose target is resolved gets resolved by its turn. */
  lemma LosingStep(cfg: Config, c: string, turns: seq<string>, m: string)
    requires cfg.Valid() && Loses(cfg, c) && Elems(turns) <= cfg.elements.Keys && Losing(cfg, c, turns)
    requires Distinct(turns) && m in cfg.elements && m != c
    requires m in cfg.Required() && cfg.elements[m].create.Absent? ==>
               Target(cfg.elements[m].fallback).value in Elems(turns) - {c} + {DEFAULT}
    requires m in cfg.Required() ==> ResolvesBeside(cfg, c, m)
    ensures Elems(turns + [m]) <= cfg.elements.Keys && Losing(cfg, c, turns + [m])
  {
    var st := RunPass(cfg, START, turns).value;
    assert Inv(cfg, START.clusters, START.intermediate);
    var _ := PassFacts(cfg, START, turns);
    assert Ready(cfg, c, st, m);
    hide *;
    ReadyTurn(cfg, c, st, m);
    LosingLonger(cfg, c, turns, m);
  }

  lemma LosingLonger(cfg: Config, c: string, turns: seq<string>, m: string)
    requires Elems(turns) <= cfg.elements.Keys && Losing(cfg, c, turns) && m in cfg.elements
    requires var st := RunPass(cfg, START, turns).value;
      && Visit(cfg, st, m).Ok?
      && var v := Visit(cfg, st, m).value;
        && !v.missing && v.intermediate == st.intermediate && c !in v.clusters
        && st.clusters.Keys <= v.clusters.Keys && (m in cfg.Required() ==> m in v.clusters)
    ensures Elems(turns + [m]) <= cfg.elements.Keys && Losing(cfg, c, turns + [m])
  {
    hide Visit, Config.Required;
    OneMoreTurn(cfg, START, turns, m);
    hide RunPass;
  }

  /** A member of s with the shortest chain. */
  lemma {:induction false} Shortest(cfg: Config, s: set<string>, m: string, k: nat) returns (m': string, k': nat)
    requires m in s && Chain(cfg, m, k).Some?
    ensures m' in s && Chain(cfg, m', k').Some?
    ensures forall x, j: nat :: x in s && j < k' ==> Chain(cfg, x, j).None?
    decreases k
  {
    if x, j: nat :| x in s && j < k && Chain(cfg, x, j).Some? {
      m', k' := Shortest(cfg, s, x, j);
    } else {
      m', k' := m, k;
    }
  }

  /** Among the required names still to be visited, one whose target has been visited. */
  lemma NextToVisit(cfg: Config, c: string, todo: set<string>) returns (m: string)
    requires cfg.Valid() && Loses(cfg, c) && todo != {} && c !in todo
    requires todo <= cfg.Required() * cfg.elements.Keys
    ensures m in todo && ResolvesBeside(cfg, c, m)
    ensures cfg.elements[m].create.Absent? ==>
              Target(cfg.elements[m].fallback).Some?
              && Target(cfg.elements[m].fallback).value in cfg.Required() * cfg.elements.Keys - todo - {c} + {DEFAULT}
  {
    var x :| x in todo;
    assert ResolvesBeside(cfg, c, x);
    if cfg.elements[x].create.Made? {
      m := x;
    } else {
      var kx: nat :| Chain(cfg, x, kx).Some?;
      var k;
      m, k := Shortest(cfg, todo, x, kx);
      assert ResolvesBeside(cfg, c, m);
      if cfg.elements[m].create.Absent? {
        assert Chain(cfg, Target(cfg.elements[m].fallback).value, k - 1).Some?;
      }
    }
  }

  lemma VisitedNext(turns: seq<string>, todo: set<string>, m: string)
    requires Distinct(turns) && Elems(turns) !! todo && m in todo
    ensures Distinct(turns + [m]) && Elems(turns + [m]) !! todo - {m}
    ensures Elems(turns + [m]) + (todo - {m}) == Elems(turns) + todo
    ensures |todo - {m}| < |todo|
  {
    assert m !in Elems(turns);
  }

  lemma {:induction false} LoseRequired(cfg: Config, c: string, turns: seq<string>, todo: set<string>)
    returns (order: seq<string>)
    requires cfg.Valid() && Loses(cfg, c)
    requires Elems(turns) <= cfg.elements.Keys && Losing(cfg, c, turns) && Distinct(turns)
    requires Elems(turns) !! todo && Elems(turns) + todo == cfg.Required() * cfg.elements.Keys
    ensures Permutes(order, cfg.Required() * cfg.elements.Keys) && Losing(cfg, c, order)
    decreases |todo|
  {
    order := turns;
    if todo != {} {
      assert c in Elems(turns);
      hide Losing;
      hide Loses;
      hide ResolvesBeside;
      hide Target;
      hide Config.Valid;
      var m := NextToVisit(cfg, c, todo);
      assert Elems(turns) == cfg.Required() * cfg.elements.Keys - todo;
      LosingStep(cfg, c, turns, m);
      VisitedNext(turns, todo, m);
      order := LoseRequired(cfg, c, turns + [m], todo - {m});
    }
  }

  lemma {:induction false} LoseAll(cfg: Config, c: string, turns: seq<string>, todo: set<string>)
    returns (order: seq<string>)
    requires cfg.Valid() && Loses(cfg, c)
    requires Elems(turns) <= cfg.elements.Keys && Losing(cfg, c, turns) && Distinct(turns)
    requires Elems(turns) !! todo && Elems(turns) + todo == cfg.elements.Keys && todo !! cfg.Required()
    ensures Permutes(order, cfg.elements.Keys) && Losing(cfg, c, order)
    decreases |todo|
  {
    order := turns;
    if todo != {} {
      var m :| m in todo;
      assert c in Elems(turns);
      hide Losing;
      hide Loses;
      hide Target;
      LosingStep(cfg, c, turns, m);
      VisitedNext(turns, todo, m);
      order := LoseAll(cfg, c, turns + [m], todo - {m});
    }
  }

  lemma NothingIsSeen(n: string)
    ensures Lookup(map[], n).None?
  {}

  lemma LosingFirstTurn(cfg: Config, c: string)
    requires cfg.Valid() && c in cfg.Required() && MakesDefault(cfg, c)
    ensures Visit(cfg, State(map[], {}, false, false), c) ==
            Ok(State(map[DEFAULT := Cluster(DEFAULT, cfg.main.fleet)], Widen(cfg, {}, DEFAULT), false, true))
  {
    NothingIsSeen(c);
    NothingIsSeen(DEFAULT);
    hide Lookup, Config.Valid, Config.Required;
  }

  lemma LosingStart(cfg: Config, c: string)
    requires cfg.Valid() && Loses(cfg, c)
    ensures Elems([c]) <= cfg.elements.Keys && Losing(cfg, c, [c])
  {
    assert RunPass(cfg, START, []) == Ok(State(map[], {}, false, false));
    assert [] + [c] == [c];
    OneMoreTurn(cfg, START, [], c);
    LosingFirstTurn(cfg, c);
    hide Visit;
    hide RunPass;
    hide ResolvesBeside;
  }

  /** Some iteration order makes validation succeed in its first pass without resolving c. */
  ghost predicate LostBySomeOrder(cfg: Config, c: string) {
    exists order ::
      && Permutes(order, cfg.elements.Keys)
      && RunPass(cfg, START, order).Ok? && !RunPass(cfg, START, order).value.missing
      && c !in RunPass(cfg, START, order).value.clusters
  }

  /** A declared, needed name can be lost exactly for the inputs described by Loses. */
  lemma LostExactly(cfg: Config, c: string)
    requires cfg.Valid() && c in cfg.elements && Needed(cfg, c)
    ensures LostBySomeOrder(cfg, c) <==> Loses(cfg, c)
  {
    assert Inv(cfg, START.clusters, START.intermediate);
    if LostBySomeOrder(cfg, c) {
      var order :|
        && Permutes(order, cfg.elements.Keys)
        && RunPass(cfg, START, order).Ok? && !RunPass(cfg, START, order).value.missing
        && c !in RunPass(cfg, START, order).value.clusters;
      CleanPass(cfg, START, true, order);
    }
    if Loses(cfg, c) {
      LosingStart(cfg, c);
      assert Elems([c]) == {c};
      var required := LoseRequired(cfg, c, [c], cfg.Required() * cfg.elements.Keys - {c});
      var order := LoseAll(cfg, c, required, cfg.elements.Keys - cfg.Required());
      assert c !in RunPass(cfg, START, order).value.clusters;
    }
  }

  /** The smallest losing input: one required definition that falls back to a configured DEFAULT. */
  lemma SingleDefinitionIsLost(name: string, accept: bool)
    requires Keys.MEMBER !in name && name != DEFAULT
    ensures var cfg := Config(map[name := Definition(Absent, DEFAULT, accept)], Made(false), {});
      && cfg.Valid() && Loses(cfg, name)
      && SettlesAtOnce(cfg, [name]) && name !in RunPass(cfg, START, [name]).value.clusters
  {
    var cfg := Config(map[name := Definition(Absent, DEFAULT, accept)], Made(false), {});
    assert cfg.elements.Keys == {name} == Elems([name]);
    hide RunPass;
    LosingStart(cfg, name);
  }

  /** A required DEFAULT that no definition falls back to is not resolved, without any error. */
  lemma RequiredDefaultIsSkipped(name: string)
    requires Keys.MEMBER !in name && name != DEFAULT
    ensures var cfg := Config(map[name := Definition(Made(false), DEFAULT, false)], Made(false), {DEFAULT, name});
      && cfg.Valid() && Needed(cfg, DEFAULT) && Walks(cfg, DEFAULT, Cluster(DEFAULT, false))
      && SettlesAtOnce(cfg, [name]) && DEFAULT !in RunPass(cfg, START, [name]).value.clusters
  {
    var cfg := Config(map[name := Definition(Made(false), DEFAULT, false)], Made(false), {DEFAULT, name});
    RequiredNeeded(cfg, DEFAULT);
    assert Chain(cfg, DEFAULT, 0) == Some(Cluster(DEFAULT, false));
    assert [] + [name] == [name] && Elems([name]) == {name};
    OneMoreTurn(cfg, START, [], name);
    PlainTarget(name);
  }
}
