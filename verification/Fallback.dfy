/** Resolution of logical clusters along their fallback chains (cluster/defs.go). */
module Fallback {
  import opened Wrappers
  import opened Graphs
  import Keys

  const DEFAULT := "default"

  predicate Prefixed(name: string) {
    Keys.Split(name).0 != ""
  }

  /** What Create of a definition yields for the given command line. */
  datatype Creation = Failed | Absent | Made(fleet: bool)

  datatype Definition = Definition(create: Creation, fallback: string, acceptFleet: bool)

  /** The declared definitions, the default definition and the names used by active controllers. */
  datatype Config = Config(elements: map<string, Definition>, main: Creation, used: set<string>) {
    /** An empty use set stands for all declared names. */
    function Required(): set<string> {
      if used == {} then elements.Keys else used
    }

    /** DEFAULT is kept apart from the declared names. A name may look like that of a fleet member, but does not
        start with the separator. */
    ghost predicate Valid() {
      DEFAULT !in elements && forall n :: n in elements ==> Prefixed(n) || Keys.MEMBER !in n
    }
  }

  /** A resolved name: the definition whose Create made the cluster behind it. */
  datatype Cluster = Cluster(origin: string, fleet: bool)

  datatype Error =
    | CreateFailed(name: string)
    | FleetNotAccepted(name: string)
    | KubeconfigRequired(name: string)

  /** The variables of the fixpoint loop. */
  datatype State = State(clusters: map<string, Cluster>, intermediate: set<string>, missing: bool, found: bool)

  const START := State(map[], {}, true, true)

  /** The group entry a cluster name denotes. Fleet members are not registered yet, so names with
      a fleet prefix denote nothing. */
  function Target(name: string): Option<string> {
    var split := Keys.Split(name);
    if split.0 == "" then Some(split.1) else None
  }

  function Lookup(clusters: map<string, Cluster>, name: string): Option<Cluster> {
    match Target(name)
    case Some(t) => if t in clusters then Some(clusters[t]) else None
    case None => None
  }

  predicate Wanted(cfg: Config, intermediate: set<string>, n: string) {
    n in cfg.Required() || n in intermediate
  }

  /** One turn of the inner loop. */
  function Visit(cfg: Config, st: State, n: string): Result<State, Error>
    requires n in cfg.elements
  {
    var def := cfg.elements[n];
    if Lookup(st.clusters, n).Some? || !Wanted(cfg, st.intermediate, n) then Ok(st)
    else match def.create
      case Failed => Err(CreateFailed(n))
      case Made(fleet) =>
        // Add refuses a name that is already taken
        var clusters := if n in st.clusters then st.clusters else st.clusters[n := Cluster(n, fleet)];
        Ok(st.(clusters := clusters, found := true))
      case Absent =>
        if def.fallback == "" then Ok(st.(missing := true))
        else match Lookup(st.clusters, def.fallback)
          case Some(eff) =>
            if !def.acceptFleet && eff.fleet && n in cfg.Required() then Err(FleetNotAccepted(n))
            else
              var clusters := if n in st.clusters then st.clusters else st.clusters[n := eff];
              Ok(st.(clusters := clusters, found := true))
          case None =>
            var unseen := !Wanted(cfg, st.intermediate, def.fallback);
            var st' := if unseen then st.(intermediate := st.intermediate + {def.fallback}, found := true) else st;
            if def.fallback != DEFAULT then Ok(st'.(missing := true))
            else match cfg.main
              case Failed => Err(CreateFailed(DEFAULT))
              case Absent => Ok(st'.(missing := true))
              // the turn that makes DEFAULT leaves missing as it is
              case Made(fleet) => Ok(st'.(clusters := st'.clusters[DEFAULT := Cluster(DEFAULT, fleet)], found := true))
  }

  /** One pass over the definitions in the given order. */
  function RunPass(cfg: Config, st: State, order: seq<string>): Result<State, Error>
    requires Elems(order) <= cfg.elements.Keys
  {
    if order == [] then Ok(st.(missing := false, found := false))
    else
      var k := |order| - 1;
      assert Elems(order[..k]) <= cfg.elements.Keys;
      assert order[k] in Elems(order);
      match RunPass(cfg, st, order[..k])
      case Err(e) => Err(e)
      case Ok(s) => Visit(cfg, s, order[k])
  }

  // ------------------------------------------------------------------------------------------
  // The reference: a plain walk along the fallback chain

  /** The cluster made by the first configured definition on n's chain, within k steps. */
  ghost function Chain(cfg: Config, n: string, k: nat): Option<Cluster>
    decreases k
  {
    if n == DEFAULT then
      if cfg.main.Made? then Some(Cluster(DEFAULT, cfg.main.fleet)) else None
    else if n !in cfg.elements then None
    else match cfg.elements[n].create
      case Failed => None
      case Made(fleet) => Some(Cluster(n, fleet))
      case Absent =>
        if k == 0 || cfg.elements[n].fallback == "" then None
        else match Target(cfg.elements[n].fallback)
          case None => None
          case Some(t) => Chain(cfg, t, k - 1)
  }

  ghost predicate Walks(cfg: Config, n: string, c: Cluster) {
    exists k: nat :: Chain(cfg, n, k) == Some(c)
  }

  /** n is required, or the fallback of an unconfigured definition of the closure. */
  ghost predicate NeededIn(cfg: Config, n: string, k: nat)
    decreases k
  {
    if k == 0 then n in cfg.Required()
    else NeededIn(cfg, n, k - 1) || exists m :: FallsBack(cfg, m, n) && NeededIn(cfg, m, k - 1)
  }

  ghost predicate FallsBack(cfg: Config, m: string, n: string) {
    m in cfg.elements && cfg.elements[m].create.Absent? && cfg.elements[m].fallback == n && n != ""
  }

  ghost predicate Needed(cfg: Config, n: string) {
    exists k: nat :: NeededIn(cfg, n, k)
  }

  /** A needed definition without a cluster of its own falls back to DEFAULT. */
  ghost predicate Asked(cfg: Config) {
    exists m :: FallsBack(cfg, m, DEFAULT) && Needed(cfg, m)
  }

  /** The same walk along needed names only. Fallbacks with a separator can leave these: "#b" denotes the entry of b
      but does not make b needed. */
  ghost function NeededChain(cfg: Config, n: string, k: nat): Option<Cluster>
    decreases k
  {
    if n == DEFAULT then
      if cfg.main.Made? && Asked(cfg) then Some(Cluster(DEFAULT, cfg.main.fleet)) else None
    else if n !in cfg.elements || !Needed(cfg, n) then None
    else match cfg.elements[n].create
      case Failed => None
      case Made(fleet) => Some(Cluster(n, fleet))
      case Absent =>
        if k == 0 || cfg.elements[n].fallback == "" then None
        else match Target(cfg.elements[n].fallback)
          case None => None
          case Some(t) => NeededChain(cfg, t, k - 1)
  }

  ghost predicate Serves(cfg: Config, n: string, c: Cluster) {
    exists k: nat :: NeededChain(cfg, n, k) == Some(c)
  }

  ghost predicate Served(cfg: Config, n: string) {
    exists c :: Serves(cfg, n, c)
  }

  lemma {:induction false} NeededChainIsChain(cfg: Config, n: string, k: nat)
    requires NeededChain(cfg, n, k).Some?
    ensures Chain(cfg, n, k) == NeededChain(cfg, n, k)
    decreases k
  {
    hide Target, Asked, Needed;
    if n != DEFAULT && cfg.elements[n].create.Absent? {
      NeededChainIsChain(cfg, Target(cfg.elements[n].fallback).value, k - 1);
    }
  }

  lemma ServesWalks(cfg: Config, n: string, c: Cluster)
    requires Serves(cfg, n, c)
    ensures Walks(cfg, n, c)
  {
    var k: nat :| NeededChain(cfg, n, k) == Some(c);
    NeededChainIsChain(cfg, n, k);
  }

  lemma {:induction false} ChainMonotone(cfg: Config, n: string, k: nat, l: nat)
    requires k <= l && Chain(cfg, n, k).Some?
    ensures Chain(cfg, n, l) == Chain(cfg, n, k)
    decreases k
  {
    hide Target;
    if n != DEFAULT && n in cfg.elements && cfg.elements[n].create.Absent? {
      ChainMonotone(cfg, Target(cfg.elements[n].fallback).value, k - 1, l - 1);
    }
  }

  /** A chain has at most one end. */
  lemma WalkUnique(cfg: Config, n: string, c: Cluster, d: Cluster)
    requires Walks(cfg, n, c) && Walks(cfg, n, d)
    ensures c == d
  {
    var k: nat :| Chain(cfg, n, k) == Some(c);
    var l: nat :| Chain(cfg, n, l) == Some(d);
    if k <= l { ChainMonotone(cfg, n, k, l); } else { ChainMonotone(cfg, n, l, k); }
  }

  lemma NeededStep(cfg: Config, m: string, n: string)
    requires Needed(cfg, m) && FallsBack(cfg, m, n)
    ensures Needed(cfg, n)
  {
    var k: nat :| NeededIn(cfg, m, k);
    assert NeededIn(cfg, n, k + 1);
  }

  lemma RequiredNeeded(cfg: Config, n: string)
    requires n in cfg.Required()
    ensures Needed(cfg, n)
  {
    assert NeededIn(cfg, n, 0);
  }

  lemma PlainTarget(n: string)
    ensures Keys.MEMBER !in n ==> Target(n) == Some(n)
  {}

  /** A declared name denotes its own entry, or none at all. */
  lemma ElementTarget(cfg: Config, n: string)
    requires cfg.Valid() && n in cfg.elements
    ensures Target(n) == if Prefixed(n) then None else Some(n)
  {}

  // ------------------------------------------------------------------------------------------
  // What every turn keeps

  ghost function Fallbacks(cfg: Config): set<string> {
    set n | n in cfg.elements :: cfg.elements[n].fallback
  }

  /** A resolved name is needed, its cluster is the end of its chain of needed names, and if the cluster is borrowed
      then from the resolved fallback, never a fleet for a required definition that accepts none. */
  ghost predicate EntryOk(cfg: Config, clusters: map<string, Cluster>, wanted: set<string>, n: string)
    requires n in clusters
  {
    && (n == DEFAULT || n in cfg.elements)
    && Serves(cfg, n, clusters[n])
    && Needed(cfg, n)
    && Wanted(cfg, wanted, n)
    && (n in cfg.elements && cfg.elements[n].create.Absent? ==>
          && cfg.elements[n].fallback != ""
          && Lookup(clusters, cfg.elements[n].fallback) == Some(clusters[n])
          && (n in cfg.Required() && !cfg.elements[n].acceptFleet ==> !clusters[n].fleet))
  }

  ghost predicate WantedOk(cfg: Config, n: string) {
    n !in cfg.Required() && exists m :: FallsBack(cfg, m, n) && Needed(cfg, m)
  }

  ghost predicate Inv(cfg: Config, clusters: map<string, Cluster>, wanted: set<string>) {
    && (forall n :: n in clusters ==> EntryOk(cfg, clusters, wanted, n))
    && (forall n :: n in wanted ==> WantedOk(cfg, n))
  }

  lemma AddKeepsInv(cfg: Config, clusters: map<string, Cluster>, wanted: set<string>, n: string, c: Cluster)
    requires Inv(cfg, clusters, wanted) && n !in clusters
    requires EntryOk(cfg, clusters[n := c], wanted, n)
    ensures Inv(cfg, clusters[n := c], wanted)
  {}

  lemma WidenKeepsInv(cfg: Config, clusters: map<string, Cluster>, wanted: set<string>, m: string, n: string)
    requires Inv(cfg, clusters, wanted) && FallsBack(cfg, m, n) && Needed(cfg, m)
    ensures n !in cfg.Required() ==> Inv(cfg, clusters, wanted + {n})
    ensures Needed(cfg, n)
  {
    NeededStep(cfg, m, n);
    forall x | x in clusters
      ensures EntryOk(cfg, clusters, wanted + {n}, x)
    {
      assert EntryOk(cfg, clusters, wanted, x);
    }
  }

  lemma AliasServes(cfg: Config, clusters: map<string, Cluster>, wanted: set<string>, n: string)
    requires Inv(cfg, clusters, wanted) && cfg.Valid() && n in cfg.elements && cfg.elements[n].create.Absent?
    requires cfg.elements[n].fallback != "" && Needed(cfg, n)
    ensures var c := Lookup(clusters, cfg.elements[n].fallback);
            c.Some? ==> Serves(cfg, n, c.value) && Walks(cfg, n, c.value)
  {
    if Lookup(clusters, cfg.elements[n].fallback).Some? {
      var t := Target(cfg.elements[n].fallback).value;
      assert EntryOk(cfg, clusters, wanted, t);
      var k: nat :| NeededChain(cfg, t, k) == Some(clusters[t]);
      assert NeededChain(cfg, n, k + 1) == Some(clusters[t]);
      ServesWalks(cfg, n, clusters[t]);
    }
  }

  lemma WantedNeeded(cfg: Config, clusters: map<string, Cluster>, wanted: set<string>, n: string)
    requires Inv(cfg, clusters, wanted) && Wanted(cfg, wanted, n)
    ensures Needed(cfg, n)
  {
    if n in cfg.Required() {
      RequiredNeeded(cfg, n);
    } else {
      assert WantedOk(cfg, n);
      var m :| FallsBack(cfg, m, n) && Needed(cfg, m);
      NeededStep(cfg, m, n);
    }
  }

  lemma DefaultEntryOk(cfg: Config, clusters: map<string, Cluster>, wanted: set<string>)
    requires cfg.Valid() && cfg.main.Made? && Needed(cfg, DEFAULT) && Asked(cfg) && Wanted(cfg, wanted, DEFAULT)
    ensures EntryOk(cfg, clusters[DEFAULT := Cluster(DEFAULT, cfg.main.fleet)], wanted, DEFAULT)
  {
    assert NeededChain(cfg, DEFAULT, 0) == Some(Cluster(DEFAULT, cfg.main.fleet));
  }

  lemma DefaultTarget()
    ensures Target(DEFAULT) == Some(DEFAULT)
  {}

  lemma DefaultPrefix()
    ensures !Prefixed(DEFAULT)
  {}

  function Widen(cfg: Config, wanted: set<string>, fb: string): set<string> {
    if Wanted(cfg, wanted, fb) then wanted else wanted + {fb}
  }

  /** The branch of a turn in which the fallback is not resolved yet. */
  lemma DeferEffect(cfg: Config, st: State, n: string)
    requires n in cfg.elements && Lookup(st.clusters, n).None? && Wanted(cfg, st.intermediate, n)
    requires cfg.elements[n].create.Absent? && cfg.elements[n].fallback != ""
    requires Lookup(st.clusters, cfg.elements[n].fallback).None?
    ensures Visit(cfg, st, n).Ok? ==>
              var fb, v := cfg.elements[n].fallback, Visit(cfg, st, n).value;
              && (fb == DEFAULT ==> !cfg.main.Failed?)
              && v.intermediate == Widen(cfg, st.intermediate, fb)
              && v.clusters == (if fb == DEFAULT && cfg.main.Made?
                                then st.clusters[DEFAULT := Cluster(DEFAULT, cfg.main.fleet)] else st.clusters)
              && (v.missing == (st.missing || !(fb == DEFAULT && cfg.main.Made?)))
              && (v.found == (st.found || !Wanted(cfg, st.intermediate, fb) || (fb == DEFAULT && cfg.main.Made?)))
  {
    hide Lookup;
    hide Wanted;
  }

  lemma DeferKeepsInv(cfg: Config, clusters: map<string, Cluster>, wanted: set<string>, n: string, fb: string)
    requires cfg.Valid() && Inv(cfg, clusters, wanted) && Needed(cfg, n) && FallsBack(cfg, n, fb)
    requires Lookup(clusters, fb).None?
    ensures Inv(cfg, clusters, Widen(cfg, wanted, fb))
    ensures fb == DEFAULT && cfg.main.Made? ==>
              Inv(cfg, clusters[DEFAULT := Cluster(DEFAULT, cfg.main.fleet)], Widen(cfg, wanted, fb))
  {
    WidenKeepsInv(cfg, clusters, wanted, n, fb);
    var wide := Widen(cfg, wanted, fb);
    assert Wanted(cfg, wide, fb);
    if fb == DEFAULT && cfg.main.Made? {
      DefaultTarget();
      assert Asked(cfg);
      DefaultEntryOk(cfg, clusters, wide);
      AddKeepsInv(cfg, clusters, wide, DEFAULT, Cluster(DEFAULT, cfg.main.fleet));
    }
  }

  lemma VisitKeepsInv(cfg: Config, st: State, n: string)
    requires cfg.Valid() && Inv(cfg, st.clusters, st.intermediate) && n in cfg.elements
    ensures Visit(cfg, st, n).Ok? ==>
              Inv(cfg, Visit(cfg, st, n).value.clusters, Visit(cfg, st, n).value.intermediate)
  {
    var def := cfg.elements[n];
    ElementTarget(cfg, n);
    if n in st.clusters {
      assert EntryOk(cfg, st.clusters, st.intermediate, n);
    } else if Wanted(cfg, st.intermediate, n) {
      WantedNeeded(cfg, st.clusters, st.intermediate, n);
      if def.create.Made? {
        assert NeededChain(cfg, n, 0) == Some(Cluster(n, def.create.fleet));
        AddKeepsInv(cfg, st.clusters, st.intermediate, n, Cluster(n, def.create.fleet));
      } else if def.create.Absent? && def.fallback != "" {
        var eff := Lookup(st.clusters, def.fallback);
        if eff.None? {
          DeferEffect(cfg, st, n);
          DeferKeepsInv(cfg, st.clusters, st.intermediate, n, def.fallback);
        } else if Visit(cfg, st, n).Ok? {
          AliasServes(cfg, st.clusters, st.intermediate, n);
          AddKeepsInv(cfg, st.clusters, st.intermediate, n, eff.value);
        }
      }
    }
  }

  // ------------------------------------------------------------------------------------------
  // What one pass establishes

  /** The definition whose turn made DEFAULT and which is left for a pass that may not come. */
  ghost predicate MakesDefault(cfg: Config, c: string) {
    && c in cfg.elements && cfg.elements[c].create.Absent?
    && cfg.elements[c].fallback == DEFAULT && cfg.main.Made?
  }

  ghost predicate Blocked(cfg: Config, st: State, n: string)
    requires n in cfg.elements
  {
    var def := cfg.elements[n];
    && def.create.Absent?
    && (def.fallback != "" ==>
          && Lookup(st.clusters, def.fallback).None?
          && Wanted(cfg, st.intermediate, def.fallback)
          && (def.fallback == DEFAULT ==> cfg.main.Absent?))
  }

  ghost predicate Open(cfg: Config, st: State, n: string) {
    Wanted(cfg, st.intermediate, n) && n !in st.clusters
  }

  predicate Still(st0: State, st: State) {
    st.clusters.Keys == st0.clusters.Keys && st.intermediate == st0.intermediate
  }

  /** Resolved and intermediate names only grow, and found says whether they did, or whether a prefixed name is
      resolved, which every pass reports anew. */
  ghost predicate Grown(st0: State, turns: seq<string>, st: State) {
    && st0.clusters.Keys <= st.clusters.Keys
    && (forall n :: n in st0.clusters ==> st.clusters[n] == st0.clusters[n])
    && st0.intermediate <= st.intermediate
    && (st.found <==> !Still(st0, st) || exists n :: n in turns && Prefixed(n) && n in st.clusters)
  }

  ghost predicate CreatorOk(cfg: Config, st0: State, st: State, creator: Option<string>) {
    creator.Some? ==>
      && MakesDefault(cfg, creator.value) && creator.value !in st.clusters
      && DEFAULT in st.clusters && DEFAULT !in st0.clusters
  }

  /** The state after the turns of `turns` in a pass that began with st0. */
  ghost predicate PassInv(cfg: Config, st0: State, turns: seq<string>, st: State, creator: Option<string>)
    requires Elems(turns) <= cfg.elements.Keys
  {
    && Inv(cfg, st.clusters, st.intermediate)
    && Grown(st0, turns, st)
    && CreatorOk(cfg, st0, st, creator)
    && (!st.missing ==> st.intermediate <= st0.intermediate + {DEFAULT})
    && (!st.missing ==> forall n :: n in turns && Open(cfg, st, n) ==> creator == Some(n))
    && (Still(st0, st) ==> forall n :: n in Elems(turns) && Open(cfg, st, n) ==> Blocked(cfg, st, n))
    && (st.missing && Still(st0, st) ==> exists n :: n in turns && Open(cfg, st, n))
    && (forall n :: n in turns && n in cfg.Required() && MakesDefault(cfg, n) && n !in st.clusters ==>
          DEFAULT in st.clusters)
  }

  /** The creation of the needed definition n fails, or that of DEFAULT if it is asked for. */
  ghost predicate Fails(cfg: Config, n: string) {
    if n == DEFAULT then cfg.main.Failed? && Asked(cfg)
    else n in cfg.elements && Needed(cfg, n) && cfg.elements[n].create.Failed?
  }

  /** The required definition n accepts no fleet, but only one serves it. */
  ghost predicate Refuses(cfg: Config, n: string) {
    && n in cfg.elements && n in cfg.Required()
    && cfg.elements[n].create.Absent? && !cfg.elements[n].acceptFleet
    && exists c :: Serves(cfg, n, c) && c.fleet
  }

  ghost predicate Faulty(cfg: Config) {
    exists n :: Fails(cfg, n) || Refuses(cfg, n)
  }

  ghost predicate ErrorOk(cfg: Config, e: Error) {
    match e
    case CreateFailed(n) => Fails(cfg, n)
    case FleetNotAccepted(n) => Refuses(cfg, n)
    case KubeconfigRequired(n) =>
      n in cfg.elements && Needed(cfg, n) && !Served(cfg, n)
  }

  lemma VisitError(cfg: Config, st: State, n: string)
    requires cfg.Valid() && Inv(cfg, st.clusters, st.intermediate) && n in cfg.elements
    ensures var v := Visit(cfg, st, n); v.Err? ==> ErrorOk(cfg, v.error) && !v.error.KubeconfigRequired?
  {
    if Visit(cfg, st, n).Err? {
      WantedNeeded(cfg, st.clusters, st.intermediate, n);
      var def := cfg.elements[n];
      if def.create.Absent? {
        if Lookup(st.clusters, def.fallback).Some? {
          AliasServes(cfg, st.clusters, st.intermediate, n);
        } else {
          assert FallsBack(cfg, n, DEFAULT);
        }
      }
    }
  }

  // The ways a turn can change the state

  ghost predicate Resolving(st: State, n: string, v: State) {
    && v.missing == st.missing && v.found && v.intermediate == st.intermediate
    && v.clusters.Keys == st.clusters.Keys + {n}
    && forall x :: x in st.clusters ==> v.clusters[x] == st.clusters[x]
  }

  ghost predicate Creating(cfg: Config, st: State, n: string, v: State)
    requires n in cfg.elements
  {
    && MakesDefault(cfg, n) && Lookup(st.clusters, DEFAULT).None?
    && v == State(st.clusters[DEFAULT := Cluster(DEFAULT, cfg.main.fleet)],
                  Widen(cfg, st.intermediate, DEFAULT), st.missing, true)
  }

  ghost predicate Deferring(cfg: Config, st: State, n: string, v: State)
    requires n in cfg.elements
  {
    var def := cfg.elements[n];
    && def.create.Absent? && v.missing && v.clusters == st.clusters
    && (def.fallback == "" ==> v.intermediate == st.intermediate && v.found == st.found)
    && (def.fallback != "" ==>
          && Lookup(st.clusters, def.fallback).None?
          && (def.fallback == DEFAULT ==> cfg.main.Absent?)
          && v.intermediate == Widen(cfg, st.intermediate, def.fallback)
          && v.found == (st.found || !Wanted(cfg, st.intermediate, def.fallback)))
  }

  /** What a turn leaves of a name that is not open: nothing changes but for a resolved prefixed name. */
  function Idle(st: State, n: string): State {
    st.(found := st.found || (Prefixed(n) && n in st.clusters))
  }

  lemma VisitIdle(cfg: Config, st: State, n: string)
    requires cfg.Valid() && n in cfg.elements && Inv(cfg, st.clusters, st.intermediate) && !Open(cfg, st, n)
    ensures Visit(cfg, st, n) == Ok(Idle(st, n))
  {
    ElementTarget(cfg, n);
    hide Target, Needed;
    if n in st.clusters {
      assert EntryOk(cfg, st.clusters, st.intermediate, n);
    }
  }

  lemma OpenIsUnseen(cfg: Config, st: State, n: string)
    requires cfg.Valid() && n in cfg.elements && Open(cfg, st, n)
    ensures Lookup(st.clusters, n).None?
  {
    ElementTarget(cfg, n);
    hide Target;
  }

  lemma VisitMakes(cfg: Config, st: State, n: string)
    requires cfg.Valid() && n in cfg.elements && Visit(cfg, st, n).Ok? && Open(cfg, st, n)
    requires var def := cfg.elements[n];
             def.create.Made? || (def.create.Absent? && def.fallback != "" && Lookup(st.clusters, def.fallback).Some?)
    ensures Resolving(st, n, Visit(cfg, st, n).value)
  {
    OpenIsUnseen(cfg, st, n);
    hide Lookup, Config.Valid, Config.Required;
  }

  lemma VisitDefers(cfg: Config, st: State, n: string)
    requires cfg.Valid() && n in cfg.elements && Visit(cfg, st, n).Ok? && Open(cfg, st, n)
    requires var def := cfg.elements[n];
             def.create.Absent? && (def.fallback != "" ==> Lookup(st.clusters, def.fallback).None?)
    ensures var v := Visit(cfg, st, n).value;
            Creating(cfg, st, n, v) || Deferring(cfg, st, n, v)
  {
    OpenIsUnseen(cfg, st, n);
    hide Lookup;
    var def := cfg.elements[n];
    if def.fallback != "" {
      DeferEffect(cfg, st, n);
      hide *;
      DeferCases(cfg, st, n, Visit(cfg, st, n).value);
    } else {
      hide Config.Valid, Config.Required;
    }
  }

  lemma DeferCases(cfg: Config, st: State, n: string, v: State)
    requires n in cfg.elements && cfg.elements[n].create.Absent? && cfg.elements[n].fallback != ""
    requires Lookup(st.clusters, cfg.elements[n].fallback).None?
    requires var fb := cfg.elements[n].fallback;
              && (fb == DEFAULT ==> !cfg.main.Failed?)
              && v.intermediate == Widen(cfg, st.intermediate, fb)
              && v.clusters == (if fb == DEFAULT && cfg.main.Made?
                                then st.clusters[DEFAULT := Cluster(DEFAULT, cfg.main.fleet)] else st.clusters)
              && (v.missing == (st.missing || !(fb == DEFAULT && cfg.main.Made?)))
              && (v.found == (st.found || !Wanted(cfg, st.intermediate, fb) || (fb == DEFAULT && cfg.main.Made?)))
    ensures Creating(cfg, st, n, v) || Deferring(cfg, st, n, v)
  {
    hide Lookup, Wanted, Widen;
  }

  lemma StepResolving(cfg: Config, st0: State, turns: seq<string>, st: State, n: string, v: State,
      creator: Option<string>)
    requires cfg.Valid() && Elems(turns) <= cfg.elements.Keys && n in cfg.elements && n !in turns
    requires PassInv(cfg, st0, turns, st, creator) && creator != Some(n)
    requires Inv(cfg, v.clusters, v.intermediate)
    requires Open(cfg, st, n) && Resolving(st, n, v)
    requires Elems(turns + [n]) <= cfg.elements.Keys
    ensures PassInv(cfg, st0, turns + [n], v, creator)
  {}

  lemma StepCreating(cfg: Config, st0: State, turns: seq<string>, st: State, n: string, v: State,
      creator: Option<string>)
    requires cfg.Valid() && Elems(turns) <= cfg.elements.Keys && n in cfg.elements && n !in turns
    requires PassInv(cfg, st0, turns, st, creator)
    requires Elems(turns + [n]) <= cfg.elements.Keys
    ensures Inv(cfg, v.clusters, v.intermediate) && Open(cfg, st, n) && Creating(cfg, st, n, v) ==>
              PassInv(cfg, st0, turns + [n], v, Some(n))
  {
    if Inv(cfg, v.clusters, v.intermediate) && Open(cfg, st, n) && Creating(cfg, st, n, v) {
      CreatingIsFirst(cfg, st0, turns, st, n, v, creator);
      CreatingGrows(st0, turns, st, n, v, Cluster(DEFAULT, cfg.main.fleet));
      CreatingLeavesNone(cfg, turns, st, n, v);
      hide Target, Lookup, Inv, Config.Required, Grown, Still, Open;
    }
  }

  lemma CreatingLeavesNone(cfg: Config, turns: seq<string>, st: State, n: string, v: State)
    requires cfg.Valid() && Elems(turns) <= cfg.elements.Keys && n in cfg.elements
    requires forall x :: x in turns && Open(cfg, st, x) ==> st.missing
    ensures Creating(cfg, st, n, v) ==> forall x :: x in turns + [n] && Open(cfg, v, x) ==> st.missing || x == n
  {
    hide Lookup, Config.Required, MakesDefault;
    assert forall x :: x in turns ==> x in Elems(turns);
  }

  lemma CreatingGrows(st0: State, turns: seq<string>, st: State, n: string, v: State, c: Cluster)
    requires Grown(st0, turns, st) && DEFAULT !in st.clusters && DEFAULT in v.clusters && !Still(st0, v)
    requires v.clusters == st.clusters[DEFAULT := c] && n !in st.clusters && n != DEFAULT
    requires v.found && st.intermediate <= v.intermediate
    ensures Grown(st0, turns + [n], v)
  {
    hide Prefixed, Still;
  }

  lemma CreatingIsFirst(cfg: Config, st0: State, turns: seq<string>, st: State, n: string, v: State,
      creator: Option<string>)
    requires Elems(turns) <= cfg.elements.Keys && n in cfg.elements
    requires PassInv(cfg, st0, turns, st, creator)
    ensures Creating(cfg, st, n, v) ==> DEFAULT !in st.clusters && !Still(st0, v) && creator == None
  {
    DefaultTarget();
    hide Target, Inv, Config.Required;
  }

  lemma StepDeferring(cfg: Config, st0: State, turns: seq<string>, st: State, n: string, v: State,
      creator: Option<string>)
    requires cfg.Valid() && Elems(turns) <= cfg.elements.Keys && n in cfg.elements && n !in turns
    requires PassInv(cfg, st0, turns, st, creator)
    requires Inv(cfg, v.clusters, v.intermediate)
    requires Open(cfg, st, n) && Deferring(cfg, st, n, v)
    requires Elems(turns + [n]) <= cfg.elements.Keys
    ensures PassInv(cfg, st0, turns + [n], v, creator)
  {
    hide Lookup, Prefixed, Inv, Config.Required;
    assert n in turns + [n];
    assert Still(st0, v) ==> v.intermediate == st.intermediate;
  }

  lemma StepIdle(cfg: Config, st0: State, turns: seq<string>, st: State, n: string, creator: Option<string>)
    requires cfg.Valid() && Elems(turns) <= cfg.elements.Keys && n in cfg.elements && n !in turns
    requires PassInv(cfg, st0, turns, st, creator)
    requires !Open(cfg, st, n)
    requires Elems(turns + [n]) <= cfg.elements.Keys
    ensures PassInv(cfg, st0, turns + [n], Idle(st, n), creator)
  {
    hide Prefixed, Inv;
    assert forall x :: x in turns + [n] <==> x in turns || x == n;
    assert forall x :: x in Elems(turns + [n]) <==> x in Elems(turns) || x == n;
    assert n in turns + [n];
    if st.missing && Still(st0, st) {
      var x :| x in turns && Open(cfg, st, x);
      assert x in turns + [n] && Open(cfg, Idle(st, n), x);
    }
    assert forall x :: Open(cfg, Idle(st, n), x) <==> Open(cfg, st, x);
  }

  lemma TurnFacts(cfg: Config, st0: State, turns: seq<string>, st: State, n: string, creator: Option<string>)
    returns (creator': Option<string>)
    requires cfg.Valid() && Elems(turns) <= cfg.elements.Keys && n in cfg.elements && n !in turns
    requires PassInv(cfg, st0, turns, st, creator) && creator != Some(n) && Visit(cfg, st, n).Ok?
    requires Elems(turns + [n]) <= cfg.elements.Keys
    ensures PassInv(cfg, st0, turns + [n], Visit(cfg, st, n).value, creator')
    ensures creator' == creator || creator' == Some(n)
  {
    var v, def := Visit(cfg, st, n).value, cfg.elements[n];
    creator' := creator;
    assert Inv(cfg, st.clusters, st.intermediate);
    hide PassInv, Inv, Open, Resolving, Creating, Deferring, Lookup, Config.Valid;
    VisitKeepsInv(cfg, st, n);
    if !Open(cfg, st, n) {
      VisitIdle(cfg, st, n);
      StepIdle(cfg, st0, turns, st, n, creator);
    } else if def.create.Made?
              || (def.create.Absent? && def.fallback != "" && Lookup(st.clusters, def.fallback).Some?) {
      VisitMakes(cfg, st, n);
      StepResolving(cfg, st0, turns, st, n, v, creator);
    } else {
      OpenVisitsAbsent(cfg, st, n);
      hide Visit;
      VisitDefers(cfg, st, n);
      if Creating(cfg, st, n, v) {
        StepCreating(cfg, st0, turns, st, n, v, creator);
        creator' := Some(n);
      } else {
        StepDeferring(cfg, st0, turns, st, n, v, creator);
      }
    }
  }

  lemma OpenVisitsAbsent(cfg: Config, st: State, n: string)
    requires cfg.Valid() && n in cfg.elements && Open(cfg, st, n) && Visit(cfg, st, n).Ok?
    ensures !cfg.elements[n].create.Failed?
  {
    OpenIsUnseen(cfg, st, n);
    hide Lookup;
  }

  lemma {:induction false} PassFacts(cfg: Config, st0: State, order: seq<string>) returns (creator: Option<string>)
    requires cfg.Valid() && Inv(cfg, st0.clusters, st0.intermediate)
    requires Distinct(order) && Elems(order) <= cfg.elements.Keys
    ensures RunPass(cfg, st0, order).Ok? ==> PassInv(cfg, st0, order, RunPass(cfg, st0, order).value, creator)
    ensures RunPass(cfg, st0, order).Ok? && creator.Some? ==> creator.value in order
    ensures RunPass(cfg, st0, order).Err? ==>
              ErrorOk(cfg, RunPass(cfg, st0, order).error) && !RunPass(cfg, st0, order).error.KubeconfigRequired?
    decreases |order|
  {
    creator := None;
    if order != [] {
      var k := |order| - 1;
      var turns, n := order[..k], order[k];
      assert order == turns + [n];
      assert n in Elems(order) && Elems(turns) <= Elems(order);
      creator := PassFacts(cfg, st0, turns);
      if RunPass(cfg, st0, turns).Ok? {
        var st := RunPass(cfg, st0, turns).value;
        hide Visit, ErrorOk, Config.Valid;
        assert Inv(cfg, st.clusters, st.intermediate);
        hide PassInv, Inv;
        if Visit(cfg, st, n).Err? {
          VisitError(cfg, st, n);
        } else {
          creator := TurnFacts(cfg, st0, turns, st, n, creator);
        }
      }
    }
  }

  // ------------------------------------------------------------------------------------------
  // How the loop ends

  ghost predicate Permutes(order: seq<string>, names: set<string>) {
    Distinct(order) && Elems(order) == names
  }

  /** At a pass that is not the first, DEFAULT is made if a required definition asks for it. */
  ghost predicate LoopInv(cfg: Config, st: State, first: bool) {
    && Inv(cfg, st.clusters, st.intermediate)
    && (first ==> st.clusters == map[] && st.intermediate == {})
    && (!first ==> forall n :: n in cfg.Required() && MakesDefault(cfg, n) && n !in st.clusters ==>
          DEFAULT in st.clusters)
  }

  /** m resolves within the required names without the help of c. */
  ghost predicate ResolvesBeside(cfg: Config, c: string, m: string)
    requires m in cfg.elements
  {
    var def := cfg.elements[m];
    || def.create.Made?
    || (&& def.create.Absent? && def.fallback != "" && Target(def.fallback).Some?
        && (var t := Target(def.fallback).value;
            t == DEFAULT || (t in cfg.Required() && t in cfg.elements && t != c))
        && (exists w :: Walks(cfg, m, w) && (w.fleet ==> def.acceptFleet)))
  }

  /** The exact inputs for which a successful validation can leave the required name c out. */
  ghost predicate Loses(cfg: Config, c: string) {
    && c in cfg.Required() && MakesDefault(cfg, c)
    && forall m :: m in cfg.elements && m in cfg.Required() && m != c ==> ResolvesBeside(cfg, c, m)
  }

  ghost predicate CleanEnd(cfg: Config, st: State, creator: Option<string>) {
    && Inv(cfg, st.clusters, st.intermediate) && !st.missing
    && (creator.Some? ==>
          MakesDefault(cfg, creator.value) && creator.value !in st.clusters && DEFAULT in st.clusters)
    && forall n :: n in cfg.elements && Open(cfg, st, n) ==> creator == Some(n)
  }

  lemma {:induction false} CleanWanted(cfg: Config, st: State, creator: Option<string>, n: string, k: nat)
    requires cfg.Valid() && CleanEnd(cfg, st, creator)
    requires n in cfg.elements && NeededIn(cfg, n, k)
    ensures Wanted(cfg, st.intermediate, n)
    decreases k
  {
    if k > 0 && !NeededIn(cfg, n, k - 1) {
      var m :| FallsBack(cfg, m, n) && NeededIn(cfg, m, k - 1);
      CleanWanted(cfg, st, creator, m, k - 1);
      ElementTarget(cfg, n);
      assert EntryOk(cfg, st.clusters, st.intermediate, m);
      assert EntryOk(cfg, st.clusters, st.intermediate, n);
    } else if k > 0 {
      CleanWanted(cfg, st, creator, n, k - 1);
    }
  }

  /** A clean stop resolves every needed name but possibly the one whose turn made DEFAULT. */
  lemma CleanResolves(cfg: Config, st: State, creator: Option<string>, n: string)
    requires cfg.Valid() && CleanEnd(cfg, st, creator)
    requires n in cfg.elements && Needed(cfg, n)
    ensures n in st.clusters || creator == Some(n)
  {
    var k: nat :| NeededIn(cfg, n, k);
    CleanWanted(cfg, st, creator, n, k);
  }

  /** A clean stop resolves DEFAULT exactly if it can be created and some needed definition asks for it. */
  lemma CleanDefault(cfg: Config, st: State, creator: Option<string>)
    requires cfg.Valid() && CleanEnd(cfg, st, creator)
    ensures DEFAULT in st.clusters <==> cfg.main.Made? && Asked(cfg)
  {
    if DEFAULT in st.clusters {
      assert EntryOk(cfg, st.clusters, st.intermediate, DEFAULT);
    }
    if cfg.main.Made? && Asked(cfg) {
      var m :| FallsBack(cfg, m, DEFAULT) && Needed(cfg, m);
      CleanResolves(cfg, st, creator, m);
      DefaultTarget();
      if m in st.clusters {
        assert EntryOk(cfg, st.clusters, st.intermediate, m);
      }
    }
  }

  lemma LostIsRequired(cfg: Config, st: State, c: string)
    requires cfg.Valid() && CleanEnd(cfg, st, Some(c)) && Wanted(cfg, st.intermediate, c)
    ensures c in cfg.Required()
  {
    if c in st.intermediate {
      assert WantedOk(cfg, c);
      var m :| FallsBack(cfg, m, c) && Needed(cfg, m);
      CleanResolves(cfg, st, Some(c), m);
      assert EntryOk(cfg, st.clusters, st.intermediate, m);
      ElementTarget(cfg, c);
    }
  }

  lemma LostLoses(cfg: Config, st: State, c: string)
    requires cfg.Valid() && CleanEnd(cfg, st, Some(c))
    requires c in cfg.Required() && st.intermediate <= {DEFAULT}
    ensures Loses(cfg, c)
  {
    forall m | m in cfg.elements && m in cfg.Required() && m != c
      ensures ResolvesBeside(cfg, c, m)
    {
      assert EntryOk(cfg, st.clusters, st.intermediate, m);
      ServesWalks(cfg, m, st.clusters[m]);
      if cfg.elements[m].create.Absent? {
        var t := Target(cfg.elements[m].fallback).value;
        assert EntryOk(cfg, st.clusters, st.intermediate, t);
      }
    }
  }

  /** Every open name waits for something that is not there. */
  ghost predicate Stuck(cfg: Config, st: State) {
    && Inv(cfg, st.clusters, st.intermediate)
    && forall m :: m in cfg.elements && Open(cfg, st, m) ==> Blocked(cfg, st, m)
  }

  lemma {:induction false} StuckWanted(cfg: Config, st: State, n: string, k: nat)
    requires cfg.Valid() && Stuck(cfg, st) && n in cfg.elements && NeededIn(cfg, n, k)
    ensures Wanted(cfg, st.intermediate, n)
    decreases k
  {
    if k > 0 && !NeededIn(cfg, n, k - 1) {
      var m :| FallsBack(cfg, m, n) && NeededIn(cfg, m, k - 1);
      StuckWanted(cfg, st, m, k - 1);
      ElementTarget(cfg, n);
      if m in st.clusters {
        assert EntryOk(cfg, st.clusters, st.intermediate, m);
        assert EntryOk(cfg, st.clusters, st.intermediate, n);
      }
    } else if k > 0 {
      StuckWanted(cfg, st, n, k - 1);
    }
  }

  lemma StuckDefault(cfg: Config, st: State)
    requires cfg.Valid() && Stuck(cfg, st) && cfg.main.Made? && Asked(cfg)
    ensures DEFAULT in st.clusters
  {
    var m :| FallsBack(cfg, m, DEFAULT) && Needed(cfg, m);
    var k: nat :| NeededIn(cfg, m, k);
    StuckWanted(cfg, st, m, k);
    DefaultTarget();
    if m in st.clusters {
      assert EntryOk(cfg, st.clusters, st.intermediate, m);
    }
  }

  lemma StuckIsBlocked(cfg: Config, st: State, n: string)
    requires cfg.Valid() && Stuck(cfg, st) && n in cfg.elements && n !in st.clusters && Needed(cfg, n)
    ensures Blocked(cfg, st, n)
  {
    var l: nat :| NeededIn(cfg, n, l);
    StuckWanted(cfg, st, n, l);
  }

  /** The chain of a blocked name ends, or leads on to a name that is not resolved either. */
  lemma StuckHop(cfg: Config, st: State, n: string, k: nat) returns (t: string)
    requires cfg.Valid() && n in cfg.elements && n != DEFAULT && Needed(cfg, n) && Blocked(cfg, st, n)
    ensures if (t == DEFAULT || t in cfg.elements) && t !in st.clusters && k > 0
            then NeededChain(cfg, n, k) == NeededChain(cfg, t, k - 1) else NeededChain(cfg, n, k) == None
  {
    var fb := cfg.elements[n].fallback;
    t := n;
    if k > 0 && fb != "" && Target(fb).Some? {
      t := Target(fb).value;
      ChainSteps(cfg, n, k, t);
      hide Target;
      if t != DEFAULT && t !in cfg.elements {
        OutsideChain(cfg, t, k - 1);
      }
    } else {
      hide Target, Lookup;
    }
  }

  /** Without any progress, no unresolved name has a walk along needed names to a configured definition. */
  lemma {:induction false} StuckChain(cfg: Config, st: State, n: string, k: nat)
    requires cfg.Valid() && Stuck(cfg, st) && (n == DEFAULT || n in cfg.elements) && n !in st.clusters
    ensures NeededChain(cfg, n, k) == None
    decreases k
  {
    if n == DEFAULT {
      if cfg.main.Made? && Asked(cfg) {
        StuckDefault(cfg, st);
      }
    } else if Needed(cfg, n) {
      StuckIsBlocked(cfg, st, n);
      var t := StuckHop(cfg, st, n, k);
      hide *;
      if (t == DEFAULT || t in cfg.elements) && t !in st.clusters && k > 0 {
        StuckChain(cfg, st, t, k - 1);
      }
    }
  }

  /** Without any progress exactly the served names are resolved. */
  lemma StuckExactly(cfg: Config, st: State, n: string)
    requires cfg.Valid() && Stuck(cfg, st) && n in cfg.elements
    ensures n in st.clusters <==> Served(cfg, n)
  {
    if n in st.clusters {
      assert EntryOk(cfg, st.clusters, st.intermediate, n);
    } else {
      forall k: nat
        ensures NeededChain(cfg, n, k) == None
      {
        StuckChain(cfg, st, n, k);
      }
    }
  }

  lemma StuckError(cfg: Config, st: State, n: string)
    requires cfg.Valid() && Stuck(cfg, st) && n in cfg.elements && Open(cfg, st, n)
    ensures ErrorOk(cfg, KubeconfigRequired(n))
  {
    WantedNeeded(cfg, st.clusters, st.intermediate, n);
    StuckExactly(cfg, st, n);
  }

  /** A resolved name does not come from a definition whose creation fails. */
  lemma ResolvedIsMade(cfg: Config, clusters: map<string, Cluster>, wanted: set<string>, n: string)
    requires Inv(cfg, clusters, wanted) && n in clusters
    ensures if n == DEFAULT then cfg.main.Made? else n in cfg.elements && !cfg.elements[n].create.Failed?
  {
    hide Needed, Asked, Wanted, Lookup;
    assert EntryOk(cfg, clusters, wanted, n);
  }

  lemma StuckFailsNot(cfg: Config, st: State, n: string)
    requires cfg.Valid() && Stuck(cfg, st) && n in cfg.elements
    ensures !Fails(cfg, n)
  {
    if n in st.clusters {
      ResolvedIsMade(cfg, st.clusters, st.intermediate, n);
    } else if Needed(cfg, n) {
      StuckIsBlocked(cfg, st, n);
    }
  }

  lemma StuckDefaultFailsNot(cfg: Config, st: State)
    requires cfg.Valid() && Stuck(cfg, st)
    ensures !Fails(cfg, DEFAULT)
  {
    if m :| FallsBack(cfg, m, DEFAULT) && Needed(cfg, m) {
      DefaultTarget();
      if m in st.clusters {
        assert EntryOk(cfg, st.clusters, st.intermediate, m);
        ResolvedIsMade(cfg, st.clusters, st.intermediate, DEFAULT);
      } else {
        StuckIsBlocked(cfg, st, m);
      }
    }
  }

  lemma StuckRefusesNot(cfg: Config, st: State, n: string)
    requires cfg.Valid() && Stuck(cfg, st)
    ensures !Refuses(cfg, n)
  {
    if n in cfg.elements && Served(cfg, n) {
      StuckExactly(cfg, st, n);
      assert EntryOk(cfg, st.clusters, st.intermediate, n);
      ServesWalks(cfg, n, st.clusters[n]);
      forall c | Serves(cfg, n, c)
        ensures c == st.clusters[n]
      {
        ServesWalks(cfg, n, c);
        WalkUnique(cfg, n, c, st.clusters[n]);
      }
    }
  }

  /** Nothing more can be resolved or added only if the configuration has no fault. */
  lemma StuckIsNotFaulty(cfg: Config, st: State)
    requires cfg.Valid() && Stuck(cfg, st)
    ensures !Faulty(cfg)
  {
    forall n
      ensures !Fails(cfg, n) && !Refuses(cfg, n)
    {
      StuckRefusesNot(cfg, st, n);
      StuckDefaultFailsNot(cfg, st);
      if n in cfg.elements {
        StuckFailsNot(cfg, st, n);
      }
    }
  }

  // --- Fallbacks with a separator

  /** On the chain of n, every fallback with a separator denotes a name that is needed otherwise. */
  ghost predicate Follows(cfg: Config, n: string, k: nat)
    decreases k
  {
    n in cfg.elements && cfg.elements[n].create.Absent? && k > 0 ==>
      match Target(cfg.elements[n].fallback)
      case None => true
      case Some(t) =>
        && (Keys.MEMBER in cfg.elements[n].fallback ==> if t == DEFAULT then Asked(cfg) else Needed(cfg, t))
        && Follows(cfg, t, k - 1)
  }

  lemma ChainSteps(cfg: Config, n: string, k: nat, t: string)
    requires n in cfg.elements && n != DEFAULT && Needed(cfg, n) && cfg.elements[n].create.Absent? && k > 0
    requires cfg.elements[n].fallback != "" && Target(cfg.elements[n].fallback) == Some(t)
    ensures NeededChain(cfg, n, k) == NeededChain(cfg, t, k - 1) && Chain(cfg, n, k) == Chain(cfg, t, k - 1)
    ensures Follows(cfg, n, k) <==>
            && (Keys.MEMBER in cfg.elements[n].fallback ==> if t == DEFAULT then Asked(cfg) else Needed(cfg, t))
            && Follows(cfg, t, k - 1)
  {
    hide Target, Asked, Needed;
  }

  lemma ChainEnds(cfg: Config, n: string, k: nat)
    requires n in cfg.elements && n != DEFAULT && Needed(cfg, n)
    requires cfg.elements[n].create.Absent? ==>
               k == 0 || cfg.elements[n].fallback == "" || Target(cfg.elements[n].fallback) == None
    ensures NeededChain(cfg, n, k) == Chain(cfg, n, k) && (Chain(cfg, n, k).Some? ==> Follows(cfg, n, k))
  {
    hide Target, Asked, Needed;
  }

  lemma PlainFallbackIsNeeded(cfg: Config, n: string)
    requires n in cfg.elements && Needed(cfg, n) && cfg.elements[n].create.Absent?
    requires Keys.MEMBER !in cfg.elements[n].fallback && cfg.elements[n].fallback != ""
    ensures var t := cfg.elements[n].fallback;
            Target(t) == Some(t) && if t == DEFAULT then Asked(cfg) else Needed(cfg, t)
  {
    PlainTarget(cfg.elements[n].fallback);
    hide Target;
    assert FallsBack(cfg, n, cfg.elements[n].fallback);
    NeededStep(cfg, n, cfg.elements[n].fallback);
  }

  /** Resolution follows the plain chain of a needed name exactly as far as this holds. */
  lemma {:induction false} FollowsExactly(cfg: Config, n: string, k: nat, c: Cluster)
    requires cfg.Valid() && n in cfg.elements && Needed(cfg, n)
    ensures NeededChain(cfg, n, k) == Some(c) <==> Chain(cfg, n, k) == Some(c) && Follows(cfg, n, k)
    decreases k
  {
    var def := cfg.elements[n];
    if !def.create.Absent? || k == 0 || def.fallback == "" || Target(def.fallback).None? {
      ChainEnds(cfg, n, k);
    } else {
      var t := Target(def.fallback).value;
      if Keys.MEMBER !in def.fallback {
        PlainFallbackIsNeeded(cfg, n);
      }
      ChainSteps(cfg, n, k, t);
      if t in cfg.elements && Needed(cfg, t) {
        hide *;
        FollowsExactly(cfg, t, k - 1, c);
      } else {
        OutsideChain(cfg, t, k - 1);
      }
    }
  }

  lemma OutsideChain(cfg: Config, t: string, k: nat)
    requires cfg.Valid() && (t in cfg.elements ==> !Needed(cfg, t))
    ensures Follows(cfg, t, k) || t in cfg.elements
    ensures NeededChain(cfg, t, k) == if t == DEFAULT && Asked(cfg) then Chain(cfg, t, k) else None
    ensures t !in cfg.elements && t != DEFAULT ==> Chain(cfg, t, k) == None
  {
    hide Target, Asked, Needed;
  }

  /** Where no fallback has a separator, a needed name is served exactly by the end of its plain chain. */
  lemma PlainFallbacksServe(cfg: Config, n: string, c: Cluster)
    requires cfg.Valid() && n in cfg.elements && Needed(cfg, n)
    requires forall m :: m in cfg.elements ==> Keys.MEMBER !in cfg.elements[m].fallback
    ensures Serves(cfg, n, c) <==> Walks(cfg, n, c)
  {
    forall k: nat
      ensures NeededChain(cfg, n, k) == Some(c) <==> Chain(cfg, n, k) == Some(c)
    {
      FollowsExactly(cfg, n, k, c);
      PlainFollows(cfg, n, k);
    }
  }

  lemma {:induction false} PlainFollows(cfg: Config, n: string, k: nat)
    requires forall m :: m in cfg.elements ==> Keys.MEMBER !in cfg.elements[m].fallback
    ensures Follows(cfg, n, k)
    decreases k
  {
    hide Target;
    if n in cfg.elements && cfg.elements[n].create.Absent? && k > 0 && Target(cfg.elements[n].fallback).Some? {
      PlainFollows(cfg, Target(cfg.elements[n].fallback).value, k - 1);
    }
  }

  /** The result of a validation without error. */
  ghost predicate Resolution(cfg: Config, clusters: map<string, Cluster>) {
    // sound: only needed names, each with the cluster at the end of its chain
    && (forall n :: n in clusters ==> Needed(cfg, n) && Serves(cfg, n, clusters[n]))
    && (forall n :: n in clusters ==> n in cfg.elements || n == DEFAULT)
    && (forall n | n in clusters && n in cfg.elements && n in cfg.Required() && cfg.elements[n].create.Absent? ::
          clusters[n].fleet ==> cfg.elements[n].acceptFleet)
    // complete: DEFAULT if it is asked for, and all needed definitions but at most one, and that one only for
    // losing inputs
    && (DEFAULT in clusters <==> cfg.main.Made? && Asked(cfg))
    && (forall n :: n in cfg.elements && Needed(cfg, n) && n !in clusters ==> Loses(cfg, n))
    && (forall n, m | n in cfg.elements && m in cfg.elements && Needed(cfg, n) && Needed(cfg, m) ::
          n !in clusters && m !in clusters ==> n == m)
  }

  /** A needed name that a successful validation leaves out is a losable definition, or DEFAULT that cannot be
      created or that no needed definition falls back to, or a name that is not declared at all. */
  lemma UnresolvedExactly(cfg: Config, clusters: map<string, Cluster>, n: string)
    requires cfg.Valid() && Resolution(cfg, clusters) && Needed(cfg, n)
    ensures n !in clusters ==>
              if n in cfg.elements then Loses(cfg, n) else n == DEFAULT ==> !cfg.main.Made? || !Asked(cfg)
    ensures n !in cfg.elements ==> (n in clusters <==> n == DEFAULT && cfg.main.Made? && Asked(cfg))
  {}

  /** Two successful validations, whatever their iteration orders, agree on every name both resolve
      and can differ in losable names only. */
  lemma OrderIndependent(cfg: Config, a: map<string, Cluster>, b: map<string, Cluster>, n: string)
    requires Resolution(cfg, a) && Resolution(cfg, b) && n in a
    ensures if n in b then a[n] == b[n] else n in cfg.elements && Loses(cfg, n)
  {
    if n in b {
      ServesWalks(cfg, n, a[n]);
      ServesWalks(cfg, n, b[n]);
      WalkUnique(cfg, n, a[n], b[n]);
    }
  }

  lemma CleanPass(cfg: Config, st0: State, first: bool, order: seq<string>)
    requires cfg.Valid() && LoopInv(cfg, st0, first) && Permutes(order, cfg.elements.Keys)
    requires RunPass(cfg, st0, order).Ok? && !RunPass(cfg, st0, order).value.missing
    ensures Resolution(cfg, RunPass(cfg, st0, order).value.clusters)
  {
    var creator := PassFacts(cfg, st0, order);
    var st := RunPass(cfg, st0, order).value;
    forall n | n in cfg.elements && Open(cfg, st, n)
      ensures creator == Some(n)
    {
      assert n in Elems(order);
    }
    assert CleanEnd(cfg, st, creator);
    CleanDefault(cfg, st, creator);
    forall n | n in st.clusters
      ensures Needed(cfg, n) && Serves(cfg, n, st.clusters[n]) && (n in cfg.elements || n == DEFAULT)
    {
      assert EntryOk(cfg, st.clusters, st.intermediate, n);
    }
    forall n | n in cfg.elements && n !in st.clusters && Needed(cfg, n)
      ensures Loses(cfg, n) && creator == Some(n)
    {
      CleanResolves(cfg, st, creator, n);
      var k: nat :| NeededIn(cfg, n, k);
      CleanWanted(cfg, st, creator, n, k);
      LostIsRequired(cfg, st, n);
      assert first;
      LostLoses(cfg, st, n);
    }
  }

  /** A name that the search for the missing kubeconfig stops at. */
  predicate Unseen(cfg: Config, st: State, n: string) {
    Wanted(cfg, st.intermediate, n) && Lookup(st.clusters, n).None?
  }

  /** The end of a loop that misses something: there is no fault, some name is reported, any of them with reason, and
      the served names are resolved. */
  ghost predicate StuckEnd(cfg: Config, st: State) {
    && !Faulty(cfg)
    && (exists n :: n in cfg.elements && Unseen(cfg, st, n))
    && (forall n :: n in cfg.elements && Unseen(cfg, st, n) ==> ErrorOk(cfg, KubeconfigRequired(n)))
    && ServedOnly(cfg, st.clusters)
  }

  ghost predicate ServedOnly(cfg: Config, clusters: map<string, Cluster>) {
    forall n :: n in cfg.elements ==> (n in clusters <==> Served(cfg, n))
  }

  /** The declared names that denote nothing: prefixed ones even if they are resolved. */
  function Disabled(cfg: Config, clusters: map<string, Cluster>): set<string> {
    set n | n in cfg.elements && Lookup(clusters, n).None?
  }

  lemma StuckPass(cfg: Config, st0: State, first: bool, order: seq<string>)
    requires cfg.Valid() && LoopInv(cfg, st0, first) && Permutes(order, cfg.elements.Keys)
    requires RunPass(cfg, st0, order).Ok?
    requires RunPass(cfg, st0, order).value.missing && !RunPass(cfg, st0, order).value.found
    ensures StuckEnd(cfg, RunPass(cfg, st0, order).value)
  {
    var creator := PassFacts(cfg, st0, order);
    var st := RunPass(cfg, st0, order).value;
    assert PassInv(cfg, st0, order, st, creator);
    forall n | n in cfg.elements
      ensures n in order
      ensures Open(cfg, st, n) ==> Blocked(cfg, st, n)
      ensures Open(cfg, st, n) <==> Unseen(cfg, st, n)
    {
      assert n in Elems(order);
      ElementTarget(cfg, n);
    }
    assert Stuck(cfg, st);
    StuckIsNotFaulty(cfg, st);
    forall n | n in cfg.elements
      ensures Unseen(cfg, st, n) ==> ErrorOk(cfg, KubeconfigRequired(n))
      ensures n in st.clusters <==> Served(cfg, n)
    {
      StuckExactly(cfg, st, n);
      if Open(cfg, st, n) {
        StuckError(cfg, st, n);
      }
    }
    var w :| w in order && Open(cfg, st, w);
    assert w in Elems(order);
  }

  /** A pass that goes on has kept the loop invariant and made progress within a finite bound. */
  lemma ContinuedPass(cfg: Config, st0: State, first: bool, order: seq<string>)
    requires cfg.Valid() && LoopInv(cfg, st0, first) && Permutes(order, cfg.elements.Keys)
    requires RunPass(cfg, st0, order).Ok?
    ensures var st := RunPass(cfg, st0, order).value;
      && LoopInv(cfg, st, false)
      && st0.clusters.Keys <= st.clusters.Keys <= cfg.elements.Keys + {DEFAULT}
      && st0.intermediate <= st.intermediate <= Fallbacks(cfg)
      && (st.found <==> !Still(st0, st) || exists n :: n in st.clusters && Prefixed(n))
  {
    var creator := PassFacts(cfg, st0, order);
    var st := RunPass(cfg, st0, order).value;
    DefaultPrefix();
    forall n | n in cfg.Required() && MakesDefault(cfg, n) && n !in st.clusters
      ensures DEFAULT in st.clusters
    {
      assert n in Elems(order);
    }
    forall n | n in st.clusters
      ensures n in cfg.elements.Keys + {DEFAULT}
      ensures n in order || n == DEFAULT
    {
      assert EntryOk(cfg, st.clusters, st.intermediate, n);
      assert n in cfg.elements ==> n in Elems(order);
    }
    forall n | n in st.intermediate
      ensures n in Fallbacks(cfg)
    {
      assert WantedOk(cfg, n);
    }
  }

  lemma OneMoreTurn(cfg: Config, st0: State, turns: seq<string>, m: string)
    requires Elems(turns) <= cfg.elements.Keys && m in cfg.elements && RunPass(cfg, st0, turns).Ok?
    ensures Elems(turns + [m]) <= cfg.elements.Keys
    ensures RunPass(cfg, st0, turns + [m]) == Visit(cfg, RunPass(cfg, st0, turns).value, m)
  {}

  /** The first pass misses nothing. */
  ghost predicate SettlesAtOnce(cfg: Config, order: seq<string>) {
    Permutes(order, cfg.elements.Keys) && RunPass(cfg, START, order).Ok? && !RunPass(cfg, START, order).value.missing
  }
}
