/** The loop of validation over its passes (cluster/defs.go): its result, and when it ends. */
module FallbackLoop {
  import opened Wrappers
  import opened Graphs
  import opened Fallback
  import Keys

  lemma {:induction false} ErrorStopsPass(cfg: Config, st: State, order: seq<string>, k: nat)
    requires Elems(order) <= cfg.elements.Keys && k <= |order|
    requires Elems(order[..k]) <= cfg.elements.Keys && RunPass(cfg, st, order[..k]).Err?
    ensures RunPass(cfg, st, order) == RunPass(cfg, st, order[..k])
    decreases |order|
  {
    if k < |order| {
      var shorter := order[..|order| - 1];
      assert Elems(shorter) <= Elems(order);
      assert shorter[..k] == order[..k];
      ErrorStopsPass(cfg, st, shorter, k);
    } else {
      assert order[..k] == order;
    }
  }

  /** The state in front of pass number `pass`. */
  ghost predicate BeforePass(cfg: Config, orders: nat -> seq<string>, pass: nat, st: State) {
    && LoopInv(cfg, st, pass == 0)
    && (pass == 0 ==> st == START)
    && (pass > 0 && SettlesAtOnce(cfg, orders(0)) ==> pass == 1 && RunPass(cfg, START, orders(0)) == Ok(st))
    && (!st.missing ==> Resolution(cfg, st.clusters))
    && (st.missing && !st.found ==> StuckEnd(cfg, st))
  }

  lemma OnePass(cfg: Config, orders: nat -> seq<string>, pass: nat, st0: State)
    requires cfg.Valid() && Permutes(orders(pass), cfg.elements.Keys)
    requires BeforePass(cfg, orders, pass, st0) && st0.missing && st0.found
    ensures RunPass(cfg, st0, orders(pass)).Ok? ==>
              BeforePass(cfg, orders, pass + 1, RunPass(cfg, st0, orders(pass)).value)
    ensures RunPass(cfg, st0, orders(pass)).Err? ==>
              && ErrorOk(cfg, RunPass(cfg, st0, orders(pass)).error) && !SettlesAtOnce(cfg, orders(0))
              && !RunPass(cfg, st0, orders(pass)).error.KubeconfigRequired?
  {
    var order := orders(pass);
    var creator := PassFacts(cfg, st0, order);
    if RunPass(cfg, st0, order).Ok? {
      var st := RunPass(cfg, st0, order).value;
      ContinuedPass(cfg, st0, pass == 0, order);
      if !st.missing {
        CleanPass(cfg, st0, pass == 0, order);
      } else if !st.found {
        StuckPass(cfg, st0, pass == 0, order);
      }
    }
  }

  // ------------------------------------------------------------------------------------------
  // When the loop ends

  /** Every pass visits all definitions, in an order of its own. */
  ghost predicate AllPermute(cfg: Config, orders: nat -> seq<string>) {
    forall k: nat :: Permutes(orders(k), cfg.elements.Keys)
  }

  /** The state after so many passes, or where the loop has ended before. */
  ghost function After(cfg: Config, orders: nat -> seq<string>, pass: nat): Result<State, Error>
    requires AllPermute(cfg, orders)
  {
    if pass == 0 then Ok(START)
    else match After(cfg, orders, pass - 1)
      case Err(e) => Err(e)
      case Ok(st) => if st.missing && st.found then RunPass(cfg, st, orders(pass - 1)) else Ok(st)
  }

  ghost predicate GoesOn(r: Result<State, Error>) {
    r.Ok? && r.value.missing && r.value.found
  }

  ghost predicate Ends(cfg: Config, orders: nat -> seq<string>)
    requires AllPermute(cfg, orders)
  {
    exists k: nat :: !GoesOn(After(cfg, orders, k))
  }

  /** Every needed definition can be resolved. */
  ghost predicate AllServed(cfg: Config) {
    forall n :: n in cfg.elements && Needed(cfg, n) ==> Served(cfg, n)
  }

  /** Something is missed for good, and a resolved prefixed name is found again in every pass. */
  ghost predicate Restless(cfg: Config) {
    && !AllServed(cfg)
    && (exists n :: n in cfg.elements && Prefixed(n) && Served(cfg, n))
  }

  lemma MakerIsServed(cfg: Config, c: string)
    requires MakesDefault(cfg, c) && Needed(cfg, c) && cfg.Valid()
    ensures Served(cfg, c)
  {
    assert FallsBack(cfg, c, DEFAULT) && Asked(cfg);
    DefaultTarget();
    assert NeededChain(cfg, DEFAULT, 0) == Some(Cluster(DEFAULT, cfg.main.fleet));
    assert NeededChain(cfg, c, 1) == Some(Cluster(DEFAULT, cfg.main.fleet));
    assert Serves(cfg, c, Cluster(DEFAULT, cfg.main.fleet));
  }

  /** A needed name without a walk is missed in every pass, and a served prefixed name found. */
  lemma PassIsRestless(cfg: Config, st0: State, first: bool, order: seq<string>)
    requires cfg.Valid() && LoopInv(cfg, st0, first) && Permutes(order, cfg.elements.Keys)
    requires RunPass(cfg, st0, order).Ok?
    ensures var st := RunPass(cfg, st0, order).value;
      && (!AllServed(cfg) ==> st.missing)
      && ((exists n :: n in cfg.elements && Prefixed(n) && Served(cfg, n)) ==> st.found)
  {
    var creator := PassFacts(cfg, st0, order);
    var st := RunPass(cfg, st0, order).value;
    assert PassInv(cfg, st0, order, st, creator);
    assert forall n :: n in cfg.elements ==> n in Elems(order) && n in order;
    forall n | n in cfg.elements && Needed(cfg, n) && !st.missing
      ensures Served(cfg, n)
    {
      assert CleanEnd(cfg, st, creator);
      CleanResolves(cfg, st, creator, n);
      if n !in st.clusters {
        MakerIsServed(cfg, n);
      } else {
        assert EntryOk(cfg, st.clusters, st.intermediate, n);
      }
    }
    forall n | n in cfg.elements && Served(cfg, n) && !st.found
      ensures !Prefixed(n)
    {
      assert Stuck(cfg, st);
      StuckExactly(cfg, st, n);
    }
  }

  /** What the loop needs in order to end, whatever the iteration orders. */
  ghost predicate Settles(cfg: Config) {
    !Restless(cfg) || Faulty(cfg)
  }

  /** Otherwise a pass that goes on has resolved or added a name. */
  lemma PassGrows(cfg: Config, st0: State, first: bool, order: seq<string>)
    requires cfg.Valid() && LoopInv(cfg, st0, first) && Permutes(order, cfg.elements.Keys)
    requires GoesOn(RunPass(cfg, st0, order)) && Settles(cfg)
    ensures !Still(st0, RunPass(cfg, st0, order).value)
  {
    var creator := PassFacts(cfg, st0, order);
    var st := RunPass(cfg, st0, order).value;
    assert PassInv(cfg, st0, order, st, creator);
    if Still(st0, st) {
      var s :| s in order && Prefixed(s) && s in st.clusters;
      var n :| n in order && Open(cfg, st, n);
      assert s in Elems(order) && n in Elems(order);
      assert forall m :: m in cfg.elements ==> m in Elems(order);
      assert Stuck(cfg, st);
      StuckIsNotFaulty(cfg, st);
      StuckExactly(cfg, st, s);
      StuckExactly(cfg, st, n);
      WantedNeeded(cfg, st.clusters, st.intermediate, n);
      assert false;
    }
  }

  lemma {:induction false} AfterKeepsInv(cfg: Config, orders: nat -> seq<string>, pass: nat)
    requires cfg.Valid() && AllPermute(cfg, orders)
    ensures After(cfg, orders, pass).Ok? ==> LoopInv(cfg, After(cfg, orders, pass).value, pass == 0)
    ensures After(cfg, orders, pass).Err? ==>
              ErrorOk(cfg, After(cfg, orders, pass).error) && !After(cfg, orders, pass).error.KubeconfigRequired?
    ensures Restless(cfg) && After(cfg, orders, pass).Ok? ==> GoesOn(After(cfg, orders, pass))
  {
    if pass > 0 {
      AfterKeepsInv(cfg, orders, pass - 1);
      hide RunPass, ErrorOk;
      if GoesOn(After(cfg, orders, pass - 1)) {
        var st := After(cfg, orders, pass - 1).value;
        var _ := PassFacts(cfg, st, orders(pass - 1));
        if RunPass(cfg, st, orders(pass - 1)).Ok? {
          ContinuedPass(cfg, st, pass == 1, orders(pass - 1));
          PassIsRestless(cfg, st, pass == 1, orders(pass - 1));
        }
      }
    }
  }

  /** What is left to be resolved and to be added. */
  ghost function Left(cfg: Config, st: State): nat {
    |cfg.elements.Keys + {DEFAULT} - st.clusters.Keys| + |Fallbacks(cfg) - st.intermediate|
  }

  lemma Remaining<T>(all: set<T>, s: set<T>, t: set<T>)
    requires s <= t <= all
    ensures |all - t| <= |all - s| && (s != t ==> |all - t| < |all - s|)
  {
    assert all - s == (all - t) + (t - s);
  }

  lemma LessIsLeft(cfg: Config, st0: State, st: State)
    requires st0.clusters.Keys <= st.clusters.Keys <= cfg.elements.Keys + {DEFAULT}
    requires st0.intermediate <= st.intermediate <= Fallbacks(cfg) && !Still(st0, st)
    ensures Left(cfg, st) < Left(cfg, st0)
  {
    hide Fallbacks;
    Remaining(cfg.elements.Keys + {DEFAULT}, st0.clusters.Keys, st.clusters.Keys);
    Remaining(Fallbacks(cfg), st0.intermediate, st.intermediate);
  }

  lemma {:induction false} EndsFrom(cfg: Config, orders: nat -> seq<string>, pass: nat, left: nat)
    returns (last: nat)
    requires cfg.Valid() && AllPermute(cfg, orders)
    requires After(cfg, orders, pass).Ok? && left == Left(cfg, After(cfg, orders, pass).value)
    ensures Settles(cfg) ==> !GoesOn(After(cfg, orders, last))
    decreases left
  {
    hide AllPermute, After, Settles, Left, Config.Valid;
    last := pass;
    if Settles(cfg) && GoesOn(After(cfg, orders, pass)) {
      last := pass + 1;
      if GoesOn(After(cfg, orders, pass + 1)) {
        LeftShrinks(cfg, orders, pass);
        last := EndsFrom(cfg, orders, pass + 1, Left(cfg, After(cfg, orders, pass + 1).value));
      }
    }
  }

  lemma LeftShrinks(cfg: Config, orders: nat -> seq<string>, pass: nat)
    requires cfg.Valid() && AllPermute(cfg, orders) && Settles(cfg)
    requires GoesOn(After(cfg, orders, pass)) && GoesOn(After(cfg, orders, pass + 1))
    ensures After(cfg, orders, pass + 1).Ok?
    ensures Left(cfg, After(cfg, orders, pass + 1).value) < Left(cfg, After(cfg, orders, pass).value)
  {
    var st := After(cfg, orders, pass).value;
    AfterKeepsInv(cfg, orders, pass);
    OneMorePass(cfg, orders, pass, st);
    PassGoesOn(cfg, orders(pass), pass == 0, st);
  }

  lemma PassGoesOn(cfg: Config, order: seq<string>, first: bool, st: State)
    requires cfg.Valid() && Permutes(order, cfg.elements.Keys) && Settles(cfg)
    requires LoopInv(cfg, st, first) && GoesOn(RunPass(cfg, st, order))
    ensures Left(cfg, RunPass(cfg, st, order).value) < Left(cfg, st)
  {
    ContinuedPass(cfg, st, first, order);
    PassGrows(cfg, st, first, order);
    LessIsLeft(cfg, st, RunPass(cfg, st, order).value);
  }

  /** Whatever the iteration orders, the loop ends unless a needed name is not served while a prefixed one is, and the
      configuration has no fault. */
  lemma EndsExactly(cfg: Config, orders: nat -> seq<string>)
    requires cfg.Valid() && AllPermute(cfg, orders)
    ensures Ends(cfg, orders) <==> Settles(cfg)
  {
    if Settles(cfg) {
      var last := EndsFrom(cfg, orders, 0, Left(cfg, START));
    } else if k: nat :| !GoesOn(After(cfg, orders, k)) {
      AfterKeepsInv(cfg, orders, k);
      hide Fails, Refuses;
      ErrorIsFault(cfg, After(cfg, orders, k).error);
    }
  }

  lemma ErrorIsFault(cfg: Config, e: Error)
    requires ErrorOk(cfg, e) && !e.KubeconfigRequired?
    ensures Faulty(cfg)
  {
    hide Fails, Refuses;
    assert Fails(cfg, e.name) || Refuses(cfg, e.name);
  }

  lemma OneMorePass(cfg: Config, orders: nat -> seq<string>, pass: nat, st: State)
    requires AllPermute(cfg, orders)
    requires After(cfg, orders, pass) == Ok(st) && st.missing && st.found
    ensures GoesOn(After(cfg, orders, pass)) && After(cfg, orders, pass + 1) == RunPass(cfg, st, orders(pass))
  {}

  lemma BeforeFirst(cfg: Config, orders: nat -> seq<string>)
    requires AllPermute(cfg, orders)
    ensures BeforePass(cfg, orders, 0, START) && After(cfg, orders, 0) == Ok(START)
  {}

  lemma AfterLast(cfg: Config, orders: nat -> seq<string>, pass: nat, st: State)
    requires BeforePass(cfg, orders, pass, st) && !(st.missing && st.found)
    ensures if st.missing then
              !SettlesAtOnce(cfg, orders(0)) && StuckEnd(cfg, st) && ServedOnly(cfg, st.clusters) && !Faulty(cfg)
            else
              && Resolution(cfg, st.clusters)
              && (SettlesAtOnce(cfg, orders(0)) ==> st.clusters == RunPass(cfg, START, orders(0)).value.clusters)
  {}

  /** What a first validation answers and records. */
  ghost predicate Outcome(cfg: Config, orders: nat -> seq<string>, err: Option<Error>, failure: Option<Error>,
                          clusters: map<string, Cluster>, disabled: set<string>) {
    && (err == None ==> Resolution(cfg, clusters) && disabled == Disabled(cfg, clusters) && failure == None)
    // every error has its reason; the one about a fleet is returned but not recorded
    && (err.Some? ==> ErrorOk(cfg, err.value) && failure == if err.value.FleetNotAccepted? then None else err)
    && (err.Some? && err.value.KubeconfigRequired? ==> ServedOnly(cfg, clusters) && !Faulty(cfg))
    // a first pass that misses nothing is the only one
    && (SettlesAtOnce(cfg, orders(0)) ==> err == None && clusters == RunPass(cfg, START, orders(0)).value.clusters)
  }

  /** What the loop knows in front of pass number `pass`, with the end ahead. */
  ghost predicate Running(cfg: Config, orders: nat -> seq<string>, pass: nat, last: nat, st: State) {
    && cfg.Valid() && AllPermute(cfg, orders) && pass <= last && !GoesOn(After(cfg, orders, last))
    && BeforePass(cfg, orders, pass, st) && After(cfg, orders, pass) == Ok(st)
  }

  lemma Start(cfg: Config, orders: nat -> seq<string>) returns (last: nat)
    requires cfg.Valid() && AllPermute(cfg, orders) && Settles(cfg)
    ensures Running(cfg, orders, 0, last, START)
    ensures START == State(map[], {}, true, true)
  {
    EndsExactly(cfg, orders);
    last :| !GoesOn(After(cfg, orders, last));
    BeforeFirst(cfg, orders);
  }

  lemma NextPass(cfg: Config, orders: nat -> seq<string>, pass: nat, last: nat, st: State)
    requires Running(cfg, orders, pass, last, st) && st.missing && st.found
    ensures pass < last && cfg.Valid() && Permutes(orders(pass), cfg.elements.Keys)
    ensures RunPass(cfg, st, orders(pass)).Ok? ==>
              Running(cfg, orders, pass + 1, last, RunPass(cfg, st, orders(pass)).value)
    ensures RunPass(cfg, st, orders(pass)).Err? ==>
              && ErrorOk(cfg, RunPass(cfg, st, orders(pass)).error) && !SettlesAtOnce(cfg, orders(0))
              && !RunPass(cfg, st, orders(pass)).error.KubeconfigRequired?
  {
    EndIsAhead(cfg, orders, pass, last, st);
    hide AllPermute, BeforePass, ErrorOk, SettlesAtOnce, RunPass, After, Permutes, Config.Valid, GoesOn;
    OnePass(cfg, orders, pass, st);
    OneMorePass(cfg, orders, pass, st);
  }

  lemma EndIsAhead(cfg: Config, orders: nat -> seq<string>, pass: nat, last: nat, st: State)
    requires Running(cfg, orders, pass, last, st) && st.missing && st.found
    ensures pass < last && Permutes(orders(pass), cfg.elements.Keys)
  {
    hide BeforePass, After, Permutes, Config.Valid;
    assert GoesOn(Ok(st));
  }

  lemma LastPass(cfg: Config, orders: nat -> seq<string>, pass: nat, last: nat, st: State)
    requires Running(cfg, orders, pass, last, st) && !(st.missing && st.found)
    ensures Permutes(orders(pass), cfg.elements.Keys)
    ensures st.missing ==>
              && !st.found && !SettlesAtOnce(cfg, orders(0))
              && StuckEnd(cfg, st) && ServedOnly(cfg, st.clusters) && !Faulty(cfg)
    ensures !st.missing ==> Resolution(cfg, st.clusters)
    ensures !st.missing && SettlesAtOnce(cfg, orders(0)) ==>
              st.clusters == RunPass(cfg, START, orders(0)).value.clusters
  {
    assert Permutes(orders(pass), cfg.elements.Keys);
    hide AllPermute, After, Permutes, Config.Valid;
    AfterLast(cfg, orders, pass, st);
  }

  lemma FailedOutcome(cfg: Config, orders: nat -> seq<string>, e: Error, clusters: map<string, Cluster>,
                      disabled: set<string>)
    requires ErrorOk(cfg, e) && !e.KubeconfigRequired? && !SettlesAtOnce(cfg, orders(0))
    ensures Outcome(cfg, orders, Some(e), if e.FleetNotAccepted? then None else Some(e), clusters, disabled)
  {
    hide ErrorOk, SettlesAtOnce;
  }

  lemma StuckOutcome(cfg: Config, orders: nat -> seq<string>, e: Error, clusters: map<string, Cluster>,
                     disabled: set<string>)
    requires ErrorOk(cfg, e) && e.KubeconfigRequired? && !SettlesAtOnce(cfg, orders(0))
    requires ServedOnly(cfg, clusters) && !Faulty(cfg)
    ensures Outcome(cfg, orders, Some(e), Some(e), clusters, disabled)
  {
    hide ErrorOk, SettlesAtOnce, ServedOnly;
  }

  lemma CleanOutcome(cfg: Config, orders: nat -> seq<string>, clusters: map<string, Cluster>)
    requires Resolution(cfg, clusters)
    requires SettlesAtOnce(cfg, orders(0)) ==> clusters == RunPass(cfg, START, orders(0)).value.clusters
    ensures Outcome(cfg, orders, None, None, clusters, Disabled(cfg, clusters))
  {
    hide Resolution, SettlesAtOnce, Disabled, RunPass;
  }

  lemma ServedFailsNot(cfg: Config, n: string)
    requires AllServed(cfg) && DEFAULT !in cfg.elements
    ensures !Fails(cfg, n)
  {
    if n == DEFAULT {
      if m :| FallsBack(cfg, m, DEFAULT) && Needed(cfg, m) {
        DefaultTarget();
        hide Target, Needed, Asked;
        var c :| Serves(cfg, m, c);
        var k: nat :| NeededChain(cfg, m, k) == Some(c);
        assert NeededChain(cfg, m, k) == NeededChain(cfg, DEFAULT, k - 1);
      }
    } else if n in cfg.elements && Needed(cfg, n) {
      hide Target, Needed, Asked;
      var c :| Serves(cfg, n, c);
    }
  }

  lemma ResolutionServes(cfg: Config, clusters: map<string, Cluster>)
    requires cfg.Valid() && Resolution(cfg, clusters)
    ensures AllServed(cfg)
  {
    forall n | n in cfg.elements && Needed(cfg, n)
      ensures Served(cfg, n)
    {
      if n !in clusters {
        MakerIsServed(cfg, n);
      }
    }
  }

  lemma ResolutionRefuses(cfg: Config, clusters: map<string, Cluster>, n: string)
    requires Resolution(cfg, clusters) && Refuses(cfg, n)
    ensures n !in clusters && Loses(cfg, n)
  {
    RequiredNeeded(cfg, n);
    if n in clusters {
      var c :| Serves(cfg, n, c) && c.fleet;
      ServesWalks(cfg, n, c);
      ServesWalks(cfg, n, clusters[n]);
      WalkUnique(cfg, n, c, clusters[n]);
    }
  }

  /** The configuration alone decides the verdict. Without a fault it is an error exactly if a needed definition is not
      served, and then a missing kubeconfig; with a fault it is another error, unless only refusing definitions are
      at fault and one of them is lost. */
  lemma VerdictExactly(cfg: Config, orders: nat -> seq<string>, err: Option<Error>, failure: Option<Error>,
                       clusters: map<string, Cluster>, disabled: set<string>)
    requires cfg.Valid() && Outcome(cfg, orders, err, failure, clusters, disabled)
    ensures !Faulty(cfg) ==> (err == None <==> AllServed(cfg)) && (err.Some? ==> err.value.KubeconfigRequired?)
    ensures Faulty(cfg) && err.Some? ==> !err.value.KubeconfigRequired?
    ensures Faulty(cfg) && err == None ==>
              && (exists n :: Refuses(cfg, n) && Loses(cfg, n) && n !in clusters)
              && forall n :: !Fails(cfg, n)
  {
    hide SettlesAtOnce, RunPass;
    if err == None {
      ResolutionServes(cfg, clusters);
      forall n {
        ServedFailsNot(cfg, n);
      }
      if n :| Refuses(cfg, n) {
        ResolutionRefuses(cfg, clusters, n);
      }
    } else if err.value.KubeconfigRequired? {
      assert !AllServed(cfg);
    } else {
      ErrorIsFault(cfg, err.value);
    }
  }

  /** A validation without error records as disabled the declared names that look like fleet members and the ones
      without a cluster: of the other names every one that is not needed, and a needed one only if it is lost. */
  lemma DisabledExactly(cfg: Config, orders: nat -> seq<string>, failure: Option<Error>,
                        clusters: map<string, Cluster>, disabled: set<string>, n: string)
    requires cfg.Valid() && Outcome(cfg, orders, None, failure, clusters, disabled)
    ensures n in disabled <==> n in cfg.elements && (Prefixed(n) || n !in clusters)
    ensures n in cfg.elements && !Needed(cfg, n) ==> n in disabled
    ensures n in disabled && Needed(cfg, n) && !Prefixed(n) ==> Loses(cfg, n)
    ensures forall m :: m in disabled && n in disabled && Needed(cfg, m) && Needed(cfg, n) ==>
              Prefixed(m) || Prefixed(n) || m == n
  {
    hide SettlesAtOnce, RunPass, Loses, Needed, Serves, Asked, Prefixed;
    forall m | m in cfg.elements
      ensures m in disabled <==> Prefixed(m) || m !in clusters
    {
      ElementTarget(cfg, m);
      hide Target;
    }
  }

  // ------------------------------------------------------------------------------------------
  // Inputs

  /** A prefixed name counts as disabled, whether it is resolved or not. */
  lemma PrefixedIsDisabled(cfg: Config, clusters: map<string, Cluster>, n: string)
    requires cfg.Valid() && n in cfg.elements && Prefixed(n)
    ensures n in Disabled(cfg, clusters)
  {
    ElementTarget(cfg, n);
  }

  /** No definition fails, and there is no fleet. */
  ghost predicate Harmless(cfg: Config) {
    && !cfg.main.Failed? && (forall n :: n in cfg.elements ==> !cfg.elements[n].create.Failed?)
    && (cfg.main.Made? ==> !cfg.main.fleet)
    && (forall n :: n in cfg.elements && cfg.elements[n].create.Made? ==> !cfg.elements[n].create.fleet)
  }

  lemma {:induction false} ChainHasNoFleet(cfg: Config, n: string, k: nat)
    requires Harmless(cfg) && Chain(cfg, n, k).Some?
    ensures !Chain(cfg, n, k).value.fleet
    decreases k
  {
    hide Target;
    if n != DEFAULT && cfg.elements[n].create.Absent? {
      ChainHasNoFleet(cfg, Target(cfg.elements[n].fallback).value, k - 1);
    }
  }

  lemma HarmlessIsNotFaulty(cfg: Config)
    requires Harmless(cfg)
    ensures !Faulty(cfg)
  {
    if n :| Refuses(cfg, n) {
      var c :| Serves(cfg, n, c) && c.fleet;
      ServesWalks(cfg, n, c);
      var k: nat :| Chain(cfg, n, k) == Some(c);
      ChainHasNoFleet(cfg, n, k);
    }
  }

  lemma FaultlessNeverErrs(cfg: Config, orders: nat -> seq<string>, pass: nat)
    requires cfg.Valid() && !Faulty(cfg) && AllPermute(cfg, orders)
    ensures After(cfg, orders, pass).Ok?
  {
    AfterKeepsInv(cfg, orders, pass);
    hide *;
    if After(cfg, orders, pass).Err? {
      ErrorIsFault(cfg, After(cfg, orders, pass).error);
    }
  }

  function Diverging(s: string, c: string): Config {
    Config(map[s := Definition(Made(false), "", false), c := Definition(Absent, "", false)], Absent, {})
  }

  /** A configured name with the prefix of a fleet beside one that misses its kubeconfig: the loop never ends. */
  lemma SeparatorDiverges(s: string, c: string, orders: nat -> seq<string>, pass: nat)
    requires Prefixed(s) && Keys.MEMBER !in c && c != DEFAULT && AllPermute(Diverging(s, c), orders)
    ensures GoesOn(After(Diverging(s, c), orders, pass))
  {
    hide *;
    DivergingFacts(s, c);
    FaultlessNeverErrs(Diverging(s, c), orders, pass);
    AfterKeepsInv(Diverging(s, c), orders, pass);
  }

  lemma DivergingFacts(s: string, c: string)
    requires Prefixed(s) && Keys.MEMBER !in c && c != DEFAULT
    ensures Diverging(s, c).Valid() && !Faulty(Diverging(s, c)) && Restless(Diverging(s, c))
  {
    DivergingNames(s, c);
    HarmlessIsNotFaulty(Diverging(s, c));
    hide Prefixed, Target, Needed, Served;
    OwnClusterServes(Diverging(s, c), s);
    NoFallbackServesNot(Diverging(s, c), c);
  }

  lemma DivergingNames(s: string, c: string)
    requires Prefixed(s) && Keys.MEMBER !in c
    ensures s != DEFAULT && s != c
  {
    DefaultPrefix();
    assert !Prefixed(c);
  }

  lemma OwnClusterServes(cfg: Config, s: string)
    requires s in cfg.elements && s in cfg.Required() && cfg.elements[s].create.Made? && s != DEFAULT
    ensures Needed(cfg, s) && Served(cfg, s)
  {
    RequiredNeeded(cfg, s);
    hide Needed;
    var c := Cluster(s, cfg.elements[s].create.fleet);
    assert NeededChain(cfg, s, 0) == Some(c);
    assert Serves(cfg, s, c);
  }

  lemma NoFallbackServesNot(cfg: Config, c: string)
    requires c in cfg.elements && c in cfg.Required() && c != DEFAULT
    requires cfg.elements[c].create.Absent? && cfg.elements[c].fallback == ""
    ensures Needed(cfg, c) && !Served(cfg, c)
  {
    RequiredNeeded(cfg, c);
    hide Needed, Target;
    assert forall k: nat :: NeededChain(cfg, c, k) == None;
  }

  function Redirected(n: string, b: string): Config {
    Config(map[n := Definition(Absent, [Keys.MEMBER] + b, false), b := Definition(Made(false), "", false)], Absent, {n})
  }

  lemma {:induction false} NotNeeded(n: string, b: string, k: nat)
    requires n != b && Keys.MEMBER !in n && Keys.MEMBER !in b
    ensures !NeededIn(Redirected(n, b), b, k)
  {
    if k > 0 {
      NotNeeded(n, b, k - 1);
      assert [Keys.MEMBER] + b != b;
    }
  }

  /** A fallback "#b" denotes b but does not make it needed: n is reported as lacking a kubeconfig, although its chain
      leads to the configured b. */
  lemma SeparatorFallbackIsStuck(n: string, b: string, orders: nat -> seq<string>) returns (last: nat)
    requires n != b && Keys.MEMBER !in n && Keys.MEMBER !in b && n != DEFAULT && b != DEFAULT
    requires AllPermute(Redirected(n, b), orders)
    ensures Walks(Redirected(n, b), n, Cluster(b, false))
    ensures After(Redirected(n, b), orders, last).Ok?
    ensures var st := After(Redirected(n, b), orders, last).value; st.missing && !st.found
  {
    var cfg := Redirected(n, b);
    RedirectedFacts(n, b);
    hide *;
    last := EndsFrom(cfg, orders, 0, Left(cfg, START));
    last := MissingAtEnd(cfg, orders, last, n);
  }

  lemma RedirectedTargets(n: string, b: string)
    requires Keys.MEMBER !in n && Keys.MEMBER !in b
    ensures Target([Keys.MEMBER] + b) == Some(b) && !Prefixed(n) && !Prefixed(b)
  {
    assert Keys.Split([Keys.MEMBER] + b) == ("", b);
  }

  lemma RedirectedWalks(n: string, b: string)
    requires n != b && Target([Keys.MEMBER] + b) == Some(b) && n != DEFAULT && b != DEFAULT
    ensures Walks(Redirected(n, b), n, Cluster(b, false))
  {
    hide Target;
    var cfg := Redirected(n, b);
    assert Chain(cfg, b, 0) == Some(Cluster(b, false)) && Chain(cfg, n, 1) == Chain(cfg, b, 0);
  }

  lemma RedirectedServesNot(n: string, b: string)
    requires n != b && Keys.MEMBER !in n && Keys.MEMBER !in b && Target([Keys.MEMBER] + b) == Some(b)
    requires n != DEFAULT && b != DEFAULT
    ensures Needed(Redirected(n, b), n) && !Served(Redirected(n, b), n)
  {
    var cfg := Redirected(n, b);
    RequiredNeeded(cfg, n);
    forall k: nat
      ensures !NeededIn(cfg, b, k)
    {
      NotNeeded(n, b, k);
    }
    hide Target, NeededIn, Asked;
    forall k: nat
      ensures NeededChain(cfg, n, k) == None
    {
      if k > 0 {
        assert NeededChain(cfg, n, k) == NeededChain(cfg, b, k - 1);
      }
    }
  }

  lemma UnprefixedSettles(cfg: Config)
    requires forall n :: n in cfg.elements ==> !Prefixed(n)
    ensures Settles(cfg)
  {
    hide Prefixed, Served, AllServed, Faulty;
  }

  lemma RedirectedIsPlain(n: string, b: string)
    requires n != DEFAULT && b != DEFAULT && !Prefixed(n) && !Prefixed(b) && Keys.MEMBER !in n && Keys.MEMBER !in b
    ensures var cfg := Redirected(n, b);
      cfg.Valid() && Harmless(cfg) && n in cfg.elements && forall x :: x in cfg.elements ==> !Prefixed(x)
  {
    hide Prefixed;
  }

  lemma RedirectedFacts(n: string, b: string)
    requires n != b && Keys.MEMBER !in n && Keys.MEMBER !in b && n != DEFAULT && b != DEFAULT
    ensures var cfg := Redirected(n, b);
      && cfg.Valid() && n in cfg.elements && !Faulty(cfg) && Walks(cfg, n, Cluster(b, false))
      && Needed(cfg, n) && !Served(cfg, n) && Settles(cfg)
  {
    hide *;
    RedirectedTargets(n, b);
    RedirectedIsPlain(n, b);
    HarmlessIsNotFaulty(Redirected(n, b));
    UnprefixedSettles(Redirected(n, b));
    RedirectedWalks(n, b);
    RedirectedServesNot(n, b);
  }

  /** Where no error ends the loop and a needed name has no walk, it ends with something missing. */
  lemma {:induction false} MissingAtEnd(cfg: Config, orders: nat -> seq<string>, last: nat, n: string)
    returns (end: nat)
    requires cfg.Valid() && AllPermute(cfg, orders) && !Faulty(cfg) && !GoesOn(After(cfg, orders, last))
    requires n in cfg.elements && Needed(cfg, n) && !Served(cfg, n)
    ensures After(cfg, orders, end).Ok?
    ensures var st := After(cfg, orders, end).value; st.missing && !st.found
  {
    FaultlessNeverErrs(cfg, orders, last);
    assert 0 < last && !GoesOn(After(cfg, orders, last));
    if GoesOn(After(cfg, orders, last - 1)) {
      LastPassMisses(cfg, orders, last - 1, n);
      end := last;
    } else {
      hide *;
      end := MissingAtEnd(cfg, orders, last - 1, n);
    }
  }

  lemma LastPassMisses(cfg: Config, orders: nat -> seq<string>, pass: nat, n: string)
    requires cfg.Valid() && AllPermute(cfg, orders) && GoesOn(After(cfg, orders, pass))
    requires After(cfg, orders, pass + 1).Ok? && n in cfg.elements && Needed(cfg, n) && !Served(cfg, n)
    ensures After(cfg, orders, pass + 1).value.missing
  {
    var st := After(cfg, orders, pass).value;
    assert Permutes(orders(pass), cfg.elements.Keys) && GoesOn(Ok(st));
    AfterKeepsInv(cfg, orders, pass);
    OneMorePass(cfg, orders, pass, st);
    hide *;
    PassIsRestless(cfg, st, pass == 0, orders(pass));
  }

  /** Names that start with the separator are excluded, because what they lead to depends on the order: "##x" denotes
      the entry "#x", whose turn is skipped once x is resolved. */
  lemma LeadingSeparatorDependsOnOrder()
    ensures var made := Definition(Made(false), "", false);
            var cfg := Config(map["#x" := made, "x" := made, "c" := Definition(Absent, "##x", false)], Absent, {});
      && RunPass(cfg, START, ["#x", "x", "c"]).Ok? && !RunPass(cfg, START, ["#x", "x", "c"]).value.missing
      && RunPass(cfg, START, ["x", "#x", "c"]).Ok? && RunPass(cfg, START, ["x", "#x", "c"]).value.missing
  {
    var made := Definition(Made(false), "", false);
    var cfg := Config(map["#x" := made, "x" := made, "c" := Definition(Absent, "##x", false)], Absent, {});
    LeadingTargets();
    hide Target;
    Turns(cfg, "#x", "x", "c");
    Turns(cfg, "x", "#x", "c");
  }

  lemma LeadingTargets()
    ensures Target("x") == Some("x") && Target("c") == Some("c")
            && Target("#x") == Some("x") && Target("##x") == Some("#x")
  {
    PlainTarget("x");
    PlainTarget("c");
    assert Keys.Split("#x") == ("", "x") && Keys.Split("##x") == ("", "#x");
  }

  lemma Turns(cfg: Config, a: string, b: string, c: string)
    requires {a, b, c} <= cfg.elements.Keys
    ensures Elems([a, b, c]) <= cfg.elements.Keys
    ensures var first := Visit(cfg, START.(missing := false, found := false), a);
      first.Ok? && Visit(cfg, first.value, b).Ok? ==>
        RunPass(cfg, START, [a, b, c]) == Visit(cfg, Visit(cfg, first.value, b).value, c)
  {
    hide Visit;
    assert [] + [a] == [a] && [a] + [b] == [a, b] && [a, b] + [c] == [a, b, c];
    OneMoreTurn(cfg, START, [], a);
    if RunPass(cfg, START, [a]).Ok? {
      OneMoreTurn(cfg, START, [a], b);
      if RunPass(cfg, START, [a, b]).Ok? {
        OneMoreTurn(cfg, START, [a, b], c);
      }
    }
  }

  class Definitions {
    const cfg: Config
    var created: bool // the cluster group has been set up
    var clusters: map<string, Cluster>
    var disabled: set<string>
    var failure: Option<Error> // the recorded error

    constructor (cfg: Config)
      ensures this.cfg == cfg && !created && failure == None
    {
      this.cfg := cfg;
      created, clusters, disabled, failure := false, map[], {}, None;
    }

    /** The body of the loop over the definition map. */
    method Turn(n: string, wanted: set<string>, missed: bool, found0: bool)
      returns (intermediate: set<string>, missing: bool, found: bool, err: Option<Error>)
      requires n in cfg.elements
      modifies this`clusters
      ensures err == None ==>
                Visit(cfg, State(old(clusters), wanted, missed, found0), n)
                  == Ok(State(clusters, intermediate, missing, found))
      ensures err.Some? ==> Visit(cfg, State(old(clusters), wanted, missed, found0), n) == Err(err.value)
    {
      DefaultTarget();
      assert Lookup(clusters, DEFAULT).None? ==> DEFAULT !in clusters;
      hide Target;
      hide Lookup;
      intermediate, missing, found, err := wanted, missed, found0, None;
      var def := cfg.elements[n];
      if Lookup(clusters, n).Some? || !(n in cfg.Required() || n in intermediate) {
        return;
      }
      if def.create.Failed? {
        err := Some(CreateFailed(n));
        return;
      }
      if def.create.Made? {
        found := true;
        clusters := if n in clusters then clusters else clusters[n := Cluster(n, def.create.fleet)];
        return;
      }
      if def.fallback == "" {
        missing := true;
        return;
      }
      var eff := Lookup(clusters, def.fallback);
      if eff.Some? {
        if !def.acceptFleet && eff.value.fleet && n in cfg.Required() {
          err := Some(FleetNotAccepted(n));
          return;
        }
        clusters := if n in clusters then clusters else clusters[n := eff.value];
        found := true;
      } else {
        if def.fallback !in intermediate && def.fallback !in cfg.Required() {
          intermediate := intermediate + {def.fallback};
          found := true;
        }
        if def.fallback == DEFAULT {
          if cfg.main.Failed? {
            err := Some(CreateFailed(DEFAULT));
            return;
          }
          if cfg.main.Made? {
            clusters := clusters[DEFAULT := Cluster(DEFAULT, cfg.main.fleet)];
            found := true;
            return;
          }
        }
        missing := true;
      }
    }

    /** One loop over the definition map, which visits it in the given order. */
    method Pass(order: seq<string>, wanted: set<string>)
      returns (intermediate: set<string>, missing: bool, found: bool, err: Option<Error>)
      requires Permutes(order, cfg.elements.Keys)
      modifies this`clusters
      ensures RunPass(cfg, State(old(clusters), wanted, true, true), order) ==
                match err case None => Ok(State(clusters, intermediate, missing, found)) case Some(e) => Err(e)
    {
      ghost var st0 := State(clusters, wanted, true, true);
      intermediate, missing, found := wanted, false, false;
      for j := 0 to |order|
        invariant Elems(order[..j]) <= cfg.elements.Keys
        invariant RunPass(cfg, st0, order[..j]) == Ok(State(clusters, intermediate, missing, found))
      {
        var n := order[j];
        assert n in Elems(order);
        assert order[..j + 1] == order[..j] + [n];
        OneMoreTurn(cfg, st0, order[..j], n);
        intermediate, missing, found, err := Turn(n, intermediate, missing, found);
        if err.Some? {
          ErrorStopsPass(cfg, st0, order, j + 1);
          return;
        }
      }
      assert order[..|order|] == order;
      err := None;
    }

    /** The k-th loop over the definition map visits it in the order orders(k). */
    method Validate(orders: nat -> seq<string>) returns (err: Option<Error>)
      requires cfg.Valid()
      requires AllPermute(cfg, orders)
      requires Settles(cfg)
      modifies this
      ensures old(failure).None? ==> created
      // a second call repeats the recorded error
      ensures old(created) || old(failure).Some? ==>
                err == old(failure) && failure == old(failure) && clusters == old(clusters) && disabled == old(disabled)
      ensures !old(created) && old(failure).None? ==> Outcome(cfg, orders, err, failure, clusters, disabled)
    {
      hide *;
      if created || failure.Some? {
        return failure;
      }
      ghost var last := Start(cfg, orders);
      created, clusters := true, map[];
      var intermediate: set<string> := {};
      var missing, found := true, true;
      var pass: nat := 0;
      while missing && found
        invariant created && failure == None
        invariant Running(cfg, orders, pass, last, State(clusters, intermediate, missing, found))
        decreases last - pass
      {
        NextPass(cfg, orders, pass, last, State(clusters, intermediate, true, true));
        intermediate, missing, found, err := Pass(orders(pass), intermediate);
        if err.Some? {
          failure := if err.value.FleetNotAccepted? then None else err;
          FailedOutcome(cfg, orders, err.value, clusters, disabled);
          return;
        }
        pass := pass + 1;
      }
      LastPass(cfg, orders, pass, last, State(clusters, intermediate, missing, found));
      if missing {
        err := Report(orders(pass), intermediate);
        failure := err;
        StuckOutcome(cfg, orders, err.value, clusters, disabled);
        return;
      }
      disabled := Disabled(cfg, clusters);
      CleanOutcome(cfg, orders, clusters);
      err := failure;
    }

    /** The first unresolved name in the given order. */
    method Report(order: seq<string>, intermediate: set<string>) returns (err: Option<Error>)
      requires Permutes(order, cfg.elements.Keys)
      requires StuckEnd(cfg, State(clusters, intermediate, true, false))
      ensures err.Some? && err.value.KubeconfigRequired? && ErrorOk(cfg, err.value)
      ensures err.value.name in cfg.elements && Unseen(cfg, State(clusters, intermediate, true, false), err.value.name)
    {
      hide ErrorOk, Lookup, Wanted;
      ghost var st := State(clusters, intermediate, true, false);
      ghost var w :| w in cfg.elements && Unseen(cfg, st, w);
      assert w in Elems(order);
      for j := 0 to |order|
        invariant w in order[j..]
      {
        var n := order[j];
        assert n in Elems(order);
        if !Unseen(cfg, State(clusters, intermediate, true, false), n) {
          continue;
        }
        return Some(KubeconfigRequired(n));
      }
    }
  }

  /** A fleet that is not accepted is an error in the first validation only. */
  method ValidateTwice(name: string, fleet: string, orders: nat -> seq<string>)
    returns (first: Option<Error>, second: Option<Error>)
    requires name != fleet && Keys.MEMBER !in name && Keys.MEMBER !in fleet && DEFAULT !in {name, fleet} && fleet != ""
    requires AllPermute(Borrowing(name, fleet), orders)
    ensures first == Some(FleetNotAccepted(name)) && second == None
  {
    var cfg := Borrowing(name, fleet);
    BorrowingFails(name, fleet, orders);
    hide *;
    var defs := new Definitions(cfg);
    first := defs.Validate(orders);
    OutcomeHasReason(cfg, orders, first, defs.failure, defs.clusters, defs.disabled);
    BorrowingResult(name, fleet, defs.clusters, first);
    second := defs.Validate(orders);
  }

  lemma OutcomeHasReason(cfg: Config, orders: nat -> seq<string>, err: Option<Error>, failure: Option<Error>,
                         clusters: map<string, Cluster>, disabled: set<string>)
    requires Outcome(cfg, orders, err, failure, clusters, disabled)
    ensures err == None ==> Resolution(cfg, clusters)
    ensures err.Some? ==> ErrorOk(cfg, err.value) && failure == if err.value.FleetNotAccepted? then None else err
  {}

  function Borrowing(name: string, fleet: string): Config {
    Config(map[name := Definition(Absent, fleet, false), fleet := Definition(Made(true), "", true)], Absent, {})
  }

  lemma BorrowingFails(name: string, fleet: string, orders: nat -> seq<string>)
    requires name != fleet && Keys.MEMBER !in name && Keys.MEMBER !in fleet && DEFAULT !in {name, fleet} && fleet != ""
    requires AllPermute(Borrowing(name, fleet), orders)
    ensures Borrowing(name, fleet).Valid() && Settles(Borrowing(name, fleet))
  {
    var cfg := Borrowing(name, fleet);
    assert forall n :: n in cfg.elements ==> !Prefixed(n);
  }

  lemma BorrowingResult(name: string, fleet: string, clusters: map<string, Cluster>, e: Option<Error>)
    requires name != fleet && Keys.MEMBER !in name && Keys.MEMBER !in fleet && DEFAULT !in {name, fleet} && fleet != ""
    requires e == None ==> Resolution(Borrowing(name, fleet), clusters)
    requires e.Some? ==> ErrorOk(Borrowing(name, fleet), e.value)
    ensures e == Some(FleetNotAccepted(name))
  {
    var cfg := Borrowing(name, fleet);
    var c := Cluster(fleet, true);
    RequiredNeeded(cfg, name);
    RequiredNeeded(cfg, fleet);
    PlainTarget(fleet);
    assert NeededChain(cfg, fleet, 0) == Some(c);
    assert Target(fleet) == Some(fleet);
    hide Target;
    assert NeededChain(cfg, name, 1) == NeededChain(cfg, fleet, 0);
    assert Serves(cfg, fleet, c) && Serves(cfg, name, c) && Served(cfg, name) && Served(cfg, fleet);
    ServesWalks(cfg, name, c);
    if e == None {
      assert name in clusters;
      ServesWalks(cfg, name, clusters[name]);
      WalkUnique(cfg, name, c, clusters[name]);
    }
  }
}
