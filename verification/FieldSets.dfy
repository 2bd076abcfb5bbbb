/** Bookkeeping of owned and defaulted fields (merge/ssa.go, cluster/updater.go). */
module FieldSets {
  import opened Wrappers

  type Path = seq<string>

  // ------------------------------------------------------------------------------------------
  // Completion with the containing fields

  predicate Closed(s: set<Path>) {
    forall f, k :: f in s && 1 <= k < |f| ==> f[..k] in s
  }

  function Prefixes(f: Path): set<Path> {
    set k | 1 <= k < |f| :: f[..k]
  }

  function Closure(s: set<Path>): set<Path> {
    s + set f, p | f in s && p in Prefixes(f) :: p
  }

  /** The closure is the least set with all given fields and the fields containing them. */
  lemma ClosureIsLeast(s: set<Path>)
    ensures s <= Closure(s) && Closed(Closure(s))
    ensures forall t :: s <= t && Closed(t) ==> Closure(s) <= t
  {
    forall f, k | f in Closure(s) && 1 <= k < |f| ensures f[..k] in Closure(s) {
      if f in s {
        assert f[..k] in Prefixes(f);
      } else {
        var g :| g in s && f in Prefixes(g);
        assert f[..k] == g[..k] && g[..k] in Prefixes(g);
      }
    }
  }

  lemma ClosureIsMonotone(s: set<Path>, t: set<Path>)
    requires s <= t
    ensures Closure(s) <= Closure(t)
  {}

  predicate ParentIn(f: Path, s: set<Path>) {
    1 < |f| ==> f[..|f| - 1] in s
  }

  lemma {:induction false} ParentsSuffice(s: set<Path>, f: Path, k: nat)
    requires f in s && 1 <= k < |f| && forall g :: g in s ==> ParentIn(g, s)
    ensures f[..k] in s
    decreases |f| - k
  {
    assert ParentIn(f, s);
    if k < |f| - 1 {
      var parent := f[..|f| - 1];
      ParentsSuffice(s, parent, k);
      assert parent[..k] == f[..k];
    }
  }

  class FieldSet {
    var paths: set<Path>

    constructor (paths: set<Path>)
      ensures this.paths == paths
    {
      this.paths := paths;
    }
  }

  /** The search starts over after every insertion and takes the fields in any order. */
  method Complete(s: FieldSet)
    modifies s
    ensures s.paths == Closure(old(s.paths))
  {
    ghost var given := s.paths;
    ClosureIsLeast(given);
    var found := true;
    while found
      invariant given <= s.paths <= Closure(given)
      invariant !found ==> forall g :: g in s.paths ==> ParentIn(g, s.paths)
      decreases |Closure(given) - s.paths|, found
    {
      found := false;
      ghost var before := s.paths;
      var todo := s.paths;
      while todo != {}
        invariant s.paths == before && todo <= before
        invariant forall g :: g in before - todo ==> ParentIn(g, before)
        decreases |todo|
      {
        var f :| f in todo;
        todo := todo - {f};
        var p := |f| - 1;
        if p > 0 && f[..p] !in s.paths {
          found := true;
          s.paths := s.paths + {f[..p]};
          Shrinks(Closure(given), before, f[..p]);
          break;
        }
      }
    }
    forall f, k | f in s.paths && 1 <= k < |f| ensures f[..k] in s.paths {
      ParentsSuffice(s.paths, f, k);
    }
  }

  lemma Shrinks(all: set<Path>, s: set<Path>, p: Path)
    requires p in all && p !in s
    ensures |all - (s + {p})| < |all - s|
  {
    assert all - (s + {p}) == (all - s) - {p};
  }

  // ------------------------------------------------------------------------------------------
  // Owned fields

  /** An entry of the managed fields of an object; fields that cannot be read are missing. */
  datatype Entry = Entry(manager: string, fields: Option<set<Path>>)

  datatype Error = BadFields | CallFailed

  /** The object merger: the field manager, and the fields known to be added by the API server. */
  datatype Merger = Merger(manager: string, defaulted: Option<set<Path>>) {
    function Defaulted(): set<Path> {
      if defaulted.Some? then defaulted.value else {}
    }
  }

  predicate Readable(manager: string, entries: seq<Entry>) {
    forall i :: 0 <= i < |entries| && entries[i].manager == manager ==> entries[i].fields.Some?
  }

  predicate Manages(manager: string, e: Entry, f: Path) {
    e.manager == manager && e.fields.Some? && f in e.fields.value
  }

  /** All fields of a manager. */
  function Managed(manager: string, entries: seq<Entry>): (fields: set<Path>)
    ensures forall f :: f in fields <==> exists i :: 0 <= i < |entries| && Manages(manager, entries[i], f)
  {
    if entries == [] then {}
    else
      var rest := Managed(manager, entries[..|entries| - 1]);
      var e := entries[|entries| - 1];
      if e.manager == manager && e.fields.Some? then rest + e.fields.value else rest
  }

  method GetOwnedFields(m: Merger, entries: seq<Entry>) returns (r: Result<set<Path>, Error>)
    ensures r == if Readable(m.manager, entries) then Ok(Managed(m.manager, entries) - m.Defaulted())
                 else Err(BadFields)
  {
    var owned: set<Path> := {};
    for i := 0 to |entries|
      invariant Readable(m.manager, entries[..i]) && owned == Managed(m.manager, entries[..i])
    {
      assert entries[..i + 1][..i] == entries[..i];
      var e := entries[i];
      if e.manager != m.manager {
        continue;
      }
      if e.fields.None? {
        return Err(BadFields);
      }
      owned := owned + e.fields.value;
    }
    assert entries[..|entries|] == entries;
    if m.defaulted.Some? {
      return Ok(owned - m.defaulted.value);
    }
    assert owned - {} == owned;
    return Ok(owned);
  }

  /** The fields an update takes off an object: owned, not added by the server, and no longer desired. */
  function Removed(m: Merger, entries: seq<Entry>, desired: set<Path>): set<Path> {
    Managed(m.manager, entries) - m.Defaulted() - Closure(desired)
  }

  // ------------------------------------------------------------------------------------------
  // Updates

  /** The values of an object at its leaf fields. */
  type Fields = map<Path, string>

  /** The desired values merged onto the live ones, without the given fields and what they contain. */
  function Merged(live: Fields, desired: Fields, removed: set<Path>): Fields {
    map p | p in live.Keys + desired.Keys && !Within(removed, p) :: if p in desired then desired[p] else live[p]
  }

  /** p is one of the fields or contained in one. */
  predicate Within(fields: set<Path>, p: Path) {
    exists f :: f in fields && f <= p
  }

  /** How the live object is found, with its managed fields and values. */
  datatype Live = Missing | Failing | Found(entries: seq<Entry>, values: Fields)

  /** One update: the live object, the desired values, and the managed fields of the object that the server answers
      to a create or patch, if that succeeds. */
  datatype Call = Call(live: Live, desired: Fields, answer: Option<seq<Entry>>)

  /** What an update does; a patch leads to the given values. */
  datatype Outcome = Created | Patched(removed: set<Path>, target: Fields) | UpToDate(removed: set<Path>)

  /** The defaulted fields after remembering the answer of the server. */
  function Remember(m: Merger, entries: seq<Entry>, desired: set<Path>): Merger {
    m.(defaulted := Some(m.Defaulted() + (Managed(m.manager, entries) - Closure(desired))))
  }

  function Outcomes(m: Merger, c: Call): (Result<Outcome, Error>, Merger) {
    match c.live
    case Failing => (Err(CallFailed), m)
    case Missing => Completed(m, c, Created)
    case Found(entries, values) =>
      if !Readable(m.manager, entries) then (Err(BadFields), m)
      else
        var removed := Removed(m, entries, c.desired.Keys);
        var target := Merged(values, c.desired, removed);
        if target == values then (Ok(UpToDate(removed)), m) else Completed(m, c, Patched(removed, target))
  }

  /** The end of a create or patch. */
  function Completed(m: Merger, c: Call, outcome: Outcome): (Result<Outcome, Error>, Merger) {
    if c.answer.None? then (Err(CallFailed), m)
    else if !Readable(m.manager, c.answer.value) then (Err(BadFields), m)
    else (Ok(outcome), Remember(m, c.answer.value, c.desired.Keys))
  }

  class Updater {
    var merger: Merger

    constructor (manager: string)
      ensures merger == Merger(manager, None)
    {
      merger := Merger(manager, None);
    }

    method RemovedFields(entries: seq<Entry>, desired: set<Path>) returns (r: Result<set<Path>, Error>)
      ensures r == if Readable(merger.manager, entries) then Ok(Removed(merger, entries, desired)) else Err(BadFields)
    {
      var owned := GetOwnedFields(merger, entries);
      if owned.Err? {
        return owned;
      }
      var wanted := new FieldSet(desired);
      Complete(wanted);
      return Ok(owned.value - wanted.paths);
    }

    method Update(c: Call) returns (r: Result<Outcome, Error>)
      modifies this
      ensures (r, merger) == Outcomes(old(merger), c)
    {
      var outcome := Created;
      if c.live.Failing? {
        return Err(CallFailed);
      }
      if c.live.Found? {
        var removed := RemovedFields(c.live.entries, c.desired.Keys);
        if removed.Err? {
          return Err(removed.error);
        }
        var target := Merged(c.live.values, c.desired, removed.value);
        if target == c.live.values {
          return Ok(UpToDate(removed.value));
        }
        outcome := Patched(removed.value, target);
      }
      if c.answer.None? {
        return Err(CallFailed);
      }
      var err := Done(c.answer.value, c.desired.Keys);
      return if err.Some? then Err(err.value) else Ok(outcome);
    }

    /** Owned fields that are not desired have been added by the server: they are remembered. */
    method Done(entries: seq<Entry>, desired: set<Path>) returns (err: Option<Error>)
      modifies this
      ensures if Readable(old(merger).manager, entries)
              then err == None && merger == Remember(old(merger), entries, desired)
              else err == Some(BadFields) && merger == old(merger)
    {
      var wanted := new FieldSet(desired);
      Complete(wanted);
      var owned := GetOwnedFields(merger, entries);
      if owned.Err? {
        return Some(owned.error);
      }
      var defaulted := owned.value - wanted.paths;
      if merger.defaulted.Some? {
        defaulted := defaulted + merger.defaulted.value;
      }
      assert defaulted == Remember(merger, entries, desired).Defaulted();
      merger := merger.(defaulted := Some(defaulted));
      return None;
    }
  }

  // ------------------------------------------------------------------------------------------
  // Runs

  function Run(m: Merger, calls: seq<Call>): Merger {
    if calls == [] then m else Outcomes(Run(m, calls[..|calls| - 1]), calls[|calls| - 1]).1
  }

  /** The call sends something to the server. */
  predicate Sends(m: Merger, c: Call) {
    match c.live
    case Failing => false
    case Missing => true
    case Found(entries, values) =>
      Readable(m.manager, entries) && Merged(values, c.desired, Removed(m, entries, c.desired.Keys)) != values
  }

  /** The call ends with an answer of the server that is remembered. */
  predicate Answered(m: Merger, c: Call) {
    Sends(m, c) && c.answer.Some? && Readable(m.manager, c.answer.value)
  }

  /** A field the server answered in a call although it is not desired there. */
  predicate Added(m: Merger, c: Call, f: Path) {
    Answered(m, c) && f in Managed(m.manager, c.answer.value) && f !in Closure(c.desired.Keys)
  }

  lemma OutcomeRemembers(m: Merger, c: Call)
    ensures Outcomes(m, c).1 == if Answered(m, c) then Remember(m, c.answer.value, c.desired.Keys) else m
  {
    hide Removed, Merged, Readable, Remember;
  }

  /** The server has added the field in some call of the run. */
  ghost predicate AddedIn(m: Merger, calls: seq<Call>, f: Path) {
    exists i :: 0 <= i < |calls| && Added(Run(m, calls[..i]), calls[i], f)
  }

  lemma AddedInLonger(m: Merger, calls: seq<Call>, f: Path)
    requires calls != []
    ensures var l := |calls| - 1;
            AddedIn(m, calls, f) <==> AddedIn(m, calls[..l], f) || Added(Run(m, calls[..l]), calls[l], f)
  {
    var l := |calls| - 1;
    hide Added, Run;
    assert forall i :: 0 <= i <= l ==> calls[..l][..i] == calls[..i];
    if i :| 0 <= i < l && Added(Run(m, calls[..l][..i]), calls[..l][i], f) {
      assert Added(Run(m, calls[..i]), calls[i], f);
    }
    if i :| 0 <= i < |calls| && Added(Run(m, calls[..i]), calls[i], f) {
      assert i < l ==> Added(Run(m, calls[..l][..i]), calls[..l][i], f);
    }
  }

  /** The defaulted fields are exactly the ones that the server has added in some call. */
  lemma {:induction false} DefaultedExactly(m: Merger, calls: seq<Call>, f: Path)
    ensures Run(m, calls).manager == m.manager
    ensures f in Run(m, calls).Defaulted() <==> f in m.Defaulted() || AddedIn(m, calls, f)
  {
    if calls != [] {
      var l := |calls| - 1;
      DefaultedExactly(m, calls[..l], f);
      AddedInLonger(m, calls, f);
      OutcomeRemembers(Run(m, calls[..l]), calls[l]);
      hide Managed, Closure, Readable, AddedIn, Outcomes, Answered;
    }
  }

  /** What is removed is exactly what is managed, neither desired nor among the fields containing desired ones, and
      has in no call been added by the server. */
  lemma RemovedExactly(manager: string, calls: seq<Call>, entries: seq<Entry>, desired: set<Path>, f: Path)
    ensures f in Removed(Run(Merger(manager, None), calls), entries, desired) <==>
            && f in Managed(manager, entries) && f !in Closure(desired)
            && !AddedIn(Merger(manager, None), calls, f)
  {
    hide Managed, Closure, Run, AddedIn;
    DefaultedExactly(Merger(manager, None), calls, f);
  }

  // --- The answer of an update after a run

  /** The manager has dropped the field: it has set it, desires it no longer, and it is not the server's. */
  ghost predicate Drops(manager: string, calls: seq<Call>, c: Call, f: Path) {
    && c.live.Found? && (exists i :: 0 <= i < |c.live.entries| && Manages(manager, c.live.entries[i], f))
    && (forall p :: p in c.desired ==> !(f <= p && (f != [] || p == [])))
    && !AddedIn(Merger(manager, None), calls, f)
  }

  /** The leaf goes with a dropped field. */
  ghost predicate Goes(manager: string, calls: seq<Call>, c: Call, p: Path) {
    exists f :: Drops(manager, calls, c, f) && f <= p
  }

  /** Nothing is to be done: the live object has all desired values and no leaf that goes. */
  ghost predicate Settled(manager: string, calls: seq<Call>, c: Call) {
    && c.live.Found?
    && (forall p :: p in c.live.values ==> !Goes(manager, calls, c, p))
    && (forall p :: p in c.desired && !Goes(manager, calls, c, p) ==>
          p in c.live.values && c.live.values[p] == c.desired[p])
  }

  lemma ClosureHas(s: set<Path>, f: Path)
    ensures f in Closure(s) <==> exists p :: p in s && f <= p && (f != [] || p == [])
  {
    if p :| p in s && f <= p && (f != [] || p == []) {
      if f != p {
        assert f == p[..|f|] && f in Prefixes(p);
      }
    }
  }

  lemma DropsAreRemoved(manager: string, calls: seq<Call>, c: Call, f: Path)
    requires c.live.Found?
    ensures f in Removed(Run(Merger(manager, None), calls), c.live.entries, c.desired.Keys) <==>
            Drops(manager, calls, c, f)
  {
    RemovedExactly(manager, calls, c.live.entries, c.desired.Keys, f);
    ClosureHas(c.desired.Keys, f);
    hide Removed, Run, Closure, AddedIn;
  }

  lemma GoesIsWithin(manager: string, calls: seq<Call>, c: Call, p: Path)
    requires c.live.Found?
    ensures Within(Removed(Run(Merger(manager, None), calls), c.live.entries, c.desired.Keys), p) <==>
            Goes(manager, calls, c, p)
  {
    hide Removed, Run, Drops;
    forall f {
      DropsAreRemoved(manager, calls, c, f);
    }
  }

  /** The values a patch leads to: what goes is gone, desired values are set, and all others stay. */
  ghost predicate Reaches(manager: string, calls: seq<Call>, c: Call, target: Fields) {
    && c.live.Found?
    && (forall p :: p in target <==> (p in c.live.values || p in c.desired) && !Goes(manager, calls, c, p))
    && (forall p :: p in target ==> target[p] == if p in c.desired then c.desired[p] else c.live.values[p])
  }

  lemma MergedReaches(manager: string, calls: seq<Call>, c: Call)
    requires c.live.Found?
    ensures var removed := Removed(Run(Merger(manager, None), calls), c.live.entries, c.desired.Keys);
      && Reaches(manager, calls, c, Merged(c.live.values, c.desired, removed))
      && (Merged(c.live.values, c.desired, removed) == c.live.values <==> Settled(manager, calls, c))
  {
    var removed := Removed(Run(Merger(manager, None), calls), c.live.entries, c.desired.Keys);
    hide Removed, Run, Goes, Within;
    forall p
      ensures Within(removed, p) <==> Goes(manager, calls, c, p)
    {
      GoesIsWithin(manager, calls, c, p);
    }
    var target := Merged(c.live.values, c.desired, removed);
    if Settled(manager, calls, c) {
      assert forall p :: p in target <==> p in c.live.values;
      assert target == c.live.values;
    }
    if target == c.live.values {
      forall p | p in c.live.values
        ensures !Goes(manager, calls, c, p)
      {
        assert p in target;
      }
      forall p | p in c.desired && !Goes(manager, calls, c, p)
        ensures p in c.live.values && c.live.values[p] == c.desired[p]
      {
        assert p in target;
      }
    }
  }

  /** Whether the managed fields of the live object and those the server answers can be read. */
  ghost predicate LiveReadable(manager: string, c: Call) {
    c.live.Found? ==> Readable(manager, c.live.entries)
  }

  /** Something is sent: the object is missing, or it can be read and is not settled. */
  ghost predicate Acts(manager: string, calls: seq<Call>, c: Call) {
    c.live.Missing? || (c.live.Found? && LiveReadable(manager, c) && !Settled(manager, calls, c))
  }

  /** What an update answers after any run of the updater. */
  lemma UpdateAnswers(manager: string, calls: seq<Call>, c: Call)
    ensures var r := Outcomes(Run(Merger(manager, None), calls), c).0;
      // the errors
      && (r == Err(CallFailed) <==> c.live.Failing? || (Acts(manager, calls, c) && c.answer.None?))
      && (r == Err(BadFields) <==>
            || !LiveReadable(manager, c)
            || (Acts(manager, calls, c) && c.answer.Some? && !Readable(manager, c.answer.value)))
      // what was done
      && (r == Ok(Created) <==> c.live.Missing? && c.answer.Some? && Readable(manager, c.answer.value))
      && (r.Ok? && r.value.UpToDate? <==> LiveReadable(manager, c) && Settled(manager, calls, c))
      && (r.Ok? && r.value.Patched? ==> Reaches(manager, calls, c, r.value.target))
      // the fields taken off
      && (r.Ok? && !r.value.Created? ==> forall f :: f in r.value.removed <==> Drops(manager, calls, c, f))
  {
    var m := Run(Merger(manager, None), calls);
    DefaultedExactly(Merger(manager, None), calls, []);
    assert m.manager == manager;
    if c.live.Found? {
      MergedReaches(manager, calls, c);
      forall f {
        DropsAreRemoved(manager, calls, c, f);
      }
    }
    hide Removed, Merged, Readable, Remember, Settled, Reaches, Drops, Run;
  }

  /** No oscillation: once the server has answered a desired set, nothing is removed as long as the managed fields
      are among those answered and the desired fields do not shrink, whatever calls come in between. */
  lemma NothingIsRemovedAgain(m: Merger, before: seq<Call>, c: Call, after: seq<Call>, entries: seq<Entry>,
                              desired: set<Path>)
    requires Answered(Run(m, before), c) && c.desired.Keys <= desired
    requires Managed(m.manager, entries) <= Managed(m.manager, c.answer.value)
    ensures Removed(Run(m, before + [c] + after), entries, desired) == {}
  {
    var calls := before + [c] + after;
    assert calls[..|before|] == before && calls[|before|] == c;
    DefaultedExactly(m, before, []);
    DefaultedExactly(m, calls, []);
    hide Managed, Answered, Run, Closure;
    ClosureIsMonotone(c.desired.Keys, desired);
    forall f | f in Managed(m.manager, entries) && f !in Closure(desired)
      ensures f in Run(m, calls).Defaulted() {
      DefaultedExactly(m, calls, f);
      assert Added(Run(m, calls[..|before|]), calls[|before|], f);
    }
  }

  /** The price: a field that the server has added once is never removed any more, even if it is desired for a while
      and then dropped. */
  lemma AddedFieldStays(m: Merger, before: seq<Call>, c: Call, after: seq<Call>, f: Path, entries: seq<Entry>,
                        desired: set<Path>)
    requires Added(Run(m, before), c, f)
    ensures f !in Removed(Run(m, before + [c] + after), entries, desired)
  {
    var calls := before + [c] + after;
    assert calls[..|before|] == before && calls[|before|] == c;
    hide Managed, Added, Run, Closure;
    DefaultedExactly(m, calls, f);
    assert Added(Run(m, calls[..|before|]), calls[|before|], f);
  }
}
