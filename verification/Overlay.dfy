/** The write-through cache with its versioned overlay (cache/cache.go, overlay.go, utils.go). */
module Overlay {
  import opened Wrappers

  type Key = string

  /** An object: its resource version, the metadata that copyInto copies, and the rest. */
  datatype Object = Object(version: string, meta: string, body: string)

  // ------------------------------------------------------------------------------------------
  // The order of versions: Go's comparison of strings

  function Less(a: string, b: string): bool
    decreases |a|
  {
    if b == "" then false
    else if a == "" then true
    else if a[0] != b[0] then a[0] < b[0]
    else Less(a[1..], b[1..])
  }

  function IsNewer(a: Object, b: Object): bool {
    Less(b.version, a.version)
  }

  ghost predicate AtLeast(v: string, w: string) {
    !Less(v, w)
  }

  lemma {:induction false} LessTotal(a: string, b: string)
    ensures a == b || Less(a, b) || Less(b, a)
    decreases |a|
  {
    if a != "" && b != "" && a[0] == b[0] {
      LessTotal(a[1..], b[1..]);
      assert a == [a[0]] + a[1..] && b == [b[0]] + b[1..];
    }
  }

  lemma {:induction false} LessIrreflexive(a: string)
    ensures !Less(a, a)
  {
    if a != "" { LessIrreflexive(a[1..]); }
  }

  lemma {:induction false} LessTransitive(a: string, b: string, c: string)
    requires Less(a, b) && Less(b, c)
    ensures Less(a, c)
    decreases |a|
  {
    if a != "" && a[0] == b[0] && b[0] == c[0] {
      LessTransitive(a[1..], b[1..], c[1..]);
    }
  }

  lemma AtLeastTransitive(a: string, b: string, c: string)
    requires AtLeast(a, b) && AtLeast(b, c)
    ensures AtLeast(a, c)
  {
    if Less(a, c) {
      LessTotal(b, c);
      LessTotal(a, b);
      if b != c && a != b {
        LessTransitive(a, c, b);
      }
    }
  }

  lemma AtLeastReflexive(a: string)
    ensures AtLeast(a, a)
  {
    LessIrreflexive(a);
  }

  lemma AtLeastTotal(a: string, b: string)
    ensures AtLeast(a, b) || AtLeast(b, a)
  {
    if Less(a, b) && Less(b, a) {
      LessTransitive(a, b, a);
      LessIrreflexive(a);
    }
  }

  // ------------------------------------------------------------------------------------------
  // The overlay

  type Entries = map<Key, Object>

  function Stored(e: Entries, k: Key, o: Object): Entries {
    if k !in e || IsNewer(o, e[k]) then e[k := o] else e
  }

  function Evicted(e: Entries, k: Key, o: Object): Entries {
    if k in e && !IsNewer(e[k], o) then e - {k} else e
  }

  /** What copyInto makes of the destination. */
  function CopyInto(src: Object, dst: Object): Object {
    Object(src.version, src.meta, dst.body)
  }

  /** The result of Get for what the cache and the overlay hold; None is the error of the cache.
      dst is the object the caller passes. */
  function Served(cached: Option<Object>, overlaid: Option<Object>, dst: Object): Option<Object> {
    match overlaid
    case None => cached
    case Some(o) =>
      match cached
      case None => Some(CopyInto(o, dst))
      case Some(c) => if IsNewer(o, c) then Some(CopyInto(o, c)) else Some(c)
  }

  function Find(m: map<Key, Object>, k: Key): Option<Object> {
    if k in m then Some(m[k]) else None
  }

  /** The entries after a Get that was not interleaved with anything. */
  function AfterGet(cached: Option<Object>, e: Entries, k: Key): Entries {
    if cached.Some? && k in e && !IsNewer(e[k], cached.value) then Evicted(e, k, cached.value) else e
  }

  class ObjectOverlay {
    var entries: Entries

    constructor ()
      ensures entries == map[]
    {
      entries := map[];
    }

    method Set(k: Key, o: Object)
      modifies this
      ensures entries == Stored(old(entries), k, o)
    {
      if k !in entries || IsNewer(o, entries[k]) {
        entries := entries[k := o];
      }
    }

    method Get(k: Key) returns (entry: Option<Object>)
      ensures entry == Find(entries, k)
    {
      entry := if k in entries then Some(entries[k]) else None;
    }

    method Evict(k: Key, o: Object)
      modifies this
      ensures entries == Evicted(old(entries), k, o)
    {
      if k in entries {
        var existing := entries[k];
        if !IsNewer(existing, o) {
          entries := entries - {k};
        }
      }
    }
  }

  class WriteThroughCache {
    const overlay: ObjectOverlay

    constructor ()
      ensures fresh(overlay) && overlay.entries == map[]
    {
      overlay := new ObjectOverlay();
    }

    /** cached is the answer of the underlying client, None its error. */
    method Get(k: Key, cached: Option<Object>, dst: Object) returns (res: Option<Object>)
      modifies overlay
      ensures res == Served(cached, Find(old(overlay.entries), k), dst)
      ensures overlay.entries == AfterGet(cached, old(overlay.entries), k)
    {
      var entry := overlay.Get(k);
      if entry.None? {
        return cached;
      }
      if cached.None? {
        return Some(CopyInto(entry.value, dst));
      }
      var obj := cached.value;
      if IsNewer(entry.value, obj) {
        obj := CopyInto(entry.value, obj);
      } else {
        overlay.Evict(k, obj);
      }
      return Some(obj);
    }

    /** Create, Update and Patch: result is the object as the server returned it, None an error. */
    method Write(k: Key, result: Option<Object>) returns (ok: bool)
      modifies overlay
      ensures ok == result.Some?
      ensures overlay.entries == if ok then Stored(old(overlay.entries), k, result.value) else old(overlay.entries)
    {
      if result.None? {
        return false;
      }
      overlay.Set(k, result.value);
      return true;
    }
  }

  // ------------------------------------------------------------------------------------------
  // Overlay and cache together

  datatype World = World(entries: Entries, cache: map<Key, Object>)

  /** The higher of the two versions held for a key. */
  function High(w: World, k: Key): Option<string> {
    if k in w.entries && (k !in w.cache || IsNewer(w.entries[k], w.cache[k])) then Some(w.entries[k].version)
    else if k in w.cache then Some(w.cache[k].version)
    else None
  }

  ghost predicate Reaches(h: Option<string>, v: string) {
    h.Some? && AtLeast(h.value, v)
  }

  ghost predicate NotLower(h: Option<string>, h': Option<string>) {
    h.Some? ==> Reaches(h', h.value)
  }

  /** The cache never goes back: what it holds for a key only gets newer. */
  ghost predicate CacheMoves(w: World, k: Key, o: Object) {
    k in w.cache ==> AtLeast(o.version, w.cache[k].version)
  }

  lemma HighIsUpperBound(w: World, k: Key)
    ensures k in w.entries ==> Reaches(High(w, k), w.entries[k].version)
    ensures k in w.cache ==> Reaches(High(w, k), w.cache[k].version)
  {
    if k in w.entries {
      AtLeastReflexive(w.entries[k].version);
    }
    if k in w.cache {
      AtLeastReflexive(w.cache[k].version);
    }
    if k in w.entries && k in w.cache {
      AtLeastTotal(w.entries[k].version, w.cache[k].version);
    }
  }

  lemma NotLowerReflexive(h: Option<string>)
    ensures NotLower(h, h)
  {
    if h.Some? { AtLeastReflexive(h.value); }
  }

  lemma NotLowerTransitive(a: Option<string>, b: Option<string>, c: Option<string>)
    requires NotLower(a, b) && NotLower(b, c)
    ensures NotLower(a, c)
  {
    if a.Some? { AtLeastTransitive(c.value, b.value, a.value); }
  }

  lemma ReachesFurther(a: Option<string>, b: Option<string>, v: string)
    requires Reaches(a, v) && NotLower(a, b)
    ensures Reaches(b, v)
  {
    AtLeastTransitive(b.value, a.value, v);
  }

  /** A world whose two parts have grown for k has not got lower. */
  lemma GrowthRaises(w: World, w': World, k: Key)
    requires k in w.entries ==> Reaches(High(w', k), w.entries[k].version)
    requires k in w.cache ==> Reaches(High(w', k), w.cache[k].version)
    ensures NotLower(High(w, k), High(w', k))
  {}

  lemma StoreRaises(w: World, k: Key, o: Object, l: Key)
    ensures var w' := w.(entries := Stored(w.entries, k, o));
            NotLower(High(w, l), High(w', l)) && Reaches(High(w', k), o.version)
  {
    var w' := w.(entries := Stored(w.entries, k, o));
    HighIsUpperBound(w', l);
    AtLeastReflexive(o.version);
    EntryReaches(w', k, o.version);
    if k in w.entries {
      AtLeastTotal(w'.entries[k].version, w.entries[k].version);
      EntryReaches(w', k, w.entries[k].version);
    }
    GrowthRaises(w, w', l);
  }

  lemma EntryReaches(w: World, k: Key, v: string)
    requires k in w.entries && AtLeast(w.entries[k].version, v)
    ensures Reaches(High(w, k), v)
  {
    HighIsUpperBound(w, k);
    AtLeastTransitive(High(w, k).value, w.entries[k].version, v);
  }

  lemma CacheRaises(w: World, k: Key, o: Object, l: Key)
    requires CacheMoves(w, k, o)
    ensures var w' := w.(cache := w.cache[k := o]); NotLower(High(w, l), High(w', l))
  {
    var w' := w.(cache := w.cache[k := o]);
    HighIsUpperBound(w', l);
    if l == k && k in w.cache {
      AtLeastTransitive(High(w', k).value, o.version, w.cache[k].version);
    }
    GrowthRaises(w, w', l);
  }

  /** Eviction is safe because the entry is compared again: what goes is not newer than what was read from the
      cache, and the cache has not gone back since. */
  lemma EvictRaises(w: World, k: Key, o: Object, l: Key)
    requires k in w.cache && AtLeast(w.cache[k].version, o.version)
    ensures var w' := w.(entries := Evicted(w.entries, k, o)); NotLower(High(w, l), High(w', l))
  {
    var w' := w.(entries := Evicted(w.entries, k, o));
    HighIsUpperBound(w', l);
    if l == k && k in w.entries && k !in w'.entries {
      AtLeastTransitive(w.cache[k].version, o.version, w.entries[k].version);
      AtLeastTransitive(High(w', k).value, w.cache[k].version, w.entries[k].version);
    }
    GrowthRaises(w, w', l);
  }

  /** Without the second comparison an entry stored in between is lost. */
  lemma BlindEvictionLoses(w: World, k: Key)
    requires k in w.entries && k in w.cache && IsNewer(w.entries[k], w.cache[k])
    ensures !NotLower(High(w, k), High(w.(entries := w.entries - {k}), k))
  {}

  // ------------------------------------------------------------------------------------------
  // Sequential runs

  datatype Op =
    | Write(k: Key, o: Object)
    | Advance(k: Key, o: Object) // the cache hears from the server
    | Read(k: Key)

  function Step(w: World, op: Op): World {
    match op
    case Write(k, o) => w.(entries := Stored(w.entries, k, o))
    case Advance(k, o) => w.(cache := w.cache[k := o])
    case Read(k) => w.(entries := AfterGet(Find(w.cache, k), w.entries, k))
  }

  function Run(w: World, ops: seq<Op>): World {
    if ops == [] then w else Step(Run(w, ops[..|ops| - 1]), ops[|ops| - 1])
  }

  /** The cache moves forward only. */
  ghost predicate Lawful(w: World, ops: seq<Op>) {
    forall i :: 0 <= i < |ops| && ops[i].Advance? ==> CacheMoves(Run(w, ops[..i]), ops[i].k, ops[i].o)
  }

  function Answer(w: World, k: Key, dst: Object): Option<Object> {
    Served(Find(w.cache, k), Find(w.entries, k), dst)
  }

  /** Get answers with the higher of the two versions, and fails only if there is none. */
  lemma AnswerIsHigh(w: World, k: Key, dst: Object)
    ensures Answer(w, k, dst).Some? <==> High(w, k).Some?
    ensures Answer(w, k, dst).Some? ==> Answer(w, k, dst).value.version == High(w, k).value
  {}

  /** Version and metadata of an answer are those of one object: of the entry in the overlay if it is newer than the
      cached object or there is none, otherwise of the cached object. */
  lemma AnswerIsOneObject(w: World, k: Key, dst: Object)
    requires Answer(w, k, dst).Some?
    ensures var res := Answer(w, k, dst).value;
            if k in w.entries && (k !in w.cache || IsNewer(w.entries[k], w.cache[k]))
            then res.version == w.entries[k].version && res.meta == w.entries[k].meta
            else k in w.cache && res.version == w.cache[k].version && res.meta == w.cache[k].meta
  {}

  /** What becomes of the entries: an object is stored in place of an older one, and an entry goes once the cache holds
      an object that it is not newer than. No other key is touched. */
  lemma EntriesExactly(e: Entries, k: Key, o: Object, cached: Option<Object>, l: Key)
    ensures Find(Stored(e, k, o), l) ==
            if l == k && (k !in e || Less(e[k].version, o.version)) then Some(o) else Find(e, l)
    ensures Find(Evicted(e, k, o), l) == if l == k && k in e && !Less(o.version, e[k].version) then None else Find(e, l)
    ensures Find(AfterGet(cached, e, k), l) ==
            if l == k && cached.Some? && k in e && !Less(cached.value.version, e[k].version) then None else Find(e, l)
  {}

  /** The body, unlike version and metadata, is never taken from the overlay. */
  lemma BodyIsNotOverlaid(w: World, k: Key, dst: Object)
    requires Answer(w, k, dst).Some?
    ensures Answer(w, k, dst).value.body == if k in w.cache then w.cache[k].body else dst.body
  {}

  lemma StepRaises(w: World, op: Op, k: Key)
    requires op.Advance? ==> CacheMoves(w, op.k, op.o)
    ensures NotLower(High(w, k), High(Step(w, op), k))
  {
    match op {
      case Write(l, o) => StoreRaises(w, l, o, k);
      case Advance(l, o) => CacheRaises(w, l, o, k);
      case Read(l) =>
        NotLowerReflexive(High(w, k));
        if l in w.cache {
          AtLeastReflexive(w.cache[l].version);
          EvictRaises(w, l, w.cache[l], k);
        }
    }
  }

  lemma {:induction false} RunRaises(w: World, ops: seq<Op>, i: nat, k: Key)
    requires i <= |ops| && Lawful(w, ops)
    ensures NotLower(High(Run(w, ops[..i]), k), High(Run(w, ops), k))
    decreases |ops|
  {
    if i == |ops| {
      assert ops[..i] == ops;
      NotLowerReflexive(High(Run(w, ops), k));
    } else {
      var shorter := ops[..|ops| - 1];
      assert forall j :: 0 <= j < |shorter| ==> shorter[..j] == ops[..j] && shorter[j] == ops[j];
      RunRaises(w, shorter, i, k);
      StepRaises(Run(w, shorter), ops[|ops| - 1], k);
      assert shorter[..i] == ops[..i];
      NotLowerTransitive(High(Run(w, ops[..i]), k), High(Run(w, shorter), k), High(Run(w, ops), k));
    }
  }

  /** Whatever was evicted and stored again in between, Get is never behind a write of the client. */
  lemma ReadYourWrites(w: World, ops: seq<Op>, i: nat, k: Key, o: Object, dst: Object)
    requires Lawful(w, ops) && i < |ops| && ops[i] == Write(k, o)
    ensures var res := Answer(Run(w, ops), k, dst);
            res.Some? && AtLeast(res.value.version, o.version)
  {
    assert ops[..i + 1][..i] == ops[..i];
    StoreRaises(Run(w, ops[..i]), k, o, k);
    RunRaises(w, ops, i + 1, k);
    ReachesFurther(High(Run(w, ops[..i + 1]), k), High(Run(w, ops), k), o.version);
    AnswerIsHigh(Run(w, ops), k, dst);
  }

  /** Successive answers for a key never go back. */
  lemma MonotoneReads(w: World, ops: seq<Op>, i: nat, k: Key, dst: Object, dst': Object)
    requires Lawful(w, ops) && i <= |ops| && Answer(Run(w, ops[..i]), k, dst).Some?
    ensures var first, later := Answer(Run(w, ops[..i]), k, dst), Answer(Run(w, ops), k, dst');
            later.Some? && AtLeast(later.value.version, first.value.version)
  {
    RunRaises(w, ops, i, k);
    AnswerIsHigh(Run(w, ops[..i]), k, dst);
    AnswerIsHigh(Run(w, ops), k, dst');
  }

  // ------------------------------------------------------------------------------------------
  // Concurrent runs: Get split at its lock operations

  datatype Reader =
    | Idle
    | HasCache(k: Key, cached: Option<Object>)
    | MustEvict(k: Key, obj: Object)

  datatype Shared = Shared(w: World, readers: map<nat, Reader>)

  datatype Event =
    | Store(k: Key, o: Object)
    | Hear(k: Key, o: Object)
    | ReadCache(r: nat, k: Key)
    | ReadOverlay(r: nat)
    | EvictEntry(r: nat)

  function ReaderOf(s: Shared, r: nat): Reader {
    if r in s.readers then s.readers[r] else Idle
  }

  function Next(s: Shared, e: Event): Shared {
    match e
    case Store(k, o) => s.(w := s.w.(entries := Stored(s.w.entries, k, o)))
    case Hear(k, o) => s.(w := s.w.(cache := s.w.cache[k := o]))
    case ReadCache(r, k) =>
      if ReaderOf(s, r).Idle? then s.(readers := s.readers[r := HasCache(k, Find(s.w.cache, k))]) else s
    case ReadOverlay(r) =>
      (match ReaderOf(s, r)
       case HasCache(k, cached) =>
         var overlaid := Find(s.w.entries, k);
         var evict := cached.Some? && overlaid.Some? && !IsNewer(overlaid.value, cached.value);
         s.(readers := s.readers[r := if evict then MustEvict(k, cached.value) else Idle])
       case _ => s)
    case EvictEntry(r) =>
      match ReaderOf(s, r)
      case MustEvict(k, obj) => Shared(s.w.(entries := Evicted(s.w.entries, k, obj)), s.readers[r := Idle])
      case _ => s
  }

  /** What the Get of reader r returns, decided when it reads the overlay. */
  function AnswerTo(s: Shared, r: nat, dst: Object): Option<Object>
    requires ReaderOf(s, r).HasCache?
  {
    var HasCache(k, cached) := ReaderOf(s, r);
    Served(cached, Find(s.w.entries, k), dst)
  }

  function Reached(s: Shared, events: seq<Event>): Shared {
    if events == [] then s else Next(Reached(s, events[..|events| - 1]), events[|events| - 1])
  }

  /** What a reader took from the cache is not newer than what the cache has now. */
  ghost predicate ReaderOk(s: Shared, r: nat) {
    match ReaderOf(s, r)
    case HasCache(k, cached) => cached.Some? ==> k in s.w.cache && AtLeast(s.w.cache[k].version, cached.value.version)
    case MustEvict(k, obj) => k in s.w.cache && AtLeast(s.w.cache[k].version, obj.version)
    case Idle => true
  }

  ghost predicate Inv(s: Shared) {
    forall r :: ReaderOk(s, r)
  }

  ghost predicate Allowed(s: Shared, e: Event) {
    e.Hear? ==> CacheMoves(s.w, e.k, e.o)
  }

  ghost predicate AllAllowed(s: Shared, events: seq<Event>) {
    forall i :: 0 <= i < |events| ==> Allowed(Reached(s, events[..i]), events[i])
  }

  lemma NextKeepsInv(s: Shared, e: Event)
    requires Inv(s) && Allowed(s, e)
    ensures Inv(Next(s, e))
  {
    forall r
      ensures ReaderOk(Next(s, e), r)
    {
      assert ReaderOk(s, r);
      if e.Hear? {
        match ReaderOf(s, r) {
          case HasCache(k, cached) =>
            if k == e.k && cached.Some? { AtLeastTransitive(e.o.version, s.w.cache[k].version, cached.value.version); }
          case MustEvict(k, obj) =>
            if k == e.k { AtLeastTransitive(e.o.version, s.w.cache[k].version, obj.version); }
          case Idle =>
        }
      } else if e.ReadCache? && e.k in s.w.cache {
        AtLeastReflexive(s.w.cache[e.k].version);
      }
    }
  }

  lemma NextRaises(s: Shared, e: Event, k: Key)
    requires Inv(s) && Allowed(s, e)
    ensures NotLower(High(s.w, k), High(Next(s, e).w, k))
    ensures e.Store? && e.k == k ==> Reaches(High(Next(s, e).w, k), e.o.version)
  {
    NotLowerReflexive(High(s.w, k));
    match e {
      case Store(l, o) => StoreRaises(s.w, l, o, k);
      case Hear(l, o) => CacheRaises(s.w, l, o, k);
      case EvictEntry(r) =>
        assert ReaderOk(s, r);
        if ReaderOf(s, r).MustEvict? {
          EvictRaises(s.w, ReaderOf(s, r).k, ReaderOf(s, r).obj, k);
        }
      case _ =>
    }
  }

  lemma {:induction false} ReachedInv(s: Shared, events: seq<Event>)
    requires Inv(s) && AllAllowed(s, events)
    ensures Inv(Reached(s, events))
    decreases |events|
  {
    if events != [] {
      var shorter := events[..|events| - 1];
      Shorter(s, events);
      ReachedInv(s, shorter);
      NextKeepsInv(Reached(s, shorter), events[|events| - 1]);
    }
  }

  lemma Shorter(s: Shared, events: seq<Event>)
    requires events != [] && AllAllowed(s, events)
    ensures AllAllowed(s, events[..|events| - 1])
    ensures Allowed(Reached(s, events[..|events| - 1]), events[|events| - 1])
  {
    var shorter := events[..|events| - 1];
    assert forall j :: 0 <= j < |shorter| ==> shorter[..j] == events[..j] && shorter[j] == events[j];
  }

  /** In every interleaving the higher version held for a key never gets lower. */
  lemma {:induction false} NeverLower(s: Shared, events: seq<Event>, i: nat, k: Key)
    requires Inv(s) && AllAllowed(s, events) && i <= |events|
    ensures NotLower(High(Reached(s, events[..i]).w, k), High(Reached(s, events).w, k))
    decreases |events|
  {
    if i == |events| {
      assert events[..i] == events;
      NotLowerReflexive(High(Reached(s, events).w, k));
    } else {
      var shorter := events[..|events| - 1];
      Shorter(s, events);
      NeverLower(s, shorter, i, k);
      assert shorter[..i] == events[..i];
      ReachedInv(s, shorter);
      NextRaises(Reached(s, shorter), events[|events| - 1], k);
      NotLowerTransitive(High(Reached(s, events[..i]).w, k), High(Reached(s, shorter).w, k),
        High(Reached(s, events).w, k));
    }
  }

  /** In every interleaving it dominates every write stored so far. */
  lemma DominatesStores(s: Shared, events: seq<Event>, i: nat, k: Key, o: Object)
    requires Inv(s) && AllAllowed(s, events) && i < |events| && events[i] == Store(k, o)
    ensures Reaches(High(Reached(s, events).w, k), o.version)
  {
    AllowedPrefix(s, events, i);
    ReachedInv(s, events[..i]);
    NextRaises(Reached(s, events[..i]), events[i], k);
    assert events[..i + 1][..i] == events[..i];
    assert Reached(s, events[..i + 1]) == Next(Reached(s, events[..i]), events[i]);
    NeverLower(s, events, i + 1, k);
    hide *;
    ReachesFurther(High(Reached(s, events[..i + 1]).w, k), High(Reached(s, events).w, k), o.version);
  }

  lemma AllowedPrefix(s: Shared, events: seq<Event>, i: nat)
    requires AllAllowed(s, events) && i <= |events|
    ensures AllAllowed(s, events[..i])
  {
    hide Allowed;
    hide Reached;
    var before := events[..i];
    forall j | 0 <= j < |before|
      ensures Allowed(Reached(s, before[..j]), before[j])
    {
      assert before[..j] == events[..j];
    }
  }

  // --- what an interleaved Get returns

  /** The overlay holds a version for k that is not behind v. */
  ghost predicate Covers(s: Shared, k: Key, v: string) {
    k in s.w.entries && AtLeast(s.w.entries[k].version, v)
  }

  /** e takes the entry for k out of the overlay. */
  predicate Takes(s: Shared, e: Event, k: Key) {
    && e.EvictEntry? && ReaderOf(s, e.r).MustEvict? && ReaderOf(s, e.r).k == k
    && k in s.w.entries && !IsNewer(s.w.entries[k], ReaderOf(s, e.r).obj)
  }

  /** e stores a version for k that is not behind v. */
  ghost predicate Restores(e: Event, k: Key, v: string) {
    e.Store? && e.k == k && AtLeast(e.o.version, v)
  }

  lemma StoredCovers(entries: Entries, k: Key, o: Object, v: string)
    ensures var e := Stored(entries, k, o)[k];
            AtLeast(e.version, v) <==> AtLeast(o.version, v) || (k in entries && AtLeast(entries[k].version, v))
  {
    if k in entries {
      AtLeastTotal(o.version, entries[k].version);
      if AtLeast(o.version, v) && !IsNewer(o, entries[k]) {
        AtLeastTransitive(entries[k].version, o.version, v);
      }
      if AtLeast(entries[k].version, v) && IsNewer(o, entries[k]) {
        AtLeastTransitive(o.version, entries[k].version, v);
      }
    }
  }

  /** A version is lost to the overlay, and regained, exactly by these steps. */
  lemma CoversNext(s: Shared, e: Event, k: Key, v: string)
    ensures !Covers(Next(s, e), k, v) <==> Takes(s, e, k) || (!Covers(s, k, v) && !Restores(e, k, v))
  {
    if e.Store? {
      StoredCovers(s.w.entries, e.k, e.o, v);
    }
    hide AtLeast;
  }

  /** The i-th event has taken the entry out, and nothing as new as v has been stored since. */
  ghost predicate TakenSince(s: Shared, events: seq<Event>, i: int, k: Key, v: string) {
    && 0 <= i < |events| && Takes(Reached(s, events[..i]), events[i], k)
    && forall j :: i < j < |events| ==> !Restores(events[j], k, v)
  }

  lemma TakenFront(s: Shared, events: seq<Event>, i: nat, k: Key, v: string)
    requires i < |events| - 1
    ensures var l := |events| - 1;
            TakenSince(s, events, i, k, v) <==> TakenSince(s, events[..l], i, k, v) && !Restores(events[l], k, v)
  {
    var l := |events| - 1;
    hide Reached, Takes, Restores;
    assert forall j :: 0 <= j <= l ==> events[..l][..j] == events[..j];
  }

  lemma TakenSome(s: Shared, events: seq<Event>, k: Key, v: string)
    requires events != []
    ensures var l := |events| - 1;
      (exists i :: TakenSince(s, events, i, k, v)) <==>
        || Takes(Reached(s, events[..l]), events[l], k)
        || ((exists i :: TakenSince(s, events[..l], i, k, v)) && !Restores(events[l], k, v))
  {
    var l := |events| - 1;
    hide Reached, Takes, Restores;
    if i :| TakenSince(s, events, i, k, v) {
      if i < l {
        TakenFront(s, events, i, k, v);
      }
    }
    if i :| TakenSince(s, events[..l], i, k, v) {
      TakenFront(s, events, i, k, v);
    }
    assert Takes(Reached(s, events[..l]), events[l], k) ==> TakenSince(s, events, l, k, v);
  }

  /** In every interleaving a version the overlay held is lost exactly if an eviction took it and nothing as new has
      been stored since. */
  lemma {:induction false} UncoveredExactly(s: Shared, events: seq<Event>, k: Key, v: string)
    requires Covers(s, k, v)
    ensures !Covers(Reached(s, events), k, v) <==> exists i :: TakenSince(s, events, i, k, v)
    decreases |events|
  {
    if events != [] {
      var l := |events| - 1;
      UncoveredExactly(s, events[..l], k, v);
      CoversNext(Reached(s, events[..l]), events[l], k, v);
      TakenSome(s, events, k, v);
      hide TakenSince, Next, Covers, Takes, Restores;
    }
  }

  /** e is a step of the Get of reader r. */
  predicate StepOf(e: Event, r: nat) {
    (e.ReadCache? || e.ReadOverlay? || e.EvictEntry?) && e.r == r
  }

  lemma {:induction false} ReaderWaits(s: Shared, events: seq<Event>, r: nat)
    requires forall i :: 0 <= i < |events| ==> !StepOf(events[i], r)
    ensures ReaderOf(Reached(s, events), r) == ReaderOf(s, r)
    decreases |events|
  {
    if events != [] {
      ReaderWaits(s, events[..|events| - 1], r);
    }
  }

  ghost predicate Behind(res: Option<Object>, h: Option<string>) {
    h.Some? && !(res.Some? && AtLeast(res.value.version, h.value))
  }

  /** The entry is what makes the version held for k. */
  ghost predicate EntryLeads(w: World, k: Key) {
    k in w.entries && (k in w.cache ==> IsNewer(w.entries[k], w.cache[k]))
  }

  /** An answer from the cached object of the start and a later overlay. */
  lemma ServedBehind(w: World, entries: Entries, k: Key, dst: Object)
    ensures Behind(Served(Find(w.cache, k), Find(entries, k), dst), High(w, k)) <==>
            EntryLeads(w, k) && !(k in entries && AtLeast(entries[k].version, w.entries[k].version))
  {
    if k in w.cache {
      AtLeastReflexive(w.cache[k].version);
      if k in entries {
        AtLeastTotal(entries[k].version, w.cache[k].version);
        if EntryLeads(w, k) && AtLeast(entries[k].version, w.entries[k].version)
           && !IsNewer(entries[k], w.cache[k]) {
          AtLeastTransitive(w.cache[k].version, entries[k].version, w.entries[k].version);
        }
      }
    }
  }

  /** Whatever happens between its two reads, the Get of r answers behind what was held when it began exactly if the
      overlay was ahead of the cache then, and its entry has been evicted without a store as new as it since. */
  lemma GetIsBehindExactly(s: Shared, r: nat, k: Key, events: seq<Event>, dst: Object)
    requires ReaderOf(s, r) == Idle && forall i :: 0 <= i < |events| ==> !StepOf(events[i], r)
    ensures var s0 := Next(s, ReadCache(r, k));
      && ReaderOf(Reached(s0, events), r).HasCache?
      && (Behind(AnswerTo(Reached(s0, events), r, dst), High(s.w, k)) <==>
            EntryLeads(s.w, k) && exists i :: TakenSince(s0, events, i, k, s.w.entries[k].version))
  {
    var s0 := Next(s, ReadCache(r, k));
    ReaderWaits(s0, events, r);
    var s' := Reached(s0, events);
    assert ReaderOf(s', r) == HasCache(k, Find(s.w.cache, k)) && s0.w == s.w;
    hide Reached, Next;
    ServedBehind(s.w, s'.w.entries, k, dst);
    if EntryLeads(s.w, k) {
      AtLeastReflexive(s.w.entries[k].version);
      UncoveredExactly(s0, events, k, s.w.entries[k].version);
    }
    hide TakenSince, Behind, High, EntryLeads, Served;
  }

  /** In particular it is not behind if nothing for its key has been taken out of the overlay. */
  lemma UndisturbedGetIsFresh(s: Shared, r: nat, k: Key, events: seq<Event>, dst: Object)
    requires ReaderOf(s, r) == Idle && forall i :: 0 <= i < |events| ==> !StepOf(events[i], r)
    requires forall i :: 0 <= i < |events| ==> !Takes(Reached(Next(s, ReadCache(r, k)), events[..i]), events[i], k)
    ensures var s' := Reached(Next(s, ReadCache(r, k)), events);
            ReaderOf(s', r).HasCache? && !Behind(AnswerTo(s', r, dst), High(s.w, k))
  {
    GetIsBehindExactly(s, r, k, events, dst);
    hide Next, Reached, Takes, Behind;
  }

  /** An eviction by another reader in between lets a Get answer behind a write stored before it began. */
  lemma DisturbedGetIsStale(k: Key, old': Object, new': Object, dst: Object)
    requires IsNewer(new', old')
    ensures var s := Shared(World(map[k := new'], map[k := old']), map[]);
      var s1 := Next(s, ReadCache(0, k));
      var s2 := Next(Next(Next(Next(s1, Hear(k, new')), ReadCache(1, k)), ReadOverlay(1)), EvictEntry(1));
      && Allowed(s1, Hear(k, new')) && ReaderOf(s2, 0).HasCache?
      && AnswerTo(s2, 0, dst) == Some(old') && High(s.w, k) == Some(new'.version)
  {
    LessIrreflexive(new'.version);
    AtLeastTotal(new'.version, old'.version);
    if Less(new'.version, old'.version) {
      LessTransitive(old'.version, new'.version, old'.version);
      LessIrreflexive(old'.version);
    }
    var s := Shared(World(map[k := new'], map[k := old']), map[]);
    var s1 := Next(s, ReadCache(0, k));
    var a := Next(s1, Hear(k, new'));
    var b := Next(a, ReadCache(1, k));
    assert ReaderOf(b, 1) == HasCache(k, Some(new')) && ReaderOf(b, 0) == HasCache(k, Some(old'));
    var c := Next(b, ReadOverlay(1));
    assert ReaderOf(c, 1) == MustEvict(k, new');
    var d := Next(c, EvictEntry(1));
    assert k !in d.w.entries && ReaderOf(d, 0) == HasCache(k, Some(old'));
  }

  // ------------------------------------------------------------------------------------------
  // Resource versions are decimal numbers, but compared as strings

  ghost predicate IsDecimal(s: string) {
    s != "" && forall i :: 0 <= i < |s| ==> '0' <= s[i] <= '9'
  }

  /** A numeral without leading zeros. */
  ghost predicate IsNumeral(s: string) {
    IsDecimal(s) && (1 < |s| ==> s[0] != '0')
  }

  function Digit(c: char): int {
    c as int - '0' as int
  }

  function Power(n: nat): nat {
    if n == 0 then 1 else 10 * Power(n - 1)
  }

  function Value(s: string): int
    decreases |s|
  {
    if s == "" then 0 else Digit(s[0]) * Power(|s| - 1) + Value(s[1..])
  }

  lemma AtLeastOnce(d: int, p: nat)
    requires 1 <= d
    ensures p <= d * p
  {}

  /** Positional comparison: the leading digit decides, the rest breaks ties. */
  lemma LeadingDigit(d: int, e: int, p: nat, r: int, q: int)
    requires 0 <= r < p && 0 <= q < p
    ensures d * p + r < e * p + q <==> d < e || (d == e && r < q)
  {
    if d < e {
      AtLeastOnce(e - d, p);
      assert e * p == d * p + (e - d) * p;
    } else if e < d {
      AtLeastOnce(d - e, p);
      assert d * p == e * p + (d - e) * p;
    }
  }

  lemma LeadingBound(d: int, p: nat, r: int)
    requires 0 <= d <= 9 && 0 <= r < p
    ensures 0 <= d * p + r < 10 * p
  {}

  lemma {:induction false} ValueBelowPower(s: string)
    requires forall i :: 0 <= i < |s| ==> '0' <= s[i] <= '9'
    ensures 0 <= Value(s) < Power(|s|)
    decreases |s|
  {
    if s != "" {
      ValueBelowPower(s[1..]);
      LeadingBound(Digit(s[0]), Power(|s| - 1), Value(s[1..]));
    }
  }

  lemma {:induction false} SameLengthIsNumeric(a: string, b: string)
    requires |a| == |b|
    requires forall i :: 0 <= i < |a| ==> '0' <= a[i] <= '9' && '0' <= b[i] <= '9'
    ensures Less(a, b) <==> Value(a) < Value(b)
    decreases |a|
  {
    if a != "" {
      SameLengthIsNumeric(a[1..], b[1..]);
      ValueBelowPower(a[1..]);
      ValueBelowPower(b[1..]);
      LeadingDigit(Digit(a[0]), Digit(b[0]), Power(|a| - 1), Value(a[1..]), Value(b[1..]));
    }
  }

  lemma {:induction false} PowerMonotone(m: nat, n: nat)
    requires m <= n
    ensures 1 <= Power(m) <= Power(n)
    decreases n
  {
    if m < n { PowerMonotone(m, n - 1); }
    else if 0 < m { PowerMonotone(m - 1, n - 1); }
  }

  lemma LongerIsGreater(a: string, b: string)
    requires IsNumeral(a) && IsNumeral(b) && |a| < |b|
    ensures Value(a) < Value(b)
  {
    ValueBelowPower(a);
    ValueBelowPower(b[1..]);
    PowerMonotone(|a|, |b| - 1);
    AtLeastOnce(Digit(b[0]), Power(|b| - 1));
  }

  lemma {:induction false} LessByPrefix(a: string, b: string)
    requires |a| < |b|
    ensures Less(a, b) <==> !Less(b[..|a|], a)
    decreases |a|
  {
    if a != "" {
      LessByPrefix(a[1..], b[1..]);
      assert b[1..][..|a| - 1] == b[..|a|][1..];
    }
  }

  /** The comparison is numeric for two versions exactly if they have as many digits, or the shorter one is
      not ahead of the leading digits of the longer one. */
  lemma VersionOrderExactly(a: string, b: string)
    requires IsNumeral(a) && IsNumeral(b)
    ensures (Less(a, b) <==> Value(a) < Value(b)) && (Less(b, a) <==> Value(b) < Value(a)) <==>
            || |a| == |b|
            || (|a| < |b| && !Less(b[..|a|], a))
            || (|b| < |a| && !Less(a[..|b|], b))
  {
    if |a| == |b| {
      SameLengthIsNumeric(a, b);
      SameLengthIsNumeric(b, a);
    } else if |a| < |b| {
      LongerIsGreater(a, b);
      LessByPrefix(a, b);
      AtLeastTotal(a, b);
    } else {
      LongerIsGreater(b, a);
      LessByPrefix(b, a);
      AtLeastTotal(a, b);
    }
  }

  /** Crossing from version 9 to version 10, the overlay keeps the older object and a lagging cache lets Get
      answer with it after the newer write. */
  lemma TenIsNotNewerThanNine(k: Key, nine: Object, ten: Object, w: World, dst: Object)
    requires nine.version == "9" && ten.version == "10" && k !in w.entries && k !in w.cache
    ensures Value(nine.version) < Value(ten.version)
    ensures var res := Answer(Run(w, [Write(k, nine)] + [Write(k, ten)]), k, dst);
            res.Some? && res.value.version == "9" && res.value.meta == nine.meta
  {
    LongerIsGreater("9", "10");
    var first := [Write(k, nine)];
    assert first[..0] == [];
    assert Run(w, first) == Step(Run(w, first[..0]), Write(k, nine));
    assert (first + [Write(k, ten)])[..1] == first;
    assert "9"[0] != "10"[0];
  }
}
