/** The single-flight TTL cache of the panel client. A coroutine runs atomically from one
    `await` to the next, so `get_or_compute` is cut into three steps: up to its first `await`,
    the end of a computation, and the resumption of a waiter. */
module SingleFlight {
  import opened Wrappers

  type Key = string
  type FutureId = nat
  type Caller = nat

  /** What a computation yields. */
  datatype Outcome = Value(v: string) | Failure(e: string)

  datatype Entry = Entry(expiresAt: int, value: string)

  datatype Cache = Cache(
    store: map<Key, Entry>,
    inflight: map<Key, FutureId>,
    futures: map<FutureId, Option<Outcome>>,
    nextFuture: FutureId)

  // ---- the atomic steps of the cache ----

  /** `get`: an expired entry is dropped. */
  function Looked(c: Cache, key: Key, now: int): (Cache, Option<string>) {
    if key !in c.store then (c, None)
    else if c.store[key].expiresAt < now then (c.(store := c.store - {key}), None)
    else (c, Some(c.store[key].value))
  }

  /** `set` */
  function Stored(c: Cache, key: Key, value: string, now: int, ttl: int): Cache {
    c.(store := c.store[key := Entry(now + ttl, value)])
  }

  /** A stored value is found up to a TTL later, and no longer; other keys are found as before. */
  lemma FoundUntilExpiry(c: Cache, key: Key, value: string, now: int, ttl: int, other: Key, at: int)
    ensures var (_, cached) := Looked(Stored(c, key, value, now, ttl), other, at);
            cached == if other != key then Looked(c, other, at).1 else if at <= now + ttl then Some(value) else None
  {
  }

  datatype Begun = Hit(value: string) | Await(f: FutureId) | Lead(f: FutureId)

  /** `get_or_compute` up to its first `await`. */
  function Begin(c: Cache, key: Key, now: int): (Cache, Begun) {
    var (looked, cached) := Looked(c, key, now);
    if cached.Some? then (looked, Hit(cached.value))
    else if key in looked.inflight then (looked, Await(looked.inflight[key]))
    else
      var f := looked.nextFuture;
      (looked.(inflight := looked.inflight[key := f], futures := looked.futures[f := None], nextFuture := f + 1),
          Lead(f))
  }

  /** The end of the computation behind `f`: a value is stored, a failure is not. */
  function End(c: Cache, key: Key, f: FutureId, outcome: Outcome, now: int, ttl: int): Cache {
    c.(store := if outcome.Value? then c.store[key := Entry(now + ttl, outcome.v)] else c.store,
       futures := c.futures[f := Some(outcome)],
       inflight := if key in c.inflight && c.inflight[key] == f then c.inflight - {key} else c.inflight)
  }

  class TTLCache {
    const ttl: int
    var store: map<Key, Entry>
    var inflight: map<Key, FutureId>
    var futures: map<FutureId, Option<Outcome>>
    var nextFuture: FutureId

    constructor (ttl: int)
      ensures this.ttl == ttl && Snapshot() == Cache(map[], map[], map[], 0)
    {
      this.ttl := ttl;
      store, inflight, futures, nextFuture := map[], map[], map[], 0;
    }

    function Snapshot(): Cache
      reads this
    {
      Cache(store, inflight, futures, nextFuture)
    }

    method Get(key: Key, now: int) returns (cached: Option<string>)
      modifies this`store
      ensures (Snapshot(), cached) == Looked(old(Snapshot()), key, now)
    {
      if key !in store {
        return None;
      }
      var entry := store[key];
      if entry.expiresAt < now {
        store := store - {key};
        return None;
      }
      return Some(entry.value);
    }

    method Set(key: Key, value: string, now: int)
      modifies this`store
      ensures Snapshot() == Stored(old(Snapshot()), key, value, now, ttl)
    {
      store := store[key := Entry(now + ttl, value)];
    }

    method BeginGetOrCompute(key: Key, now: int) returns (r: Begun)
      modifies this
      ensures (Snapshot(), r) == Begin(old(Snapshot()), key, now)
    {
      var cached := Get(key, now);
      if cached.Some? {
        return Hit(cached.value);
      }
      if key in inflight {
        return Await(inflight[key]);
      }
      var f := nextFuture;
      nextFuture := nextFuture + 1;
      futures := futures[f := None];
      inflight := inflight[key := f];
      return Lead(f);
    }

    method EndCompute(key: Key, f: FutureId, outcome: Outcome, now: int)
      modifies this
      ensures Snapshot() == End(old(Snapshot()), key, f, outcome, now, ttl)
    {
      if outcome.Value? {
        Set(key, outcome.v, now);
      }
      futures := futures[f := Some(outcome)];
      if key in inflight && inflight[key] == f {
        inflight := inflight - {key};
      }
    }
  }

  // ---- every interleaving ----

  datatype State =
    | Waiting(key: Key, f: FutureId, since: int)
    | Leading(key: Key, f: FutureId, since: int)
    | Done(key: Key, outcome: Outcome, since: int, at: int, from: FutureId)

  /** One run of `compute`: it belongs to the future of the caller that leads it. */
  datatype Compute = Compute(key: Key, start: int, end: Option<int>, outcome: Option<Outcome>)

  datatype System = System(
    now: int, ttl: nat, cache: Cache, callers: map<Caller, State>,
    computes: map<FutureId, Compute>, stored: map<Key, FutureId>)

  datatype Step =
    | Tick(to: int)
    | Call(c: Caller, key: Key)
    | Finish(c: Caller, outcome: Outcome)
    | Resume(c: Caller)

  /** The computation whose value a hit returns. */
  function HitSource(s: System, key: Key): FutureId {
    if key in s.stored then s.stored[key] else 0
  }

  predicate Enabled(s: System, step: Step) {
    match step
    case Tick(to) => s.now <= to
    case Call(c, key) => c !in s.callers
    case Finish(c, outcome) => c in s.callers && s.callers[c].Leading?
    case Resume(c) => && c in s.callers && s.callers[c].Waiting? && s.callers[c].f in s.cache.futures
                      && s.cache.futures[s.callers[c].f].Some?
  }

  function Next(s: System, step: Step): System
    requires Enabled(s, step)
  {
    match step
    case Tick(to) => s.(now := to)
    case Call(c, key) =>
      var (cache, begun) := Begin(s.cache, key, s.now);
      (match begun
       case Hit(v) => s.(cache := cache,
           callers := s.callers[c := Done(key, Value(v), s.now, s.now, HitSource(s, key))])
       case Await(f) => s.(cache := cache, callers := s.callers[c := Waiting(key, f, s.now)])
       case Lead(f) => s.(cache := cache, callers := s.callers[c := Leading(key, f, s.now)],
                          computes := s.computes[f := Compute(key, s.now, None, None)]))
    case Finish(c, outcome) =>
      var Leading(key, f, since) := s.callers[c];
      s.(cache := End(s.cache, key, f, outcome, s.now, s.ttl),
         callers := s.callers[c := Done(key, outcome, since, s.now, f)],
         computes := s.computes[f := Compute(key, since, Some(s.now), Some(outcome))],
         stored := if outcome.Value? then s.stored[key := f] else s.stored)
    case Resume(c) =>
      var Waiting(key, f, since) := s.callers[c];
      s.(callers := s.callers[c := Done(key, s.cache.futures[f].value, since, s.now, f)])
  }

  function Initial(now: int, ttl: nat): System {
    System(now, ttl, Cache(map[], map[], map[], 0), map[], map[], map[])
  }

  // ---- what every reachable state satisfies ----

  predicate LeadsFor(s: System, c: Caller, key: Key, f: FutureId) {
    c in s.callers && s.callers[c].Leading? && s.callers[c].key == key && s.callers[c].f == f
  }

  /** Every in-flight entry has its leader, and a leader has its in-flight entry, its pending
      future and its running computation. */
  ghost predicate LeadersMatch(s: System) {
    InflightIsLed(s) && LeadersRun(s) && LeadersDiffer(s)
  }

  ghost predicate InflightIsLed(s: System) {
    forall key :: key in s.cache.inflight ==> exists c :: LeadsFor(s, c, key, s.cache.inflight[key])
  }

  ghost predicate LeadersRun(s: System) {
    forall c :: c in s.callers && s.callers[c].Leading? ==>
      var f := s.callers[c].f;
      && s.callers[c].key in s.cache.inflight && s.cache.inflight[s.callers[c].key] == f
      && f in s.cache.futures && s.cache.futures[f].None?
      && f in s.computes && s.computes[f] == Compute(s.callers[c].key, s.callers[c].since, None, None)
      && s.callers[c].since <= s.now
  }

  ghost predicate LeadersDiffer(s: System) {
    forall a, b :: (a in s.callers && b in s.callers && s.callers[a].Leading? && s.callers[b].Leading?
                    && s.callers[a].f == s.callers[b].f) ==> a == b
  }

  /** Every computation has a future that carries exactly its outcome. */
  ghost predicate FuturesMatch(s: System) {
    && (forall f :: f in s.computes <==> f in s.cache.futures)
    && (forall f :: f in s.cache.futures ==> f < s.cache.nextFuture)
    && (forall f :: f in s.computes ==>
          && s.computes[f].outcome == s.cache.futures[f] && s.computes[f].start <= s.now
          && (s.computes[f].end.Some? <==> s.computes[f].outcome.Some?)
          && (s.computes[f].end.Some? ==> s.computes[f].start <= s.computes[f].end.value <= s.now))
    && (forall key :: key in s.cache.inflight ==>
          s.cache.inflight[key] in s.computes && s.computes[s.cache.inflight[key]].key == key
          && s.computes[s.cache.inflight[key]].outcome.None?)
    && (forall f :: f in s.computes && s.computes[f].outcome.None? ==>
          s.computes[f].key in s.cache.inflight && s.cache.inflight[s.computes[f].key] == f)
  }

  /** A waiter waits for a computation of its own key that was running when it called. */
  ghost predicate WaitersMatch(s: System) {
    forall c :: c in s.callers && s.callers[c].Waiting? ==>
      var w := s.callers[c];
      && w.f in s.computes && s.computes[w.f].key == w.key && s.computes[w.f].start <= w.since <= s.now
      && (s.computes[w.f].end.Some? ==> w.since <= s.computes[w.f].end.value)
  }

  /** A stored value is the outcome of the recorded computation and expires a TTL after its end. */
  ghost predicate StoreMatches(s: System) {
    forall key :: key in s.cache.store ==>
      && key in s.stored && s.stored[key] in s.computes
      && var k := s.computes[s.stored[key]];
         k.key == key && k.outcome == Some(Value(s.cache.store[key].value)) && k.end.Some?
         && s.cache.store[key].expiresAt == k.end.value + s.ttl
  }

  /** The result of a call: the outcome of a computation for its own key which was in flight
      during the call, or which had ended, with a value, no longer than the TTL before it. */
  ghost predicate Justified(s: System, d: State)
    requires d.Done?
  {
    && d.from in s.computes && d.since <= d.at <= s.now
    && var k := s.computes[d.from];
       && k.key == d.key && k.outcome == Some(d.outcome) && k.end.Some? && k.end.value <= d.at
       && (d.since <= k.end.value || (d.outcome.Value? && d.since <= k.end.value + s.ttl))
       && k.start <= d.at
  }

  ghost predicate ResultsJustified(s: System) {
    forall c :: c in s.callers && s.callers[c].Done? ==> Justified(s, s.callers[c])
  }

  ghost predicate Inv(s: System) {
    LeadersMatch(s) && FuturesMatch(s) && WaitersMatch(s) && StoreMatches(s) && ResultsJustified(s)
  }

  lemma InitialInv(now: int, ttl: nat)
    ensures Inv(Initial(now, ttl))
  {
  }

  /** Computations only ever gain their end. */
  ghost predicate ComputesGrow(a: System, b: System) {
    && a.now <= b.now && a.ttl == b.ttl
    && forall f :: f in a.computes ==>
         && f in b.computes
         && (b.computes[f] == a.computes[f]
             || (a.computes[f].outcome.None? && b.computes[f].key == a.computes[f].key
                 && b.computes[f].start == a.computes[f].start))
  }

  lemma NextGrows(s: System, step: Step)
    requires Inv(s) && Enabled(s, step)
    ensures ComputesGrow(s, Next(s, step))
  {
    if step.Finish? {
      var f := s.callers[step.c].f;
      assert s.computes[f].outcome.None?;
    }
  }

  lemma JustifiedStays(a: System, b: System, d: State)
    requires d.Done? && Justified(a, d) && ComputesGrow(a, b)
    ensures Justified(b, d)
  {
  }

  lemma LookedOnlyDrops(c: Cache, key: Key, now: int)
    ensures var (after, cached) := Looked(c, key, now);
            && after.inflight == c.inflight && after.futures == c.futures && after.nextFuture == c.nextFuture
            && (forall k :: k in after.store ==> k in c.store && after.store[k] == c.store[k])
  {
  }

  lemma BeginCases(c: Cache, key: Key, now: int)
    ensures var (after, begun) := Begin(c, key, now);
            && (forall k :: k in after.store ==> k in c.store && after.store[k] == c.store[k])
            && if begun.Lead? then
                 && key !in c.inflight && begun.f == c.nextFuture && after.nextFuture == c.nextFuture + 1
                 && after.inflight == c.inflight[key := begun.f] && after.futures == c.futures[begun.f := None]
               else after.inflight == c.inflight && after.futures == c.futures && after.nextFuture == c.nextFuture
  {
    LookedOnlyDrops(c, key, now);
  }

  /** What a call changes, by its three outcomes. */
  lemma CallCases(s: System, c: Caller, key: Key)
    requires FuturesMatch(s) && c !in s.callers
    ensures var n := Next(s, Call(c, key));
            && n.now == s.now && n.ttl == s.ttl && n.stored == s.stored && n.callers == s.callers[c := n.callers[c]]
            && (forall k :: k in n.cache.store ==> k in s.cache.store && n.cache.store[k] == s.cache.store[k])
            && if n.callers[c].Leading? then
                 var f := s.cache.nextFuture;
                 && key !in s.cache.inflight && f !in s.computes && f !in s.cache.futures
                 && n.callers[c] == Leading(key, f, s.now)
                 && n.cache.inflight == s.cache.inflight[key := f] && n.cache.futures == s.cache.futures[f := None]
                 && n.cache.nextFuture == f + 1 && n.computes == s.computes[f := Compute(key, s.now, None, None)]
               else
                 && n.cache.inflight == s.cache.inflight && n.cache.futures == s.cache.futures
                 && n.cache.nextFuture == s.cache.nextFuture && n.computes == s.computes
  {
    BeginCases(s.cache, key, s.now);
    assert s.cache.nextFuture !in s.cache.futures;
  }

  lemma CallKeepsLeaders(s: System, c: Caller, key: Key)
    requires LeadersMatch(s) && FuturesMatch(s) && c !in s.callers
    ensures LeadersMatch(Next(s, Call(c, key)))
  {
    CallCases(s, c, key);
    var n := Next(s, Call(c, key));
    if n.callers[c].Leading? {
      NewLeader(s, n, c, key, s.cache.nextFuture);
    } else {
      SameLeaders(s, n);
    }
  }

  /** A caller who finds nothing leads a new computation. */
  ghost predicate Led(s: System, n: System, c: Caller, key: Key, f: FutureId) {
    && c !in s.callers && key !in s.cache.inflight && f !in s.computes && n.now == s.now
    && n.callers == s.callers[c := Leading(key, f, s.now)] && n.cache.inflight == s.cache.inflight[key := f]
    && n.cache.futures == s.cache.futures[f := None] && n.computes == s.computes[f := Compute(key, s.now, None, None)]
  }

  lemma NewLeaderIsLed(s: System, n: System, c: Caller, key: Key, f: FutureId)
    requires InflightIsLed(s) && Led(s, n, c, key, f)
    ensures InflightIsLed(n)
  {
    forall k | k in n.cache.inflight ensures exists d :: LeadsFor(n, d, k, n.cache.inflight[k]) {
      if k in s.cache.inflight {
        var d :| LeadsFor(s, d, k, s.cache.inflight[k]);
        assert LeadsFor(n, d, k, n.cache.inflight[k]);
      } else {
        assert LeadsFor(n, c, k, n.cache.inflight[k]);
      }
    }
  }

  lemma NewLeaderRuns(s: System, n: System, c: Caller, key: Key, f: FutureId)
    requires LeadersRun(s) && Led(s, n, c, key, f)
    ensures LeadersRun(n)
  {
  }

  lemma NewLeader(s: System, n: System, c: Caller, key: Key, f: FutureId)
    requires LeadersMatch(s) && Led(s, n, c, key, f)
    ensures LeadersMatch(n)
  {
    NewLeaderIsLed(s, n, c, key, f);
    NewLeaderRuns(s, n, c, key, f);
  }

  lemma CallKeepsFutures(s: System, c: Caller, key: Key)
    requires FuturesMatch(s) && c !in s.callers
    ensures FuturesMatch(Next(s, Call(c, key)))
  {
    CallCases(s, c, key);
  }

  /** What the end of a computation changes. */
  lemma FinishFacts(s: System, c: Caller, outcome: Outcome)
    requires LeadersMatch(s) && FuturesMatch(s) && c in s.callers && s.callers[c].Leading?
    ensures var n := Next(s, Finish(c, outcome));
            var Leading(key, f, since) := s.callers[c];
            && f in s.computes && s.computes[f] == Compute(key, since, None, None) && since <= s.now
            && key in s.cache.inflight && s.cache.inflight[key] == f
            && n.cache.inflight == s.cache.inflight - {key} && n.cache.futures == s.cache.futures[f := Some(outcome)]
            && n.computes == s.computes[f := Compute(key, since, Some(s.now), Some(outcome))]
            && n.callers == s.callers[c := Done(key, outcome, since, s.now, f)]
            && n.cache.nextFuture == s.cache.nextFuture && n.now == s.now && n.ttl == s.ttl
  {
  }

  lemma FinishKeepsLeaders(s: System, c: Caller, outcome: Outcome)
    requires LeadersMatch(s) && FuturesMatch(s) && c in s.callers && s.callers[c].Leading?
    ensures LeadersMatch(Next(s, Finish(c, outcome)))
  {
    FinishFacts(s, c, outcome);
    var n := Next(s, Finish(c, outcome));
    forall k | k in n.cache.inflight ensures exists d :: LeadsFor(n, d, k, n.cache.inflight[k]) {
      var d :| LeadsFor(s, d, k, s.cache.inflight[k]);
      assert d != c;
      assert LeadsFor(n, d, k, n.cache.inflight[k]);
    }
  }

  lemma FinishKeepsFutures(s: System, c: Caller, outcome: Outcome)
    requires LeadersMatch(s) && FuturesMatch(s) && c in s.callers && s.callers[c].Leading?
    ensures FuturesMatch(Next(s, Finish(c, outcome)))
  {
    FinishFacts(s, c, outcome);
    var n := Next(s, Finish(c, outcome));
    var f, key := s.callers[c].f, s.callers[c].key;
    forall k | k in n.cache.inflight ensures n.cache.inflight[k] != f {
      assert k != key && s.computes[s.cache.inflight[k]].key == k;
    }
  }

  lemma NextKeepsLeaders(s: System, step: Step)
    requires LeadersMatch(s) && FuturesMatch(s) && Enabled(s, step)
    ensures LeadersMatch(Next(s, step)) && FuturesMatch(Next(s, step))
  {
    match step
    case Call(c, key) => CallKeepsLeaders(s, c, key); CallKeepsFutures(s, c, key);
    case Finish(c, outcome) => FinishKeepsLeaders(s, c, outcome); FinishKeepsFutures(s, c, outcome);
    case Tick(to) => SameLeaders(s, Next(s, step));
    case Resume(c) => SameLeaders(s, Next(s, step));
  }

  lemma SameLeaders(s: System, n: System)
    requires LeadersMatch(s) && s.cache.inflight == n.cache.inflight && s.cache.futures == n.cache.futures
    requires s.computes == n.computes && s.now <= n.now
    requires forall c :: c in s.callers && s.callers[c].Leading? ==> c in n.callers && n.callers[c] == s.callers[c]
    requires forall c :: c in n.callers && n.callers[c].Leading? ==> c in s.callers && n.callers[c] == s.callers[c]
    ensures LeadersMatch(n)
  {
    forall k | k in n.cache.inflight ensures exists d :: LeadsFor(n, d, k, n.cache.inflight[k]) {
      var d :| LeadsFor(s, d, k, s.cache.inflight[k]);
      assert LeadsFor(n, d, k, n.cache.inflight[k]);
    }
  }

  lemma NextKeepsWaiters(s: System, step: Step)
    requires Inv(s) && Enabled(s, step)
    ensures WaitersMatch(Next(s, step))
  {
    match step
    case Call(c, key) => CallKeepsWaiters(s, c, key);
    case Finish(c, outcome) => FinishKeepsWaiters(s, c, outcome);
    case Tick(to) =>
    case Resume(c) =>
  }

  /** Who starts to wait waits for the running computation of its key. */
  lemma CallKeepsWaiters(s: System, c: Caller, key: Key)
    requires LeadersMatch(s) && FuturesMatch(s) && WaitersMatch(s) && c !in s.callers
    ensures WaitersMatch(Next(s, Call(c, key)))
  {
    CallCases(s, c, key);
    var n := Next(s, Call(c, key));
    if n.callers[c].Waiting? {
      CallWaits(s, c, key);
      RunsInFlight(s, key);
    }
    forall d | d in n.callers && n.callers[d].Waiting? && d != c
      ensures d in s.callers && n.callers[d] == s.callers[d]
    {
    }
  }

  lemma CallWaits(s: System, c: Caller, key: Key)
    requires FuturesMatch(s) && c !in s.callers && Next(s, Call(c, key)).callers[c].Waiting?
    ensures key in s.cache.inflight
    ensures Next(s, Call(c, key)).callers[c] == Waiting(key, s.cache.inflight[key], s.now)
  {
    BeginCases(s.cache, key, s.now);
  }

  /** What is in flight for a key is a computation for it that has not ended. */
  lemma RunsInFlight(s: System, key: Key)
    requires LeadersMatch(s) && key in s.cache.inflight
    ensures var f := s.cache.inflight[key];
            && f in s.computes && s.computes[f].key == key && s.computes[f].start <= s.now && s.computes[f].end.None?
  {
    var d :| LeadsFor(s, d, key, s.cache.inflight[key]);
  }

  lemma FinishKeepsWaiters(s: System, c: Caller, outcome: Outcome)
    requires LeadersMatch(s) && FuturesMatch(s) && WaitersMatch(s) && c in s.callers && s.callers[c].Leading?
    ensures WaitersMatch(Next(s, Finish(c, outcome)))
  {
    FinishFacts(s, c, outcome);
  }

  lemma NextKeepsStore(s: System, step: Step)
    requires LeadersMatch(s) && FuturesMatch(s) && StoreMatches(s) && Enabled(s, step)
    ensures StoreMatches(Next(s, step))
  {
    match step
    case Call(c, key) => CallCases(s, c, key);
    case Finish(c, outcome) => FinishKeepsStore(s, c, outcome);
    case Tick(to) =>
    case Resume(c) =>
  }

  lemma FinishKeepsStore(s: System, c: Caller, outcome: Outcome)
    requires LeadersMatch(s) && FuturesMatch(s) && StoreMatches(s) && c in s.callers && s.callers[c].Leading?
    ensures StoreMatches(Next(s, Finish(c, outcome)))
  {
    FinishFacts(s, c, outcome);
    var n := Next(s, Finish(c, outcome));
    forall key | key in n.cache.store && !(outcome.Value? && key == s.callers[c].key)
      ensures && key in s.cache.store && n.cache.store[key] == s.cache.store[key]
              && n.stored[key] == s.stored[key] && n.computes[n.stored[key]] == s.computes[s.stored[key]]
    {
    }
  }

  /** A hit returns the stored outcome, which ended no longer than the TTL before. */
  lemma HitIsJustified(s: System, c: Caller, key: Key)
    requires FuturesMatch(s) && StoreMatches(s) && c !in s.callers && Next(s, Call(c, key)).callers[c].Done?
    ensures Justified(Next(s, Call(c, key)), Next(s, Call(c, key)).callers[c])
  {
    BeginCases(s.cache, key, s.now);
  }

  lemma FinishIsJustified(s: System, c: Caller, outcome: Outcome)
    requires LeadersMatch(s) && FuturesMatch(s) && c in s.callers && s.callers[c].Leading?
    ensures Next(s, Finish(c, outcome)).callers[c].Done?
    ensures Justified(Next(s, Finish(c, outcome)), Next(s, Finish(c, outcome)).callers[c])
  {
    FinishFacts(s, c, outcome);
  }

  lemma ResumeIsJustified(s: System, c: Caller)
    requires FuturesMatch(s) && WaitersMatch(s) && Enabled(s, Resume(c))
    ensures Next(s, Resume(c)).callers[c].Done?
    ensures Justified(Next(s, Resume(c)), Next(s, Resume(c)).callers[c])
  {
  }

  /** A step concerns at most its own caller. */
  lemma OtherCallers(s: System, step: Step, d: Caller)
    requires Enabled(s, step) && (step.Tick? || d != step.c)
    ensures d in Next(s, step).callers <==> d in s.callers
    ensures d in s.callers ==> Next(s, step).callers[d] == s.callers[d]
  {
  }

  lemma NextKeepsResults(s: System, step: Step)
    requires Inv(s) && Enabled(s, step)
    ensures ResultsJustified(Next(s, step))
  {
    var n := Next(s, step);
    NextGrows(s, step);
    forall d | d in n.callers && n.callers[d].Done? ensures Justified(n, n.callers[d]) {
      if step.Tick? || d != step.c {
        OtherCallers(s, step, d);
        JustifiedStays(s, n, s.callers[d]);
      } else {
        match step
        case Call(c, key) => HitIsJustified(s, c, key);
        case Finish(c, outcome) => FinishIsJustified(s, c, outcome);
        case Resume(c) => ResumeIsJustified(s, c);
      }
    }
  }

  lemma NextKeepsInv(s: System, step: Step)
    requires Inv(s) && Enabled(s, step)
    ensures Inv(Next(s, step))
  {
    NextKeepsLeaders(s, step);
    NextKeepsWaiters(s, step);
    NextKeepsStore(s, step);
    NextKeepsResults(s, step);
  }

  /** A run: any interleaving of the atomic steps. */
  ghost predicate Run(states: seq<System>, steps: seq<Step>) {
    && |states| == |steps| + 1
    && forall i :: 0 <= i < |steps| ==> Enabled(states[i], steps[i]) && states[i + 1] == Next(states[i], steps[i])
  }

  lemma {:induction false} RunKeepsInv(states: seq<System>, steps: seq<Step>, n: nat)
    requires Run(states, steps) && n <= |steps| && exists now, ttl :: states[0] == Initial(now, ttl)
    ensures Inv(states[n])
  {
    if n == 0 {
      var now, ttl :| states[0] == Initial(now, ttl);
      InitialInv(now, ttl);
    } else {
      RunKeepsInv(states, steps, n - 1);
      NextKeepsInv(states[n - 1], steps[n - 1]);
    }
  }

  // ---- the guarantees ----

  /** At any point of any run at most one caller computes a key, and every finished call returned
      the outcome of a justified computation for its key. */
  lemma SingleFlight(states: seq<System>, steps: seq<Step>, n: nat)
    requires Run(states, steps) && n <= |steps| && exists now, ttl :: states[0] == Initial(now, ttl)
    ensures forall a, b, key, f, g :: LeadsFor(states[n], a, key, f) && LeadsFor(states[n], b, key, g) ==>
              a == b && f == g
    ensures ResultsJustified(states[n])
  {
    RunKeepsInv(states, steps, n);
  }

  /** When a leader ends, its key has no in-flight entry and everybody who waited for it can resume,
      with its outcome. */
  lemma LeaderEndReleasesAll(s: System, c: Caller, outcome: Outcome)
    requires Inv(s) && c in s.callers && s.callers[c].Leading?
    ensures var n := Next(s, Finish(c, outcome));
            && s.callers[c].key !in n.cache.inflight
            && n.callers[c].Done? && n.callers[c].outcome == outcome
            && forall w :: w in s.callers && s.callers[w].Waiting? && s.callers[w].f == s.callers[c].f ==>
                 && Enabled(n, Resume(w)) && Next(n, Resume(w)).callers[w].Done?
                 && Next(n, Resume(w)).callers[w].outcome == outcome
  {
    var n := Next(s, Finish(c, outcome));
    forall w | w in s.callers && s.callers[w].Waiting? && s.callers[w].f == s.callers[c].f
      ensures && Enabled(n, Resume(w)) && Next(n, Resume(w)).callers[w].Done?
              && Next(n, Resume(w)).callers[w].outcome == outcome
    {
      assert w != c && n.callers[w] == s.callers[w];
    }
  }

  /** Nobody is stuck: whoever waits has a leader that still computes, or can resume. */
  lemma WaitersProgress(s: System, w: Caller)
    requires Inv(s) && w in s.callers && s.callers[w].Waiting?
    ensures Enabled(s, Resume(w)) || exists c :: LeadsFor(s, c, s.callers[w].key, s.callers[w].f)
  {
    var f := s.callers[w].f;
    if s.computes[f].outcome.None? {
      var c :| LeadsFor(s, c, s.computes[f].key, s.cache.inflight[s.computes[f].key]);
    }
  }
}
