/** What the cache answers: when a call is served from it, when it waits, when it computes. */
module CacheAnswers {
  import opened Wrappers
  import opened SingleFlight

  /** There is a value for the key that has not expired. */
  predicate Live(c: Cache, key: Key, now: int) {
    key in c.store && now <= c.store[key].expiresAt
  }

  /** A call is a hit exactly for a live value, which it returns; otherwise it waits exactly if the key is being
      computed, and else computes it. An expired value is dropped, and nothing else changes. */
  lemma BeginsIff(c: Cache, key: Key, now: int)
    ensures var (n, begun) := Begin(c, key, now);
            && (begun.Hit? <==> Live(c, key, now))
            && (begun.Await? <==> !Live(c, key, now) && key in c.inflight)
            && (begun.Hit? ==> begun.value == c.store[key].value && n == c)
            && (begun.Await? ==> begun.f == c.inflight[key] && n == c.(store := c.store - {key}))
            && (begun.Lead? ==>
                  && begun.f == c.nextFuture && n.nextFuture == c.nextFuture + 1
                  && n.store == c.store - {key} && n.inflight == c.inflight[key := begun.f]
                  && n.futures == c.futures[begun.f := None])
  {
    assert key !in c.store ==> c.store - {key} == c.store;
  }

  /** At the end of a computation its value is kept for a TTL from then on; a failure leaves the stored value
      alone. Either way the outcome is handed on and the key is free. */
  lemma EndKeeps(c: Cache, key: Key, f: FutureId, outcome: Outcome, now: int, ttl: int)
    ensures var n := End(c, key, f, outcome, now, ttl);
            && (outcome.Value? ==> n.store == c.store[key := Entry(now + ttl, outcome.v)])
            && (outcome.Failure? ==> n.store == c.store)
            && n.futures == c.futures[f := Some(outcome)] && n.nextFuture == c.nextFuture
            && (forall k :: k in n.inflight <==> k in c.inflight && (k != key || c.inflight[k] != f))
            && (forall k :: k in n.inflight ==> n.inflight[k] == c.inflight[k])
            && (forall at :: outcome.Value? && at <= now + ttl ==> Live(n, key, at))
  {
  }

  /** The step stores a new value for the key. */
  predicate StoresAnew(s: System, step: Step, key: Key) {
    && step.Finish? && step.outcome.Value?
    && step.c in s.callers && s.callers[step.c].Leading? && s.callers[step.c].key == key
  }

  /** Until it expires or is replaced a stored value stays, whatever happens. */
  lemma StepKeepsStored(s: System, step: Step, key: Key)
    requires Enabled(s, step) && Live(s.cache, key, s.now) && !StoresAnew(s, step, key)
    ensures key in Next(s, step).cache.store && Next(s, step).cache.store[key] == s.cache.store[key]
    ensures Next(s, step).ttl == s.ttl && s.now <= Next(s, step).now
  {
    if step.Call? {
      BeginsIff(s.cache, step.key, s.now);
    }
  }

  lemma {:induction false} TimePasses(states: seq<System>, steps: seq<Step>, i: nat, j: nat)
    requires Run(states, steps) && i <= j <= |steps|
    ensures states[i].now <= states[j].now && states[i].ttl == states[j].ttl
  {
    if i < j {
      TimePasses(states, steps, i, j - 1);
      assert Enabled(states[j - 1], steps[j - 1]) && states[j] == Next(states[j - 1], steps[j - 1]);
    }
  }

  lemma {:induction false} StoredUntil(states: seq<System>, steps: seq<Step>, i: nat, j: nat, m: nat, key: Key)
    requires Run(states, steps) && i < m <= j <= |steps| && StoresAnew(states[i], steps[i], key)
    requires states[j].now <= states[i].now + states[i].ttl
    requires forall k :: i < k < j ==> !StoresAnew(states[k], steps[k], key)
    ensures key in states[m].cache.store
    ensures states[m].cache.store[key] == Entry(states[i].now + states[i].ttl, steps[i].outcome.v)
    decreases m
  {
    if m == i + 1 {
      assert states[i + 1] == Next(states[i], steps[i]);
    } else {
      StoredUntil(states, steps, i, j, m - 1, key);
      TimePasses(states, steps, m - 1, j);
      StepKeepsStored(states[m - 1], steps[m - 1], key);
      assert states[m] == Next(states[m - 1], steps[m - 1]);
    }
  }

  /** Over any run: a call for a key within a TTL of the last value computed for it returns that value at once
      and starts no computation. */
  lemma HitsWithinTtl(states: seq<System>, steps: seq<Step>, i: nat, j: nat, key: Key)
    requires Run(states, steps) && i < j < |steps| && StoresAnew(states[i], steps[i], key)
    requires forall k :: i < k < j ==> !StoresAnew(states[k], steps[k], key)
    requires steps[j].Call? && steps[j].key == key && states[j].now <= states[i].now + states[i].ttl
    ensures var d, n := steps[j].c, states[j + 1];
            && d in n.callers && n.callers[d].Done? && n.callers[d].key == key
            && n.callers[d].outcome == Value(steps[i].outcome.v) && n.callers[d].at == states[j].now
            && n.computes == states[j].computes
  {
    StoredUntil(states, steps, i, j, j, key);
    BeginsIff(states[j].cache, key, states[j].now);
    assert Enabled(states[j], steps[j]) && states[j + 1] == Next(states[j], steps[j]);
  }

  /** A call for a key without a live value computes it, unless somebody does already. */
  lemma MissComputes(s: System, c: Caller, key: Key)
    requires Inv(s) && c !in s.callers && !Live(s.cache, key, s.now)
    ensures var n := Next(s, Call(c, key));
            if key in s.cache.inflight
            then n.callers[c] == Waiting(key, s.cache.inflight[key], s.now) && n.computes == s.computes
            else && n.callers[c].Leading? && n.callers[c].f !in s.computes
                 && n.computes == s.computes[n.callers[c].f := Compute(key, s.now, None, None)]
  {
    BeginsIff(s.cache, key, s.now);
  }
}
