/** Rolling minute metrics up into hours. */
module Compaction {
  import opened Latency

  datatype Totals = Totals(
    count: int, durationSum: real, durationMax: real, requestBytes: int, responseBytes: int, dropped: int,
    histogram: Histogram)

  const ZERO := Totals(0, 0.0, 0.0, 0, 0, 0, multiset{})

  /** Two sets of measurements taken together. */
  function Combine(a: Totals, b: Totals): Totals {
    Totals(a.count + b.count, a.durationSum + b.durationSum,
           if a.durationMax >= b.durationMax then a.durationMax else b.durationMax,
           a.requestBytes + b.requestBytes, a.responseBytes + b.responseBytes, a.dropped + b.dropped,
           a.histogram + b.histogram)
  }

  datatype Series = Series(service: string, verb: string, route: string, status: int)

  datatype HourKey = HourKey(hour: string, series: Series)

  type Id = int

  datatype Minute = Minute(bucket: string, series: Series, totals: Totals)

  const BATCH_LIMIT := 20000

  /** Time stamps in ISO 8601 order as text does. */
  predicate Earlier(a: string, b: string) {
    if b == "" then false
    else if a == "" then true
    else a[0] < b[0] || (a[0] == b[0] && Earlier(a[1..], b[1..]))
  }

  /** The place where one text comes before another: where the first ends or has the smaller character. */
  predicate SmallerAt(a: string, b: string, i: nat) {
    && i <= |a| && i < |b| && a[..i] == b[..i] && (i == |a| || a[i] < b[i])
  }

  lemma SameBefore(a: string, b: string, i: nat)
    requires SmallerAt(a, b, i)
    ensures i > 0 ==> a[0] == b[0]
  {
    assert i > 0 ==> a[..i][0] == a[0] && b[..i][0] == b[0];
  }

  lemma {:induction false} EarlierIff(a: string, b: string)
    ensures Earlier(a, b) <==> exists i: nat :: SmallerAt(a, b, i)
  {
    if a != "" && b != "" && a[0] == b[0] {
      EarlierIff(a[1..], b[1..]);
      if i: nat :| SmallerAt(a[1..], b[1..], i) {
        assert a[..i + 1] == [a[0]] + a[1..][..i] && b[..i + 1] == [b[0]] + b[1..][..i];
        assert SmallerAt(a, b, i + 1);
      }
      if i: nat :| SmallerAt(a, b, i) {
        assert i > 0 && a[1..][..i - 1] == a[..i][1..] && b[1..][..i - 1] == b[..i][1..];
        assert SmallerAt(a[1..], b[1..], i - 1);
      }
    } else if Earlier(a, b) {
      assert SmallerAt(a, b, 0);
    } else if i: nat :| SmallerAt(a, b, i) {
      SameBefore(a, b, i);
    }
  }

  /** bucket_start[:13] + ":00:00Z" */
  function HourOf(bucket: string): string {
    (if |bucket| > 13 then bucket[..13] else bucket) + ":00:00Z"
  }

  function KeyOf(m: Minute): HourKey { HourKey(HourOf(m.bucket), m.series) }

  /** Two time stamps fall into one row of the hours exactly when they agree in date and hour, and were made for the
      same service, verb, route and status; the row is named by that hour. */
  lemma SameHourIff(a: Minute, b: Minute)
    requires |a.bucket| >= 13 && |b.bucket| >= 13
    ensures KeyOf(a) == KeyOf(b)
            <==> && (forall i :: 0 <= i < 13 ==> a.bucket[i] == b.bucket[i])
                 && a.series.service == b.series.service && a.series.verb == b.series.verb
                 && a.series.route == b.series.route && a.series.status == b.series.status
    ensures |KeyOf(a).hour| == 20 && KeyOf(a).hour[..13] == a.bucket[..13] && KeyOf(a).hour[13..] == ":00:00Z"
  {
    var x, y := KeyOf(a).hour, KeyOf(b).hour;
    assert x[..13] == a.bucket[..13] && y[..13] == b.bucket[..13];
    if forall i :: 0 <= i < 13 ==> a.bucket[i] == b.bucket[i] {
      assert a.bucket[..13] == b.bucket[..13];
    }
    if x == y {
      forall i | 0 <= i < 13 ensures a.bucket[i] == b.bucket[i] {
        assert x[..13][i] == y[..13][i];
      }
    }
  }

  /** Durations are not negative. */
  ghost predicate Measured(t: Totals) { t.durationMax >= 0.0 }

  // ---- totals over a set of rows ----

  function Part(m: Minute, k: HourKey): Totals { if KeyOf(m) == k then m.totals else ZERO }

  ghost function TotalOver(rows: map<Id, Minute>, ids: set<Id>, k: HourKey): Totals
    requires ids <= rows.Keys
  {
    if i :| i in ids then Combine(TotalOver(rows, ids - {i}, k), Part(rows[i], k)) else ZERO
  }

  /** Counts, sums and histograms add up; the longest duration is the longer one. */
  lemma TakenTogether(a: Totals, b: Totals)
    ensures var t := Combine(a, b);
            && t.count - a.count == b.count && t.durationSum - a.durationSum == b.durationSum
            && t.requestBytes - a.requestBytes == b.requestBytes && t.responseBytes - a.responseBytes == b.responseBytes
            && t.dropped - a.dropped == b.dropped
            && (forall x :: t.histogram[x] == a.histogram[x] + b.histogram[x])
            && t.durationMax >= a.durationMax && t.durationMax >= b.durationMax
            && (t.durationMax == a.durationMax || t.durationMax == b.durationMax)
  {
  }

  lemma CombineSwaps(a: Totals, b: Totals, c: Totals)
    ensures Combine(Combine(a, b), c) == Combine(Combine(a, c), b)
  {
  }

  lemma CombineAssociates(a: Totals, b: Totals, c: Totals)
    ensures Combine(Combine(a, b), c) == Combine(a, Combine(b, c))
  {
  }

  lemma ZeroAddsNothing(a: Totals)
    requires Measured(a)
    ensures Combine(a, ZERO) == a == Combine(ZERO, a)
  {
  }

  /** Any one row can be taken out first. */
  lemma {:induction false} TotalOfOneMore(rows: map<Id, Minute>, ids: set<Id>, k: HourKey, x: Id)
    requires ids <= rows.Keys && x in ids
    ensures TotalOver(rows, ids, k) == Combine(TotalOver(rows, ids - {x}, k), Part(rows[x], k))
    decreases |ids|
  {
    var y :| y in ids && TotalOver(rows, ids, k) == Combine(TotalOver(rows, ids - {y}, k), Part(rows[y], k));
    if y != x {
      TotalOfOneMore(rows, ids - {y}, k, x);
      TotalOfOneMore(rows, ids - {x}, k, y);
      assert ids - {y} - {x} == ids - {x} - {y};
      CombineSwaps(TotalOver(rows, ids - {x} - {y}, k), Part(rows[x], k), Part(rows[y], k));
    }
  }

  lemma Assembles(whole: Totals, less: Totals, a: Totals, b: Totals, more: Totals, x: Totals)
    requires whole == Combine(less, x) && less == Combine(a, b) && more == Combine(b, x)
    ensures whole == Combine(a, more)
  {
    CombineAssociates(a, b, x);
  }

  lemma {:induction false} PartsGrow(rows: map<Id, Minute>, a: set<Id>, b: set<Id>, whole: set<Id>, k: HourKey, x: Id)
    requires whole <= rows.Keys && b <= whole && a <= whole && x in b
    requires TotalOver(rows, whole - {x}, k) == Combine(TotalOver(rows, a, k), TotalOver(rows, b - {x}, k))
    ensures TotalOver(rows, whole, k) == Combine(TotalOver(rows, a, k), TotalOver(rows, b, k))
  {
    TotalOfOneMore(rows, whole, k, x);
    TotalOfOneMore(rows, b, k, x);
    Assembles(TotalOver(rows, whole, k), TotalOver(rows, whole - {x}, k), TotalOver(rows, a, k),
              TotalOver(rows, b - {x}, k), TotalOver(rows, b, k), Part(rows[x], k));
  }

  lemma {:induction false} NoMoreRows(rows: map<Id, Minute>, ids: set<Id>, none: set<Id>, k: HourKey)
    requires ids <= rows.Keys && none <= rows.Keys && forall i :: i !in none
    ensures TotalOver(rows, ids, k) == Combine(TotalOver(rows, ids, k), TotalOver(rows, none, k))
  {
    NothingFor(rows, none, k);
    NotBelowZero(rows, ids, k);
    ZeroAddsNothing(TotalOver(rows, ids, k));
  }

  /** Two parts of the table add up to the whole. */
  lemma {:induction false} TotalOfParts(rows: map<Id, Minute>, a: set<Id>, b: set<Id>, whole: set<Id>, k: HourKey)
    requires whole <= rows.Keys && whole == a + b && a !! b
    ensures TotalOver(rows, whole, k) == Combine(TotalOver(rows, a, k), TotalOver(rows, b, k))
    decreases |b|
  {
    if x :| x in b {
      var less := b - {x};
      assert |less| < |b|;
      assert whole - {x} == a + less;
      TotalOfParts(rows, a, less, whole - {x}, k);
      PartsGrow(rows, a, b, whole, k, x);
    } else {
      assert forall i :: i in whole <==> i in a;
      assert whole == a;
      NoMoreRows(rows, a, b, k);
    }
  }

  lemma {:induction false} NotBelowZero(rows: map<Id, Minute>, ids: set<Id>, k: HourKey)
    requires ids <= rows.Keys
    ensures Measured(TotalOver(rows, ids, k))
    decreases |ids|
  {
    if i :| i in ids && TotalOver(rows, ids, k) == Combine(TotalOver(rows, ids - {i}, k), Part(rows[i], k)) {
      NotBelowZero(rows, ids - {i}, k);
    }
  }

  lemma {:induction false} TotalFramed(rows: map<Id, Minute>, other: map<Id, Minute>, ids: set<Id>, k: HourKey)
    requires ids <= rows.Keys && ids <= other.Keys && forall i :: i in ids ==> rows[i] == other[i]
    ensures TotalOver(rows, ids, k) == TotalOver(other, ids, k)
    decreases |ids|
  {
    if i :| i in ids {
      TotalOfOneMore(rows, ids, k, i);
      TotalOfOneMore(other, ids, k, i);
      TotalFramed(rows, other, ids - {i}, k);
    }
  }

  // ---- the two tables ----

  datatype Tables = Tables(minutes: map<Id, Minute>, hours: map<HourKey, Totals>)

  function HourTotal(hours: map<HourKey, Totals>, k: HourKey): Totals { if k in hours then hours[k] else ZERO }

  /** Everything recorded for an hour of a series, wherever it is kept. */
  ghost function Overall(t: Tables, k: HourKey): Totals {
    Combine(HourTotal(t.hours, k), TotalOver(t.minutes, t.minutes.Keys, k))
  }

  function KeysOf(minutes: map<Id, Minute>, ids: set<Id>): set<HourKey>
    requires ids <= minutes.Keys
  {
    set i | i in ids :: KeyOf(minutes[i])
  }

  ghost function Backlog(minutes: map<Id, Minute>, cutoff: string): set<Id> {
    set i | i in minutes && Earlier(minutes[i].bucket, cutoff)
  }

  /** ORDER BY bucket_start LIMIT 20000: as many old rows as the limit allows, and none left out that
      is earlier than one taken. */
  ghost predicate IsBatch(minutes: map<Id, Minute>, cutoff: string, batch: set<Id>) {
    var due := Backlog(minutes, cutoff);
    && batch <= due
    && |batch| == (if |due| <= BATCH_LIMIT then |due| else BATCH_LIMIT)
    && forall i, j :: i in batch && j in due - batch ==> !Earlier(minutes[j].bucket, minutes[i].bucket)
  }

  /** One tick: the batch leaves the minutes and is added to its hours. */
  ghost predicate Compacts(before: Tables, cutoff: string, batch: set<Id>, after: Tables) {
    && IsBatch(before.minutes, cutoff, batch)
    && after.minutes == before.minutes - batch
    && after.hours.Keys == before.hours.Keys + KeysOf(before.minutes, batch)
    && forall k :: k in after.hours ==>
         after.hours[k] == Combine(HourTotal(before.hours, k), TotalOver(before.minutes, batch, k))
  }

  /** A tick keeps every count, sum, maximum and histogram, hour by hour and series by series. */
  lemma TickConserves(before: Tables, cutoff: string, batch: set<Id>, after: Tables, k: HourKey)
    requires Compacts(before, cutoff, batch, after)
    ensures Overall(after, k) == Overall(before, k)
  {
    var rows, rest := before.minutes, before.minutes.Keys - batch;
    assert after.minutes.Keys == rest && rows.Keys == batch + rest;
    TotalFramed(rows, after.minutes, rest, k);
    TotalOfParts(rows, batch, rest, rows.Keys, k);
    var gone, left := TotalOver(rows, batch, k), TotalOver(rows, rest, k);
    if k in after.hours {
      CombineAssociates(HourTotal(before.hours, k), gone, left);
    } else {
      NothingFor(rows, batch, k);
      NotBelowZero(rows, rest, k);
      ZeroAddsNothing(left);
    }
  }

  lemma {:induction false} NothingFor(rows: map<Id, Minute>, ids: set<Id>, k: HourKey)
    requires ids <= rows.Keys && forall i :: i in ids ==> KeyOf(rows[i]) != k
    ensures TotalOver(rows, ids, k) == ZERO
    decreases |ids|
  {
    if i :| i in ids {
      TotalOfOneMore(rows, ids, k, i);
      NothingFor(rows, ids - {i}, k);
    }
  }

  /** Each step is a tick with some cutoff. */
  ghost predicate Ticks(run: seq<Tables>) {
    forall n :: 0 <= n < |run| - 1 ==> Tick(run[n], run[n + 1])
  }

  ghost predicate Tick(before: Tables, after: Tables) {
    exists cutoff, batch :: Compacts(before, cutoff, batch, after)
  }

  /** Any number of ticks, at any times and however the limit cuts the batches. */
  lemma {:induction false} TicksConserve(run: seq<Tables>, k: HourKey)
    requires run != [] && Ticks(run)
    ensures Overall(run[|run| - 1], k) == Overall(run[0], k)
  {
    var n := |run| - 1;
    if n > 0 {
      var front := run[..n];
      forall m | 0 <= m < |front| - 1
        ensures Tick(front[m], front[m + 1])
      {
        assert Tick(run[m], run[m + 1]);
      }
      TicksConserve(front, k);
      assert Tick(run[n - 1], run[n - 1 + 1]);
      var cutoff, batch :| Compacts(run[n - 1], cutoff, batch, run[n]);
      TickConserves(run[n - 1], cutoff, batch, run[n], k);
    }
  }

  /** A tick takes its limit off the backlog, oldest rows first, and touches nothing newer. */
  lemma {:induction false} TickDrains(before: Tables, cutoff: string, batch: set<Id>, after: Tables)
    requires Compacts(before, cutoff, batch, after)
    ensures var left, had := |Backlog(after.minutes, cutoff)|, |Backlog(before.minutes, cutoff)|;
            left == if had <= BATCH_LIMIT then 0 else had - BATCH_LIMIT
    ensures forall i :: i in before.minutes && !Earlier(before.minutes[i].bucket, cutoff) ==>
              i in after.minutes && after.minutes[i] == before.minutes[i]
  {
    assert Backlog(after.minutes, cutoff) == Backlog(before.minutes, cutoff) - batch;
  }
}
