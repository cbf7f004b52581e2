/** The compaction job, performed on the minute and hour tables. */
module CompactionStore {
  import opened Latency
  import opened Compaction

  lemma {:induction false} EarlierIsStrict(a: string)
    ensures !Earlier(a, a)
  {
    if a != "" {
      EarlierIsStrict(a[1..]);
    }
  }

  lemma {:induction false} NotEarlierChains(a: string, b: string, c: string)
    requires !Earlier(b, a) && !Earlier(c, b)
    ensures !Earlier(c, a)
    decreases |a|
  {
    if a != "" && b != "" && c != "" && a[0] == b[0] == c[0] {
      NotEarlierChains(a[1..], b[1..], c[1..]);
    }
  }

  lemma {:induction false} EarlierIsAsymmetric(a: string, b: string)
    requires Earlier(a, b)
    ensures !Earlier(b, a)
    decreases |a|
  {
    if a != "" && a[0] == b[0] {
      EarlierIsAsymmetric(a[1..], b[1..]);
    }
  }

  ghost predicate First(rows: map<Id, Minute>, ids: set<Id>, i: Id)
    requires ids <= rows.Keys
  {
    i in ids && forall j :: j in ids ==> !Earlier(rows[j].bucket, rows[i].bucket)
  }

  /** Among some rows one is earliest. */
  lemma {:induction false} FirstExists(rows: map<Id, Minute>, ids: set<Id>, x: Id)
    requires ids <= rows.Keys && x in ids
    ensures exists i :: First(rows, ids, i)
    decreases |ids|
  {
    EarlierIsStrict(rows[x].bucket);
    if y :| y in ids && y != x {
      var rest := ids - {x};
      assert |rest| < |ids|;
      FirstExists(rows, rest, y);
      var i :| First(rows, rest, i);
      if Earlier(rows[x].bucket, rows[i].bucket) {
        EarlierIsAsymmetric(rows[x].bucket, rows[i].bucket);
        forall j | j in ids
          ensures !Earlier(rows[j].bucket, rows[x].bucket)
        {
          if j != x {
            NotEarlierChains(rows[x].bucket, rows[i].bucket, rows[j].bucket);
          }
        }
        assert First(rows, ids, x);
      } else {
        assert First(rows, ids, i);
      }
    } else {
      assert First(rows, ids, x);
    }
  }

  function IdSet(ids: seq<Id>): set<Id> { set i | i in ids }

  ghost predicate Distinct(ids: seq<Id>) { forall i, j :: 0 <= i < j < |ids| ==> ids[i] != ids[j] }

  /** The rows of a list under one hour key, in the list's order. */
  function Under(rows: map<Id, Minute>, ids: seq<Id>, k: HourKey): (r: seq<Id>)
    requires IdSet(ids) <= rows.Keys
    ensures forall i :: i in r <==> i in ids && KeyOf(rows[i]) == k
  {
    if ids == [] then []
    else
      var n := |ids| - 1;
      assert ids == ids[..n] + [ids[n]];
      Under(rows, ids[..n], k) + if KeyOf(rows[ids[n]]) == k then [ids[n]] else []
  }

  lemma {:induction false} UnderIsDistinct(rows: map<Id, Minute>, ids: seq<Id>, k: HourKey)
    requires IdSet(ids) <= rows.Keys && Distinct(ids)
    ensures Distinct(Under(rows, ids, k))
  {
    if ids != [] {
      UnderIsDistinct(rows, ids[..|ids| - 1], k);
    }
  }

  function Folded(rows: map<Id, Minute>, ids: seq<Id>): Totals
    requires IdSet(ids) <= rows.Keys
  {
    if ids == [] then ZERO
    else
      var n := |ids| - 1;
      assert ids[n] in IdSet(ids) && IdSet(ids[..n]) <= IdSet(ids);
      Combine(Folded(rows, ids[..n]), rows[ids[n]].totals)
  }

  /** Adding up a list is adding up the set of its rows. */
  lemma {:induction false} FoldedIsTotal(rows: map<Id, Minute>, ids: seq<Id>, k: HourKey)
    requires IdSet(ids) <= rows.Keys && Distinct(ids)
    requires forall i :: i in ids ==> KeyOf(rows[i]) == k
    ensures Folded(rows, ids) == TotalOver(rows, IdSet(ids), k)
  {
    if ids == [] {
      NothingFor(rows, IdSet(ids), k);
    } else {
      var n := |ids| - 1;
      assert ids == ids[..n] + [ids[n]];
      assert IdSet(ids) - {ids[n]} == IdSet(ids[..n]);
      FoldedIsTotal(rows, ids[..n], k);
      TotalOfOneMore(rows, IdSet(ids), k, ids[n]);
    }
  }

  /** Only the rows under a key matter to its total. */
  lemma {:induction false} UnderIsEnough(rows: map<Id, Minute>, ids: seq<Id>, k: HourKey)
    requires IdSet(ids) <= rows.Keys && Distinct(ids)
    ensures Folded(rows, Under(rows, ids, k)) == TotalOver(rows, IdSet(ids), k)
  {
    var under := Under(rows, ids, k);
    var some, others := IdSet(under), IdSet(ids) - IdSet(under);
    UnderIsDistinct(rows, ids, k);
    FoldedIsTotal(rows, under, k);
    NothingFor(rows, others, k);
    TotalOfParts(rows, some, others, IdSet(ids), k);
    NotBelowZero(rows, some, k);
    ZeroAddsNothing(TotalOver(rows, some, k));
  }

  function HistogramsOf(rows: map<Id, Minute>, ids: seq<Id>): (r: seq<Histogram>)
    requires IdSet(ids) <= rows.Keys
    ensures |r| == |ids|
  {
    seq(|ids|, i requires 0 <= i < |ids| => assert ids[i] in IdSet(ids); rows[ids[i]].totals.histogram)
  }

  lemma {:induction false} MergedHistogram(rows: map<Id, Minute>, ids: seq<Id>, h: Histogram)
    requires IdSet(ids) <= rows.Keys
    ensures Union([h] + HistogramsOf(rows, ids)) == h + Folded(rows, ids).histogram
  {
    var hs := [h] + HistogramsOf(rows, ids);
    if ids == [] {
      assert hs[..0] == [] && hs == [h];
    } else {
      var n := |ids| - 1;
      assert ids[n] in IdSet(ids) && IdSet(ids[..n]) <= IdSet(ids);
      MergedHistogram(rows, ids[..n], h);
      assert hs[..|hs| - 1] == [h] + HistogramsOf(rows, ids[..n]);
    }
  }

  /** Batch rows are listed under their keys, in order. */
  ghost predicate Grouped(rows: map<Id, Minute>, ids: seq<Id>, grouped: map<HourKey, seq<Id>>)
    requires IdSet(ids) <= rows.Keys
  {
    && grouped.Keys == KeysOf(rows, IdSet(ids))
    && forall k :: k in grouped ==> grouped[k] == Under(rows, ids, k)
  }

  lemma KeyIsThere(rows: map<Id, Minute>, ids: set<Id>, i: Id)
    requires ids <= rows.Keys && i in ids
    ensures KeyOf(rows[i]) in KeysOf(rows, ids)
  {
  }

  lemma {:induction false} NotYet(rows: map<Id, Minute>, ids: seq<Id>, k: HourKey)
    requires IdSet(ids) <= rows.Keys && forall i :: i in ids ==> KeyOf(rows[i]) != k
    ensures Under(rows, ids, k) == []
  {
    if ids != [] {
      var n := |ids| - 1;
      var last := ids[n];
      assert last in ids && KeyOf(rows[last]) != k;
      assert forall i :: i in ids[..n] ==> i in ids;
      NotYet(rows, ids[..n], k);
      assert Under(rows, ids, k) == Under(rows, ids[..n], k) + [];
    }
  }

  function Appended(grouped: map<HourKey, seq<Id>>, k: HourKey, i: Id): map<HourKey, seq<Id>> {
    grouped[k := (if k in grouped then grouped[k] else []) + [i]]
  }

  lemma GroupsGrow(rows: map<Id, Minute>, ids: seq<Id>, i: Id, grouped: map<HourKey, seq<Id>>)
    requires IdSet(ids) <= rows.Keys && i in rows && Grouped(rows, ids, grouped)
    ensures IdSet(ids + [i]) <= rows.Keys
    ensures Grouped(rows, ids + [i], Appended(grouped, KeyOf(rows[i]), i))
  {
    var k := KeyOf(rows[i]);
    var more := ids + [i];
    assert more[..|ids|] == ids;
    assert IdSet(more) == IdSet(ids) + {i};
    if k !in grouped {
      forall j | j in ids
        ensures KeyOf(rows[j]) != k
      {
        KeyIsThere(rows, IdSet(ids), j);
      }
      NotYet(rows, ids, k);
    }
    var after := Appended(grouped, k, i);
    forall other
      ensures other in after.Keys <==> other in KeysOf(rows, IdSet(more))
    {
      assert other in KeysOf(rows, IdSet(more)) <==> other == k || other in KeysOf(rows, IdSet(ids));
    }
    assert after.Keys == KeysOf(rows, IdSet(more));
    forall other | other in after
      ensures after[other] == Under(rows, more, other)
    {
      assert Under(rows, more, other) == Under(rows, ids, other) + if other == k then [i] else [];
    }
  }

  /** Nothing in rest is earlier than something taken. */
  ghost predicate InOrder(rows: map<Id, Minute>, taken: set<Id>, rest: set<Id>)
    requires taken <= rows.Keys && rest <= rows.Keys
  {
    forall i, j :: i in taken && j in rest ==> !Earlier(rows[j].bucket, rows[i].bucket)
  }

  lemma TakeFirst(rows: map<Id, Minute>, taken: set<Id>, rest: set<Id>, i: Id)
    requires taken <= rows.Keys && rest <= rows.Keys && InOrder(rows, taken, rest) && First(rows, rest, i)
    ensures InOrder(rows, taken + {i}, rest - {i})
  {
  }

  /** An hour with the batch's share added. */
  ghost function Rolled(before: Tables, ids: set<Id>, k: HourKey): Totals
    requires ids <= before.minutes.Keys
  {
    Combine(HourTotal(before.hours, k), TotalOver(before.minutes, ids, k))
  }

  /** The hours when the groups done are rolled up and the others are not. */
  ghost function RolledHours(before: Tables, ids: set<Id>, done: set<HourKey>): map<HourKey, Totals>
    requires ids <= before.minutes.Keys
  {
    map k | k in before.hours.Keys + done :: if k in done then Rolled(before, ids, k) else before.hours[k]
  }

  ghost predicate AllMeasured(hours: map<HourKey, Totals>) { forall k :: k in hours ==> Measured(hours[k]) }

  lemma OneMoreKey<K, V>(m: map<K, V>, n: map<K, V>, k: K)
    requires n.Keys == m.Keys + {k}
    requires forall x :: x in m && x != k ==> n[x] == m[x]
    ensures n == m[k := n[k]]
  {
  }

  lemma OneRolledUp(before: Tables, ids: set<Id>, done: set<HourKey>, k: HourKey)
    requires ids <= before.minutes.Keys
    ensures RolledHours(before, ids, done + {k}) == RolledHours(before, ids, done)[k := Rolled(before, ids, k)]
    ensures k !in done ==> HourTotal(RolledHours(before, ids, done), k) == HourTotal(before.hours, k)
  {
    var m, n := RolledHours(before, ids, done), RolledHours(before, ids, done + {k});
    KeysGrow(before.hours.Keys, done, k);
    assert n.Keys == m.Keys + {k};
    OneMoreKey(m, n, k);
    assert n[k] == Rolled(before, ids, k);
  }

  lemma KeysGrow<K>(base: set<K>, done: set<K>, k: K)
    ensures base + (done + {k}) == (base + done) + {k}
  {
  }

  /** With every group done, the batch is in the hours. */
  lemma {:induction false} AllRolledUp(before: Tables, ids: set<Id>)
    requires ids <= before.minutes.Keys && AllMeasured(before.hours)
    ensures var hours := RolledHours(before, ids, KeysOf(before.minutes, ids));
            && hours.Keys == before.hours.Keys + KeysOf(before.minutes, ids)
            && forall k :: k in hours ==>
                 hours[k] == Combine(HourTotal(before.hours, k), TotalOver(before.minutes, ids, k))
  {
    var hours := RolledHours(before, ids, KeysOf(before.minutes, ids));
    forall k | k in hours
      ensures hours[k] == Combine(HourTotal(before.hours, k), TotalOver(before.minutes, ids, k))
    {
      if k !in KeysOf(before.minutes, ids) {
        forall i | i in ids
          ensures KeyOf(before.minutes[i]) != k
        {
          KeyIsThere(before.minutes, ids, i);
        }
        NothingFor(before.minutes, ids, k);
        ZeroAddsNothing(before.hours[k]);
      }
    }
  }

  class ApiMetrics {
    var minutes: map<Id, Minute>
    var hours: map<HourKey, Totals>

    function Snapshot(): Tables
      reads this
    {
      Tables(minutes, hours)
    }

    /** Recorded maxima are durations. */
    ghost predicate Valid()
      reads this
    {
      AllMeasured(hours)
    }

    /** SELECT ... WHERE bucket_start < cutoff ORDER BY bucket_start LIMIT 20000; equal starts come in
        any order. */
    method OldestRows(cutoff: string) returns (batch: seq<Id>)
      ensures Distinct(batch) && IdSet(batch) <= minutes.Keys && IsBatch(minutes, cutoff, IdSet(batch))
    {
      batch := [];
      var rest := set i | i in minutes && Earlier(minutes[i].bucket, cutoff);
      ghost var taken: set<Id> := {};
      while |batch| < BATCH_LIMIT && exists i :: i in rest
        invariant Distinct(batch) && taken == IdSet(batch) && |taken| == |batch| <= BATCH_LIMIT
        invariant taken !! rest && taken + rest == Backlog(minutes, cutoff)
        invariant InOrder(minutes, taken, rest)
        decreases |rest|
      {
        var i := Earliest(rest);
        TakeFirst(minutes, taken, rest, i);
        batch := batch + [i];
        taken := taken + {i};
        rest := rest - {i};
      }
      assert Backlog(minutes, cutoff) - taken == rest;
      assert |Backlog(minutes, cutoff)| == |taken| + |rest|;
    }

    method Earliest(rest: set<Id>) returns (i: Id)
      requires rest <= minutes.Keys && exists x :: x in rest
      ensures First(minutes, rest, i)
    {
      ghost var x :| x in rest;
      FirstExists(minutes, rest, x);
      assert exists i :: i in rest && forall j :: j in rest ==> !Earlier(minutes[j].bucket, minutes[i].bucket) by {
        var i :| First(minutes, rest, i);
      }
      i :| i in rest && forall j :: j in rest ==> !Earlier(minutes[j].bucket, minutes[i].bucket);
    }

    /** The group's target row after the group is added to it. */
    method RollUp(target: Totals, ids: seq<Id>) returns (t: Totals)
      requires Measured(target) && IdSet(ids) <= minutes.Keys && ids != []
      ensures t == Combine(target, Folded(minutes, ids))
    {
      assert forall i :: 0 <= i < |ids| ==> ids[i] in IdSet(ids);
      var sums := ZERO.(durationMax := minutes[ids[0]].totals.durationMax);
      for n := 0 to |ids|
        invariant IdSet(ids[..n]) <= minutes.Keys
        invariant var f := Folded(minutes, ids[..n]);
                  && sums.count == f.count && sums.durationSum == f.durationSum
                  && sums.requestBytes == f.requestBytes && sums.responseBytes == f.responseBytes
                  && sums.dropped == f.dropped
                  && (n > 0 ==> f.durationMax == (if sums.durationMax >= 0.0 then sums.durationMax else 0.0))
                  && (n == 0 ==> sums.durationMax == minutes[ids[0]].totals.durationMax)
      {
        var row := minutes[ids[n]].totals;
        assert ids[..n + 1][..n] == ids[..n];
        assert IdSet(ids[..n + 1]) <= IdSet(ids);
        sums := sums.(
          count := sums.count + row.count,
          durationSum := sums.durationSum + row.durationSum,
          durationMax := if row.durationMax > sums.durationMax then row.durationMax else sums.durationMax,
          requestBytes := sums.requestBytes + row.requestBytes,
          responseBytes := sums.responseBytes + row.responseBytes,
          dropped := sums.dropped + row.dropped);
      }
      assert ids[..|ids|] == ids;
      var merged := MergeHistograms([target.histogram] + HistogramsOf(minutes, ids));
      MergedHistogram(minutes, ids, target.histogram);
      t := Combine(target, sums).(histogram := merged);
    }

    /** grouped[(hour, service, method, route, status)].append(row) */
    method GroupRows(batch: seq<Id>) returns (grouped: map<HourKey, seq<Id>>)
      requires IdSet(batch) <= minutes.Keys
      ensures Grouped(minutes, batch, grouped)
    {
      grouped := map[];
      for n := 0 to |batch|
        invariant IdSet(batch[..n]) <= minutes.Keys
        invariant Grouped(minutes, batch[..n], grouped)
      {
        var i := batch[n];
        assert i in IdSet(batch) && batch[..n + 1] == batch[..n] + [i];
        GroupsGrow(minutes, batch[..n], i, grouped);
        grouped := Appended(grouped, KeyOf(minutes[i]), i);
      }
      assert batch[..|batch|] == batch;
    }

    method CompactMinutes(cutoff: string)
      requires Valid()
      modifies this
      ensures Valid()
      ensures exists batch :: Compacts(old(Snapshot()), cutoff, batch, Snapshot())
      ensures forall k :: Overall(Snapshot(), k) == Overall(old(Snapshot()), k)
    {
      ghost var before := Snapshot();
      var batch := OldestRows(cutoff);
      var ids := IdSet(batch);
      RollUpGroups(batch);
      AllRolledUp(before, ids);
      minutes := minutes - ids;
      assert Compacts(before, cutoff, ids, Snapshot());
      forall k
        ensures Overall(Snapshot(), k) == Overall(before, k)
      {
        TickConserves(before, cutoff, ids, Snapshot(), k);
      }
    }

    /** One group's target is read, added to and written. */
    method RollUpGroup(batch: seq<Id>, k: HourKey, group: seq<Id>)
      requires Valid() && Distinct(batch) && IdSet(batch) <= minutes.Keys
      requires k in KeysOf(minutes, IdSet(batch)) && group == Under(minutes, batch, k)
      modifies this`hours
      ensures Valid()
      ensures hours == old(hours)[k := Combine(HourTotal(old(hours), k), TotalOver(minutes, IdSet(batch), k))]
    {
      KeyHasRows(minutes, batch, k);
      var target := if k in hours then hours[k] else ZERO;
      var rolled := RollUp(target, group);
      UnderIsEnough(minutes, batch, k);
      NotBelowZero(minutes, IdSet(batch), k);
      hours := hours[k := rolled];
    }

    /** After one more group the hours are those with it rolled up. */
    method RollUpNext(batch: seq<Id>, k: HourKey, group: seq<Id>, ghost before: Tables, ghost done: set<HourKey>)
      requires Valid() && Distinct(batch) && IdSet(batch) <= minutes.Keys
      requires k in KeysOf(minutes, IdSet(batch)) && group == Under(minutes, batch, k)
      requires before.minutes == minutes && hours == RolledHours(before, IdSet(batch), done) && k !in done
      modifies this`hours
      ensures Valid() && hours == RolledHours(before, IdSet(batch), done + {k})
    {
      OneRolledUp(before, IdSet(batch), done, k);
      RollUpGroup(batch, k, group);
    }

    /** for key, rows in grouped.items() */
    method RollUpGroups(batch: seq<Id>)
      requires Valid() && Distinct(batch) && IdSet(batch) <= minutes.Keys
      modifies this`hours
      ensures Valid()
      ensures hours == RolledHours(old(Snapshot()), IdSet(batch), KeysOf(minutes, IdSet(batch)))
    {
      ghost var before, ids, done: set<HourKey> := Snapshot(), IdSet(batch), {};
      var grouped := GroupRows(batch);
      var rest := grouped.Keys;
      assert hours == RolledHours(before, ids, done);
      while exists k :: k in rest
        invariant (forall k :: k in grouped.Keys <==> k in rest || k in done) && rest !! done
        invariant Valid() && hours == RolledHours(before, ids, done)
        decreases |rest|
      {
        var k :| k in rest;
        assert k in grouped.Keys && k !in done;
        RollUpNext(batch, k, grouped[k], before, done);
        rest, done := rest - {k}, done + {k};
      }
      assert done == grouped.Keys;
    }
  }

  lemma {:induction false} KeyHasRows(rows: map<Id, Minute>, ids: seq<Id>, k: HourKey)
    requires IdSet(ids) <= rows.Keys && k in KeysOf(rows, IdSet(ids))
    ensures Under(rows, ids, k) != [] && IdSet(Under(rows, ids, k)) <= rows.Keys
  {
    var i :| i in IdSet(ids) && KeyOf(rows[i]) == k;
    assert i in Under(rows, ids, k);
  }
}
