/** The winner pickers of a giveaway. A random choice is any choice its weights allow. */
module Winners {
  import opened Sorting

  datatype Entry = Entry(tg: int, count: nat)

  // ---- what a pick is ----

  /** One entry per participant. */
  ghost predicate Distinct(entries: seq<Entry>) {
    forall i, j :: 0 <= i < j < |entries| ==> entries[i].tg != entries[j].tg
  }

  ghost predicate PickedFrom(picked: seq<Entry>, entries: seq<Entry>) {
    Distinct(picked) && forall i :: 0 <= i < |picked| ==> Member(entries, picked[i])
  }

  function Min(a: nat, b: nat): nat { if a <= b then a else b }

  /** Nobody left out has more tickets than somebody picked. */
  ghost predicate Optimal(picked: seq<Entry>, entries: seq<Entry>) {
    forall e, i :: Member(entries, e) && !Member(picked, e) && 0 <= i < |picked| ==> e.count <= picked[i].count
  }

  /** An entry of more tickets, or as many and the smaller participant id. */
  predicate Ahead(a: Entry, b: Entry) {
    a.count > b.count || (a.count == b.count && a.tg < b.tg)
  }

  /** Somebody has more. */
  ghost predicate Beaten(entries: seq<Entry>, e: Entry) {
    exists top :: Member(entries, top) && top.count > e.count
  }

  /** The picks come by falling ticket counts; below the top, where chance has no say, each is ahead of those
      after it and of everybody left out. */
  ghost predicate MostFirst(picked: seq<Entry>, entries: seq<Entry>) {
    && (forall i, j :: 0 <= i < j < |picked| ==> picked[i].count >= picked[j].count)
    && (forall i, j :: 0 <= i < j < |picked| && Beaten(entries, picked[i]) ==> Ahead(picked[i], picked[j]))
    && (forall i, e :: 0 <= i < |picked| && Beaten(entries, picked[i]) && Member(entries, e) && !Member(picked, e) ==>
          Ahead(picked[i], e))
  }

  // ---- counting distinct picks ----

  function Tgs(s: seq<Entry>): set<int> { set i | 0 <= i < |s| :: s[i].tg }

  lemma {:induction false} TgsCount(s: seq<Entry>)
    requires Distinct(s)
    ensures |Tgs(s)| == |s|
  {
    if s != [] {
      var t := s[..|s| - 1];
      TgsCount(t);
      var last := s[|s| - 1].tg;
      forall x ensures x in Tgs(s) <==> x in Tgs(t) + {last} {
        if x in Tgs(t) {
          var i :| 0 <= i < |t| && t[i].tg == x;
          assert s[i].tg == x;
        }
        assert s[|s| - 1].tg == last;
      }
      assert Tgs(s) == Tgs(t) + {last};
      assert last !in Tgs(t);
    }
  }

  // ---- the weighted draw ----

  predicate Eligible(e: Entry) { e.count > 0 }

  /** The entries with tickets. */
  function Pool(entries: seq<Entry>): seq<Entry> {
    if entries == [] then []
    else (if Eligible(entries[0]) then [entries[0]] else []) + Pool(entries[1..])
  }

  lemma {:induction false} PoolIs(entries: seq<Entry>)
    ensures forall e :: Member(Pool(entries), e) <==> Member(entries, e) && Eligible(e)
    ensures Distinct(entries) ==> Distinct(Pool(entries))
    ensures |Pool(entries)| <= |entries|
  {
    if entries != [] {
      var p, rest := Pool(entries), Pool(entries[1..]);
      PoolIs(entries[1..]);
      MemberCons(entries);
      if Eligible(entries[0]) {
        assert p[0] == entries[0] && p[1..] == rest;
        MemberCons(p);
        if Distinct(entries) {
          forall i | 0 <= i < |rest| ensures rest[i].tg != entries[0].tg {
            assert Member(rest, rest[i]) && Member(entries[1..], rest[i]);
          }
        }
      } else {
        assert p == rest;
      }
    }
  }

  /** Every entry of the pool is picked or remains, and not both. */
  ghost predicate Partition(pool: seq<Entry>, picked: seq<Entry>, remaining: seq<Entry>) {
    && |picked| + |remaining| == |pool|
    && Distinct(picked + remaining)
    && forall e :: Member(pool, e) <==> Member(picked, e) || Member(remaining, e)
  }

  /** `_weighted_random_winners`. */
  method WeightedRandomWinners(entries: seq<Entry>, count: nat) returns (winners: seq<Entry>)
    requires Distinct(entries)
    ensures PickedFrom(winners, entries) && forall i :: 0 <= i < |winners| ==> Eligible(winners[i])
    ensures |winners| == Min(count, |Pool(entries)|)
  {
    PoolIs(entries);
    var pool := Pool(entries);
    winners := [];
    var remaining := pool;
    assert winners + remaining == pool;
    while remaining != [] && |winners| < count
      invariant Partition(pool, winners, remaining) && |winners| <= count
      decreases |remaining|
    {
      var pick :| 0 <= pick < |remaining|;
      PopKeepsPartition(pool, winners, remaining, pick);
      winners := winners + [remaining[pick]];
      remaining := remaining[..pick] + remaining[pick + 1..];
    }
    assert Distinct(winners) by {
      assert forall i :: 0 <= i < |winners| ==> winners[i] == (winners + remaining)[i];
    }
    forall i | 0 <= i < |winners| ensures Member(entries, winners[i]) && Eligible(winners[i]) {
      assert Member(winners, winners[i]) && Member(pool, winners[i]);
    }
  }

  lemma PopKeepsPartition(pool: seq<Entry>, picked: seq<Entry>, remaining: seq<Entry>, k: nat)
    requires Partition(pool, picked, remaining) && k < |remaining|
    ensures Partition(pool, picked + [remaining[k]], remaining[..k] + remaining[k + 1..])
  {
    var a, b := picked + [remaining[k]], remaining[..k] + remaining[k + 1..];
    var whole: seq<Entry>, moved: seq<Entry> := picked + remaining, a + b;
    forall i, j | 0 <= i < j < |moved| ensures moved[i].tg != moved[j].tg {
      var from := (x: nat) => if x < |picked| then x else if x == |picked| then |picked| + k
                              else if x - |picked| - 1 < k then x - 1 else x;
      assert moved[i] == whole[from(i)] && moved[j] == whole[from(j)];
      assert from(i) != from(j);
    }
    forall e ensures Member(picked, e) || Member(remaining, e) <==> Member(a, e) || Member(b, e) {
      if Member(picked, e) {
        var i :| 0 <= i < |picked| && picked[i] == e;
        assert a[i] == e;
      }
      if Member(remaining, e) {
        var i :| 0 <= i < |remaining| && remaining[i] == e;
        if i == k { assert a[|picked|] == e; } else { assert b[if i < k then i else i - 1] == e; }
      }
      if Member(a, e) {
        var i :| 0 <= i < |a| && a[i] == e;
        if i < |picked| { assert picked[i] == e; } else { assert remaining[k] == e; }
      }
      if Member(b, e) {
        var i :| 0 <= i < |b| && b[i] == e;
        assert remaining[if i < k then i else i + 1] == e;
      }
    }
  }

  // ---- most tickets ----

  /** Descending by tickets, then ascending by participant. */
  predicate Before(a: Entry, b: Entry) {
    a.count > b.count || (a.count == b.count && a.tg <= b.tg)
  }

  ghost predicate Sorted(s: seq<Entry>) {
    forall i, j :: 0 <= i < j < |s| ==> Before(s[i], s[j])
  }

  predicate DifferentTgs(a: Entry, b: Entry) { a.tg != b.tg }

  function Having(s: seq<Entry>, count: nat): seq<Entry> {
    if s == [] then [] else (if s[0].count == count then [s[0]] else []) + Having(s[1..], count)
  }

  function Below(s: seq<Entry>, count: nat): seq<Entry> {
    if s == [] then [] else (if s[0].count < count then [s[0]] else []) + Below(s[1..], count)
  }

  lemma {:induction false} HavingIs(s: seq<Entry>, count: nat)
    ensures forall e :: Member(Having(s, count), e) <==> Member(s, e) && e.count == count
    ensures Distinct(s) ==> Distinct(Having(s, count))
  {
    if s != [] {
      HavingIs(s[1..], count);
      MemberCons(s);
      var p, rest := Having(s, count), Having(s[1..], count);
      if s[0].count == count {
        assert p[0] == s[0] && p[1..] == rest;
        MemberCons(p);
        if Distinct(s) {
          forall i | 0 <= i < |rest| ensures rest[i].tg != s[0].tg {
            assert Member(rest, rest[i]) && Member(s[1..], rest[i]);
          }
        }
      } else {
        assert p == rest;
      }
    }
  }

  lemma {:induction false} BelowIs(s: seq<Entry>, count: nat)
    ensures forall e :: Member(Below(s, count), e) <==> Member(s, e) && e.count < count
    ensures Distinct(s) ==> Distinct(Below(s, count))
  {
    if s != [] {
      BelowIs(s[1..], count);
      MemberCons(s);
      var p, rest := Below(s, count), Below(s[1..], count);
      if s[0].count < count {
        assert p[0] == s[0] && p[1..] == rest;
        MemberCons(p);
        if Distinct(s) {
          forall i | 0 <= i < |rest| ensures rest[i].tg != s[0].tg {
            assert Member(rest, rest[i]) && Member(s[1..], rest[i]);
          }
        }
      } else {
        assert p == rest;
      }
    }
  }

  lemma {:induction false} FiltersSplit(s: seq<Entry>, most: nat)
    requires forall i :: 0 <= i < |s| ==> s[i].count <= most
    ensures |Having(s, most)| + |Below(s, most)| == |s|
  {
    if s != [] {
      FiltersSplit(s[1..], most);
    }
  }

  /** Any `count` of the entries: `random.sample`. */
  method Sample(s: seq<Entry>, count: nat) returns (picked: seq<Entry>)
    requires Distinct(s) && count <= |s|
    ensures PickedFrom(picked, s) && |picked| == count
  {
    picked := [];
    var remaining := s;
    assert picked + remaining == s;
    while |picked| < count
      invariant Partition(s, picked, remaining) && |picked| <= count
    {
      var pick :| 0 <= pick < |remaining|;
      PopKeepsPartition(s, picked, remaining, pick);
      picked := picked + [remaining[pick]];
      remaining := remaining[..pick] + remaining[pick + 1..];
    }
    assert Distinct(picked) by {
      assert forall i :: 0 <= i < |picked| ==> picked[i] == (picked + remaining)[i];
    }
    forall i | 0 <= i < |picked| ensures Member(s, picked[i]) {
      assert Member(picked, picked[i]);
    }
  }

  method MaxCount(entries: seq<Entry>) returns (m: nat)
    requires entries != []
    ensures forall i :: 0 <= i < |entries| ==> entries[i].count <= m
    ensures exists i :: 0 <= i < |entries| && entries[i].count == m
  {
    m := entries[0].count;
    for k := 0 to |entries|
      invariant forall i :: 0 <= i < k ==> entries[i].count <= m
      invariant exists i :: 0 <= i < |entries| && entries[i].count == m
    {
      if entries[k].count > m {
        m := entries[k].count;
      }
    }
  }

  /** `_most_tickets_winners`. */
  method MostTicketsWinners(entries: seq<Entry>, count: nat) returns (winners: seq<Entry>)
    requires Distinct(entries) && count > 0
    ensures PickedFrom(winners, entries) && |winners| == Min(count, |entries|)
    ensures Optimal(winners, entries) && MostFirst(winners, entries)
  {
    if entries == [] {
      return [];
    }
    var most := MaxCount(entries);
    HavingIs(entries, most);
    BelowIs(entries, most);
    FiltersSplit(entries, most);
    var top := Having(entries, most);
    if |top| > count {
      winners := Sample(top, count);
      SomeOfTop(entries, most, top, winners);
      TopIsFirst(entries, most, winners);
      return;
    }
    var rest := Sort(Below(entries, most), Before);
    SortIs(Below(entries, most), Before, DifferentTgs);
    ghost var taken: nat;
    winners, taken := FillUp(top, rest, count);
    TopAndRest(entries, most, top, rest, taken);
    RestIsOrdered(entries, most, top, rest, taken);
  }

  /** Picks that all have the most tickets need no order. */
  lemma TopIsFirst(entries: seq<Entry>, most: nat, winners: seq<Entry>)
    requires forall i :: 0 <= i < |entries| ==> entries[i].count <= most
    requires forall i :: 0 <= i < |winners| ==> winners[i].count == most
    ensures MostFirst(winners, entries)
  {
  }

  lemma RestIsOrdered(entries: seq<Entry>, most: nat, top: seq<Entry>, rest: seq<Entry>, taken: nat)
    requires Distinct(entries) && forall i :: 0 <= i < |entries| ==> entries[i].count <= most
    requires Distinct(rest) && Sorted(rest) && taken <= |rest|
    requires forall e :: Member(top, e) <==> Member(entries, e) && e.count == most
    requires forall e :: Member(rest, e) <==> Member(entries, e) && e.count < most
    ensures MostFirst(top + rest[..taken], entries)
  {
    var w := top + rest[..taken];
    forall i | 0 <= i < |w|
      ensures if i < |top| then w[i].count == most && !Beaten(entries, w[i])
              else w[i] == rest[i - |top|] && w[i].count < most
    {
      if i < |top| { assert Member(top, w[i]); } else { assert Member(rest, w[i]) && Member(rest, rest[i - |top|]); }
    }
    forall i, j | 0 <= i < j < |rest| ensures Ahead(rest[i], rest[j]) {
      assert Before(rest[i], rest[j]);
    }
    forall i, e | 0 <= i < |w| && Beaten(entries, w[i]) && Member(entries, e) && !Member(w, e) ensures Ahead(w[i], e) {
      assert forall k :: 0 <= k < |top| ==> w[k] == top[k];
      assert !Member(top, e);
      var r :| 0 <= r < |rest| && rest[r] == e;
      assert r < taken ==> w[|top| + r] == e;
    }
  }

  /** for item in rest: if len(winners) >= count: break; winners.append(item) */
  method FillUp(top: seq<Entry>, rest: seq<Entry>, count: nat) returns (winners: seq<Entry>, ghost taken: nat)
    requires |top| <= count
    ensures taken <= |rest| && winners == top + rest[..taken]
    ensures |winners| == Min(count, |top| + |rest|)
  {
    winners := top;
    taken := 0;
    for k := 0 to |rest|
      invariant taken == k && winners == top + rest[..taken] && |winners| <= count
    {
      if |winners| >= count {
        break;
      }
      winners := winners + [rest[k]];
      taken := k + 1;
    }
  }

  /** Entries with the most tickets are as good a choice as any. */
  lemma SomeOfTop(entries: seq<Entry>, most: nat, top: seq<Entry>, winners: seq<Entry>)
    requires forall i :: 0 <= i < |entries| ==> entries[i].count <= most
    requires forall e :: Member(top, e) <==> Member(entries, e) && e.count == most
    requires PickedFrom(winners, top)
    ensures PickedFrom(winners, entries) && Optimal(winners, entries)
    ensures forall i :: 0 <= i < |winners| ==> winners[i].count == most
  {
    forall i | 0 <= i < |winners|
      ensures Member(entries, winners[i]) && winners[i].count == most
    {
      assert Member(top, winners[i]);
    }
  }

  /** The top entries and the first of the sorted rest are distinct, and nobody left has more. */
  lemma TopAndRest(entries: seq<Entry>, most: nat, top: seq<Entry>, rest: seq<Entry>, taken: nat)
    requires Distinct(entries) && forall i :: 0 <= i < |entries| ==> entries[i].count <= most
    requires Distinct(top) && Distinct(rest) && Sorted(rest) && taken <= |rest|
    requires forall e :: Member(top, e) <==> Member(entries, e) && e.count == most
    requires forall e :: Member(rest, e) <==> Member(entries, e) && e.count < most
    ensures PickedFrom(top + rest[..taken], entries) && Optimal(top + rest[..taken], entries)
  {
    var w := top + rest[..taken];
    forall i | 0 <= i < |w|
      ensures Member(entries, w[i]) && (i < |top| ==> Member(top, w[i])) && (i >= |top| ==> Member(rest, w[i]))
    {
      if i < |top| { assert top[i] == w[i]; } else { assert rest[i - |top|] == w[i]; }
    }
    forall i, j | 0 <= i < j < |w| ensures w[i].tg != w[j].tg {
      if i < |top| && j >= |top| {
        EntryByTg(entries, w[i], w[j]);
      }
    }
    assert forall t :: 0 <= t < |top| ==> w[t] == top[t] && Member(w, top[t]);
    forall r | 0 <= r < taken ensures Member(w, rest[r]) {
      assert w[|top| + r] == rest[r];
    }
    forall e, i | Member(entries, e) && !Member(w, e) && 0 <= i < |w| ensures e.count <= w[i].count {
      assert !Member(top, e);
      var r :| 0 <= r < |rest| && rest[r] == e;
      if i >= |top| {
        assert Before(rest[i - |top|], rest[r]);
      }
    }
  }

  lemma EntryByTg(entries: seq<Entry>, a: Entry, b: Entry)
    requires Distinct(entries) && Member(entries, a) && Member(entries, b)
    ensures a.tg == b.tg ==> a == b
  {
  }
}
