/** The giveaway calls in place. A random choice is any choice the weights allow. */
module GiveawayStore {
  import opened Wrappers
  import opened Sorting
  import opened Giveaways
  import opened GiveawayEntry
  import Winners

  // ---- the inventory ----

  function IdsOf(ts: seq<Ticket>): set<nat> { set i | 0 <= i < |ts| :: ts[i].id }

  lemma {:induction false} OwnedIsHeld(ts: seq<Ticket>, tg: int, k: nat)
    requires k < |Owned(ts, tg)|
    ensures HoldsTicket(ts, tg, Owned(ts, tg)[k])
  {
    var rest := Owned(ts[1..], tg);
    if ts[0].holder == tg {
      assert Owned(ts, tg) == [ts[0].id] + rest;
      if k > 0 {
        OwnedIsHeld(ts[1..], tg, k - 1);
        Shift(ts, tg, rest[k - 1]);
      }
    } else {
      assert Owned(ts, tg) == rest;
      OwnedIsHeld(ts[1..], tg, k);
      Shift(ts, tg, rest[k]);
    }
  }

  lemma Shift(ts: seq<Ticket>, tg: int, id: nat)
    requires ts != [] && HoldsTicket(ts[1..], tg, id)
    ensures HoldsTicket(ts, tg, id)
  {
    var i :| 0 <= i < |ts[1..]| && ts[1..][i].holder == tg && ts[1..][i].id == id;
    assert ts[i + 1].holder == tg && ts[i + 1].id == id;
  }

  lemma {:induction false} HolderOwns(ts: seq<Ticket>, i: nat)
    requires i < |ts|
    ensures |Owned(ts, ts[i].holder)| > 0
  {
    if i > 0 {
      HolderOwns(ts[1..], i - 1);
      assert ts[1..][i - 1] == ts[i];
    }
  }

  predicate DifferentTickets(a: Ticket, b: Ticket) { a.id != b.id }

  lemma InventoryIs(tickets: seq<Ticket>)
    ensures forall t :: Member(Inventory(tickets), t) <==> Member(tickets, t)
    ensures |Inventory(tickets)| == |tickets|
    ensures forall tg, id :: HoldsTicket(Inventory(tickets), tg, id) <==> HoldsTicket(tickets, tg, id)
    ensures forall tg :: |Owned(Inventory(tickets), tg)| > 0
              <==> exists i :: 0 <= i < |tickets| && tickets[i].holder == tg
  {
    SortIs(tickets, Earlier, DifferentTickets);
    var inv := Inventory(tickets);
    HeldSame(inv, tickets);
    forall tg ensures |Owned(inv, tg)| > 0 <==> exists i :: 0 <= i < |tickets| && tickets[i].holder == tg {
      if |Owned(inv, tg)| > 0 {
        OwnedIsHeld(inv, tg, 0);
        assert HoldsTicket(tickets, tg, Owned(inv, tg)[0]);
      }
      if i :| 0 <= i < |tickets| && tickets[i].holder == tg {
        assert Member(tickets, tickets[i]);
        var k :| 0 <= k < |inv| && inv[k] == tickets[i];
        HolderOwns(inv, k);
      }
    }
  }

  lemma HeldSame(a: seq<Ticket>, b: seq<Ticket>)
    requires forall t :: Member(a, t) <==> Member(b, t)
    ensures forall tg, id :: HoldsTicket(a, tg, id) <==> HoldsTicket(b, tg, id)
  {
    forall tg, id ensures HoldsTicket(a, tg, id) <==> HoldsTicket(b, tg, id) {
      if HoldsTicket(a, tg, id) { HeldOver(a, b, tg, id); }
      if HoldsTicket(b, tg, id) { HeldOver(b, a, tg, id); }
    }
  }

  lemma HeldOver(a: seq<Ticket>, b: seq<Ticket>, tg: int, id: nat)
    requires HoldsTicket(a, tg, id) && forall t :: Member(a, t) ==> Member(b, t)
    ensures HoldsTicket(b, tg, id)
  {
    var i :| 0 <= i < |a| && a[i].holder == tg && a[i].id == id;
    assert Member(a, a[i]);
    var k :| 0 <= k < |b| && b[k] == a[i];
  }

  lemma {:induction false} NumberAppend(ts: seq<Ticket>, t: Ticket, id: nat)
    requires forall i :: 0 <= i < |ts| ==> ts[i].id != t.id
    ensures NumberOf(ts + [t], id) == if id == t.id then Some(|ts| + 1) else NumberOf(ts, id)
  {
    if ts == [] {
      assert ts + [t] == [t];
      assert NumberOf([t][1..], id) == None;
    } else {
      NumberAppend(ts[1..], t, id);
      assert (ts + [t])[1..] == ts[1..] + [t];
    }
  }

  ghost predicate Numbering(inv: seq<Ticket>, numbers: map<nat, nat>) {
    forall id :: (if id in numbers then Some(numbers[id]) else None) == NumberOf(inv, id)
  }

  ghost predicate ByParticipant(inv: seq<Ticket>, owned: map<int, seq<nat>>) {
    forall tg :: (if tg in owned then owned[tg] else []) == Owned(inv, tg)
  }

  lemma ByParticipantStep(rows: seq<Ticket>, n: nat, owned: map<int, seq<nat>>)
    requires n < |rows| && ByParticipant(rows[..n], owned)
    ensures var t := rows[n];
            ByParticipant(rows[..n + 1],
                owned[t.holder := (if t.holder in owned then owned[t.holder] else []) + [t.id]])
  {
    var t := rows[n];
    var next := owned[t.holder := (if t.holder in owned then owned[t.holder] else []) + [t.id]];
    assert rows[..n + 1] == rows[..n] + [t];
    forall tg ensures (if tg in next then next[tg] else []) == Owned(rows[..n + 1], tg) {
      OwnedAppend(rows[..n], t, tg);
    }
  }

  lemma NumberingStep(rows: seq<Ticket>, n: nat, numbers: map<nat, nat>)
    requires n < |rows| && Numbering(rows[..n], numbers) && Pairwise(rows, DifferentTickets)
    ensures Numbering(rows[..n + 1], numbers[rows[n].id := n + 1])
  {
    var t, next := rows[n], numbers[rows[n].id := n + 1];
    assert rows[..n + 1] == rows[..n] + [t];
    forall i | 0 <= i < n ensures rows[..n][i].id != t.id {
      assert DifferentTickets(rows[i], rows[n]);
    }
    forall id ensures (if id in next then Some(next[id]) else None) == NumberOf(rows[..n + 1], id) {
      NumberAppend(rows[..n], t, id);
    }
  }

  /** `_ticket_inventory`. */
  method TicketInventory(tickets: seq<Ticket>) returns (owned: map<int, seq<nat>>, numbers: map<nat, nat>)
    requires Pairwise(tickets, DifferentTickets)
    ensures ByParticipant(Inventory(tickets), owned) && Numbering(Inventory(tickets), numbers)
  {
    var rows := Inventory(tickets);
    SortIs(tickets, Earlier, DifferentTickets);
    owned, numbers := map[], map[];
    assert rows[..0] == [];
    for n := 0 to |rows|
      invariant ByParticipant(rows[..n], owned) && Numbering(rows[..n], numbers)
    {
      var t := rows[n];
      ByParticipantStep(rows, n, owned);
      NumberingStep(rows, n, numbers);
      numbers := numbers[t.id := n + 1];
      owned := owned[t.holder := (if t.holder in owned then owned[t.holder] else []) + [t.id]];
    }
    assert rows[..|rows|] == rows;
  }

  // ---- the draw ----

  /** One entry per eligible holder, with its ticket count. */
  ghost predicate EntriesOf(g: Giveaway, excluded: set<int>, entries: seq<Winners.Entry>) {
    && Winners.Distinct(entries)
    && (forall i :: 0 <= i < |entries| ==>
          && entries[i].tg in Holders(g.tickets, excluded) && entries[i].count > 0
          && entries[i].count == |Owned(Inventory(g.tickets), entries[i].tg)|)
    && (forall tg :: tg in Holders(g.tickets, excluded) ==> exists i :: 0 <= i < |entries| && entries[i].tg == tg)
  }

  /** The entries collected so far cover everybody but `rest`. */
  ghost predicate Collected(owned: map<int, seq<nat>>, excluded: set<int>, rest: set<int>,
                            entries: seq<Winners.Entry>)
  {
    && Winners.Distinct(entries)
    && (forall i :: 0 <= i < |entries| ==>
          && entries[i].tg !in rest && entries[i].tg !in excluded && entries[i].tg in owned
          && entries[i].count == |owned[entries[i].tg]| > 0)
    && (forall tg :: tg in owned && tg !in rest && tg !in excluded && |owned[tg]| > 0 ==> HasEntry(entries, tg))
  }

  predicate HasEntry(entries: seq<Winners.Entry>, tg: int) {
    exists i :: 0 <= i < |entries| && entries[i].tg == tg
  }

  lemma CollectStep(owned: map<int, seq<nat>>, excluded: set<int>, rest: set<int>, entries: seq<Winners.Entry>, tg: int)
    requires Collected(owned, excluded, rest, entries) && tg in rest && tg in owned
    ensures Collected(owned, excluded, rest - {tg},
                      if tg !in excluded && |owned[tg]| > 0 then entries + [Winners.Entry(tg, |owned[tg]|)]
                          else entries)
  {
    var next := if tg !in excluded && |owned[tg]| > 0 then entries + [Winners.Entry(tg, |owned[tg]|)] else entries;
    forall x | x in owned && x !in rest - {tg} && x !in excluded && |owned[x]| > 0 ensures HasEntry(next, x) {
      if x == tg {
        assert next[|entries|].tg == x;
      } else {
        var i :| 0 <= i < |entries| && entries[i].tg == x;
        assert next[i].tg == x;
      }
    }
  }

  method CollectEntries(g: Giveaway, owned: map<int, seq<nat>>, excluded: set<int>)
    returns (entries: seq<Winners.Entry>)
    requires ByParticipant(Inventory(g.tickets), owned)
    ensures EntriesOf(g, excluded, entries)
  {
    entries := [];
    var rest := owned.Keys;
    while exists tg :: tg in rest
      invariant rest <= owned.Keys && Collected(owned, excluded, rest, entries)
      decreases rest
    {
      var tg :| tg in rest;
      CollectStep(owned, excluded, rest, entries, tg);
      rest := rest - {tg};
      if tg !in excluded && |owned[tg]| > 0 {
        entries := entries + [Winners.Entry(tg, |owned[tg]|)];
      }
    }
    CollectedIsEntries(g, owned, excluded, rest, entries);
  }

  lemma CollectedIsEntries(g: Giveaway, owned: map<int, seq<nat>>, excluded: set<int>, rest: set<int>,
                           entries: seq<Winners.Entry>)
    requires ByParticipant(Inventory(g.tickets), owned) && Collected(owned, excluded, rest, entries)
    requires forall tg :: tg !in rest
    ensures EntriesOf(g, excluded, entries)
  {
    InventoryIs(g.tickets);
    var inv := Inventory(g.tickets);
    forall i | 0 <= i < |entries|
      ensures entries[i].tg in Holders(g.tickets, excluded) && entries[i].count == |Owned(inv, entries[i].tg)|
    {
      assert |Owned(inv, entries[i].tg)| > 0;
      var k :| 0 <= k < |g.tickets| && g.tickets[k].holder == entries[i].tg;
      assert g.tickets[k].holder !in excluded;
    }
    forall tg | tg in Holders(g.tickets, excluded) ensures exists i :: 0 <= i < |entries| && entries[i].tg == tg {
      var k :| 0 <= k < |g.tickets| && g.tickets[k].holder !in excluded && g.tickets[k].holder == tg;
      assert |Owned(inv, tg)| > 0;
      assert HasEntry(entries, tg);
    }
  }

  lemma EntryCount(g: Giveaway, excluded: set<int>, entries: seq<Winners.Entry>)
    requires EntriesOf(g, excluded, entries)
    ensures |entries| == |Holders(g.tickets, excluded)|
  {
    Winners.TgsCount(entries);
    forall tg ensures tg in Winners.Tgs(entries) <==> tg in Holders(g.tickets, excluded) {
      if tg in Holders(g.tickets, excluded) {
        var i :| 0 <= i < |entries| && entries[i].tg == tg;
        assert tg in Winners.Tgs(entries);
      }
    }
    assert Winners.Tgs(entries) == Holders(g.tickets, excluded);
  }

  lemma {:induction false} PoolOfPositive(entries: seq<Winners.Entry>)
    requires forall i :: 0 <= i < |entries| ==> entries[i].count > 0
    ensures Winners.Pool(entries) == entries
  {
    if entries != [] {
      PoolOfPositive(entries[1..]);
      assert entries == [entries[0]] + entries[1..];
    }
  }

  /** What the pickers return. */
  ghost predicate Picks(g: Giveaway, entries: seq<Winners.Entry>, picked: seq<Winners.Entry>) {
    && Winners.PickedFrom(picked, entries) && |picked| == Winners.Min(g.winnerCount, |entries|)
    && (g.config.mostTickets ==> Winners.Optimal(picked, entries) && Winners.MostFirst(picked, entries))
  }

  method Pick(g: Giveaway, entries: seq<Winners.Entry>) returns (picked: seq<Winners.Entry>)
    requires Winners.Distinct(entries) && g.winnerCount > 0 && forall i :: 0 <= i < |entries| ==> entries[i].count > 0
    ensures Picks(g, entries, picked)
  {
    PoolOfPositive(entries);
    if g.config.mostTickets {
      picked := Winners.MostTicketsWinners(entries, g.winnerCount);
    } else {
      picked := Winners.WeightedRandomWinners(entries, g.winnerCount);
    }
  }

  /** The rows to store: each pick with one of its tickets, the first of them for the most-tickets rule. */
  ghost predicate RowsFor(g: Giveaway, picked: seq<Winners.Entry>, ws: seq<Winner>) {
    && |ws| <= |picked|
    && forall i :: 0 <= i < |ws| ==> RowFor(g, picked[i], ws[i], i + 1)
  }

  ghost predicate RowFor(g: Giveaway, e: Winners.Entry, w: Winner, rank: nat) {
    && w.tg == e.tg && w.tickets == e.count && w.rank == rank
    && w.ticket.Some? && HoldsTicket(g.tickets, w.tg, w.ticket.value)
    && (g.config.mostTickets ==> FirstTicket(g.tickets, w.tg, w.ticket.value))
  }

  method ChooseTicket(g: Giveaway, owned: map<int, seq<nat>>, tg: int) returns (ticket: nat)
    requires ByParticipant(Inventory(g.tickets), owned) && |Owned(Inventory(g.tickets), tg)| > 0
    ensures HoldsTicket(g.tickets, tg, ticket)
    ensures g.config.mostTickets ==> FirstTicket(g.tickets, tg, ticket)
  {
    var mine := if tg in owned then owned[tg] else [];
    var which := 0;
    if !g.config.mostTickets {
      which :| 0 <= which < |mine|;
    }
    InventoryIs(g.tickets);
    OwnedIsHeld(Inventory(g.tickets), tg, which);
    return mine[which];
  }

  method RowsOf(g: Giveaway, owned: map<int, seq<nat>>, picked: seq<Winners.Entry>) returns (ws: seq<Winner>)
    requires ByParticipant(Inventory(g.tickets), owned)
    requires forall i :: 0 <= i < |picked| ==> |Owned(Inventory(g.tickets), picked[i].tg)| > 0
    ensures |ws| == |picked| && RowsFor(g, picked, ws)
  {
    ws := [];
    for k := 0 to |picked|
      invariant |ws| == k && RowsFor(g, picked, ws)
    {
      var ticket := ChooseTicket(g, owned, picked[k].tg);
      var row := Winner(picked[k].tg, k + 1, picked[k].count, Some(ticket));
      OneRowMore(g, picked, ws, row);
      ws := ws + [row];
    }
  }

  lemma OneRowMore(g: Giveaway, picked: seq<Winners.Entry>, ws: seq<Winner>, row: Winner)
    requires |ws| < |picked| && RowsFor(g, picked, ws) && RowFor(g, picked[|ws|], row, |ws| + 1)
    ensures RowsFor(g, picked, ws + [row])
  {
    forall i | 0 <= i < |ws + [row]| ensures RowFor(g, picked[i], (ws + [row])[i], i + 1) {
      assert i < |ws| ==> (ws + [row])[i] == ws[i];
    }
  }

  /** `_pick_winners` and the rows `_store_winners` adds. */
  method PickWinners(g: Giveaway, excluded: set<int>) returns (ws: seq<Winner>, numbers: map<nat, nat>)
    requires g.winnerCount > 0 && Pairwise(g.tickets, DifferentTickets)
    ensures Draws(g, excluded, ws) && Numbering(Inventory(g.tickets), numbers)
  {
    var owned, table := TicketInventory(g.tickets);
    numbers := table;
    var entries := CollectEntries(g, owned, excluded);
    EntryCount(g, excluded, entries);
    var picked := Pick(g, entries);
    forall i | 0 <= i < |picked| ensures |Owned(Inventory(g.tickets), picked[i].tg)| > 0 {
      assert Member(entries, picked[i]);
    }
    ws := RowsOf(g, owned, picked);
    PicksDraw(g, excluded, entries, picked, ws);
  }

  lemma PicksDraw(g: Giveaway, excluded: set<int>, entries: seq<Winners.Entry>, picked: seq<Winners.Entry>,
                  ws: seq<Winner>)
    requires EntriesOf(g, excluded, entries) && Picks(g, entries, picked) && |entries| == |Holders(g.tickets, excluded)|
    requires |ws| == |picked| && RowsFor(g, picked, ws)
    ensures Draws(g, excluded, ws)
  {
    forall i | 0 <= i < |ws|
      ensures ws[i].tg in Holders(g.tickets, excluded) && ws[i].tickets == |Owned(Inventory(g.tickets), ws[i].tg)|
    {
      assert RowFor(g, picked[i], ws[i], i + 1) && Member(entries, picked[i]);
    }
    forall i, j | 0 <= i < j < |ws| ensures ws[i].tg != ws[j].tg {
      assert RowFor(g, picked[i], ws[i], i + 1) && RowFor(g, picked[j], ws[j], j + 1);
    }
    if g.config.mostTickets {
      MostTicketsWin(g, excluded, entries, picked, ws);
    }
  }

  /** With the most-tickets rule nobody left out has more than a winner, nobody more than one ranked before. */
  lemma MostTicketsWin(g: Giveaway, excluded: set<int>, entries: seq<Winners.Entry>, picked: seq<Winners.Entry>,
                       ws: seq<Winner>)
    requires EntriesOf(g, excluded, entries) && Picks(g, entries, picked) && g.config.mostTickets
    requires |ws| == |picked| && RowsFor(g, picked, ws)
    ensures forall i, tg :: (0 <= i < |ws| && tg in Holders(g.tickets, excluded)
                             && forall k :: 0 <= k < |ws| ==> ws[k].tg != tg) ==>
              |Owned(Inventory(g.tickets), tg)| <= ws[i].tickets
    ensures forall i, j :: 0 <= i < j < |ws| ==> ws[i].tickets >= ws[j].tickets
  {
    forall i | 0 <= i < |ws| ensures ws[i].tg == picked[i].tg && ws[i].tickets == picked[i].count {
      assert RowFor(g, picked[i], ws[i], i + 1);
    }
    forall i, tg | 0 <= i < |ws| && tg in Holders(g.tickets, excluded) && (forall k :: 0 <= k < |ws| ==> ws[k].tg != tg)
      ensures |Owned(Inventory(g.tickets), tg)| <= ws[i].tickets
    {
      var e :| 0 <= e < |entries| && entries[e].tg == tg;
      assert Member(entries, entries[e]);
      assert !Member(picked, entries[e]);
    }
  }

  class GiveawayStore {
    var g: Giveaway

    constructor (config: Config, winnerCount: int, startsAt: Option<int>, endsAt: Option<int>)
      ensures g == New(config, winnerCount, startsAt, endsAt) && Inv(g)
    {
      g := New(config, winnerCount, startsAt, endsAt);
    }

    method UpdateGiveaway(texts: bool, config: Option<Config>, winnerCount: Option<int>, starts: Bound, ends: Bound)
      returns (failed: Option<Error>)
      requires Inv(g)
      modifies this
      ensures Inv(g) && Next(old(g), Update(texts, config, winnerCount, starts, ends), g)
      ensures failed.None? <==> Updated(old(g), texts, config, winnerCount, starts, ends).Ok?
    {
      ghost var before := g;
      if g.status != Draft && g.status != Active {
        return Some(NotEditable);
      }
      if g.status != Draft && (texts || config.Some? || winnerCount.Some?) {
        return Some(OnlyWindow);
      }
      if g.status == Draft {
        if config.Some? { g := g.(config := Normalized(config.value)); }
        if winnerCount.Some? { g := g.(winnerCount := AtLeastOne(winnerCount.value)); }
      }
      g := g.(startsAt := Bounded(g.startsAt, starts), endsAt := Bounded(g.endsAt, ends));
      NextKeepsInv(before, Update(texts, config, winnerCount, starts, ends), g);
      return None;
    }

    method ActivateGiveaway() returns (failed: Option<Error>)
      requires Inv(g)
      modifies this
      ensures Inv(g) && Next(old(g), Activate, g) && (failed.None? <==> old(g).status == Draft)
    {
      ghost var before := g;
      if g.status != Draft {
        return Some(NotDraft);
      }
      g := g.(status := Active);
      NextKeepsInv(before, Activate, g);
      return None;
    }

    method CloseGiveaway() returns (failed: Option<Error>)
      requires Inv(g)
      modifies this
      ensures Inv(g) && Next(old(g), Close, g) && (failed.None? <==> old(g).status == Active)
    {
      ghost var before := g;
      if g.status != Active {
        return Some(NotActive);
      }
      g := g.(status := Closed);
      NextKeepsInv(before, Close, g);
      return None;
    }

    /** `_grant_ticket`. */
    method GrantTicket(holder: int, source: Source, invitee: Option<int>, now: int) returns (granted: bool)
      modifies this
      ensures g == WithTicket(old(g), holder, source, invitee, now)
      ensures granted <==> !Granted(old(g), holder, source, invitee)
    {
      if Granted(g, holder, source, invitee) {
        return false;
      }
      g := g.(tickets := g.tickets + [Ticket(g.nextTicket, holder, source, invitee, now)],
          nextTicket := g.nextTicket + 1);
      return true;
    }

    /** `count_tickets` */
    method CountTickets(tg: int) returns (count: nat)
      ensures count == TicketCount(g, tg) == |Held(g.tickets, tg)|
    {
      CountIsRows(g.tickets, tg);
      count := |Owned(g.tickets, tg)|;
    }

    method JoinParticipant(tg: int, now: int, channelSubOk: bool) returns (reason: JoinReason, count: nat)
      requires Inv(g)
      modifies this
      ensures Inv(g) && (g, reason) == JoinedBy(old(g), tg, now, channelSubOk)
      ensures reason == Joined <==> MayJoin(old(g), tg, now, channelSubOk)
      ensures reason == Joined ==>
                g.participants == old(g).participants + {tg} && OneTicketMore(old(g), g, tg, Join, None, now)
      ensures reason != Joined ==> g == old(g)
      ensures reason == Joined || reason == AlreadyJoined ==>
                count == TicketCount(g, tg) >= 1 && (!g.config.dynamic ==> count == 1)
      ensures reason != Joined && reason != AlreadyJoined ==> count == 0
    {
      ghost var before := g;
      JoinedHoldsTickets(g, tg, now, channelSubOk);
      JoinsIff(g, tg, now, channelSubOk);
      if tg <= 0 { return InvalidUser, 0; }
      if g.status != Active { return NotOpen, 0; }
      if !InWindow(g, now) { return OutsideWindow, 0; }
      if g.config.channelSub && !channelSubOk { return ChannelSubRequired, 0; }
      if tg in g.participants {
        count := CountTickets(tg);
        return AlreadyJoined, count;
      }
      g := g.(participants := g.participants + {tg});
      var granted := GrantTicket(tg, Join, None, now);
      NextKeepsInv(before, JoinIn(tg, now, channelSubOk), g);
      count := CountTickets(tg);
      return Joined, count;
    }

    /** The lines reported for the winners just stored. */
    method Lines(ws: seq<Winner>, numbers: map<nat, nat>) returns (lines: seq<Line>)
      requires g.winners == ws && Numbering(Inventory(g.tickets), numbers)
      requires forall i :: 0 <= i < |ws| ==> ws[i].ticket.Some?
      ensures lines == Report(g)
    {
      lines := [];
      for k := 0 to |ws|
        invariant |lines| == k && forall i :: 0 <= i < k ==> lines[i] == Report(g)[i]
      {
        var w := ws[k];
        var id := w.ticket.value;
        lines := lines + [Line(w.rank, w.tg, w.tickets, if id in numbers then Some(numbers[id]) else None)];
      }
    }

    /** `draw_winners`. */
    method DrawWinners() returns (r: Result<seq<Line>, Error>)
      requires Inv(g)
      modifies this
      ensures Inv(g) && Next(old(g), Draw, g)
      ensures r.Ok? <==> old(g).status == Active || old(g).status == Closed
      ensures r.Ok? ==> g.status == Drawn && r.value == Report(g)
    {
      ghost var before := g;
      if g.status != Active && g.status != Closed {
        return Err(CannotDraw);
      }
      if g.winners != [] {
        return Err(AlreadyDrawn);
      }
      var ws, numbers := PickWinners(g, {});
      g := g.(status := Drawn, winners := ws);
      NextKeepsInv(before, Draw, g);
      var lines := Lines(ws, numbers);
      return Ok(lines);
    }

    /** `redraw_winners`: refused when too few other participants are left. */
    method RedrawWinners() returns (r: Result<seq<Line>, Error>)
      requires Inv(g)
      modifies this
      ensures Inv(g) && Next(old(g), Redraw, g)
      ensures r.Ok? <==>
              old(g).status == Drawn && |Holders(old(g).tickets, WinnerTgs(old(g).winners))| >= old(g).winnerCount
      ensures r.Ok? ==> r.value == Report(g) && Draws(old(g), WinnerTgs(old(g).winners), g.winners)
    {
      ghost var before := g;
      if g.status != Drawn {
        return Err(NotDrawn);
      }
      var previous := WinnerTgs(g.winners);
      var ws, numbers := PickWinners(g, previous);
      if |ws| < g.winnerCount {
        return Err(NotEnough);
      }
      g := g.(winners := ws);
      NextKeepsInv(before, Redraw, g);
      var lines := Lines(ws, numbers);
      return Ok(lines);
    }

    /** `get_winners`: a row without a winning ticket shows the first ticket of its winner. */
    method GetWinners() returns (lines: seq<Line>)
      requires Pairwise(g.tickets, DifferentTickets)
      ensures lines == Report(g)
    {
      var owned, numbers := TicketInventory(g.tickets);
      lines := [];
      for k := 0 to |g.winners|
        invariant |lines| == k && forall i :: 0 <= i < k ==> lines[i] == Report(g)[i]
      {
        var w := g.winners[k];
        var shown := w.ticket;
        if shown.None? {
          var mine := if w.tg in owned then owned[w.tg] else [];
          shown := if mine != [] then Some(mine[0]) else None;
        }
        assert shown == ShownTicket(Inventory(g.tickets), w);
        var number := if shown.Some? && shown.value in numbers then Some(numbers[shown.value]) else None;
        lines := lines + [Line(w.rank, w.tg, w.tickets, number)];
      }
    }
  }

  /** The table of giveaways. */
  class GiveawayTable {
    var rows: map<int, Giveaway>

    ghost predicate Valid()
      reads this
    {
      forall k :: k in rows ==> Inv(rows[k])
    }

    /** The body of the loop, for one active giveaway. */
    method Offer(k: int, referrer: int, invitee: int, source: Source, now: int) returns (granted: bool)
      requires Valid() && k in rows && rows[k].status == Active && InWindow(rows[k], now)
      requires referrer > 0 && invitee > 0 && source != Join
      modifies this
      ensures Valid() && rows == old(rows)[k := InvitedBy(old(rows)[k], referrer, invitee, source, now)]
      ensures granted <==> MayInvite(old(rows)[k], referrer, invitee, source, now)
      ensures granted <==> rows[k] != old(rows)[k]
    {
      var g := rows[k];
      NextKeepsInv(g, Invite(referrer, invitee, source, now), InvitedBy(g, referrer, invitee, source, now));
      if !g.config.dynamic || source !in g.config.sources || referrer !in g.participants
         || Granted(g, referrer, source, Some(invitee)) {
        return false;
      }
      var n := WithTicket(g, referrer, source, Some(invitee), now);
      assert |n.tickets| == |g.tickets| + 1;
      rows := rows[k := n];
      return true;
    }

    /** `try_grant_invitee_ticket`: every active giveaway is offered the grant, and those are counted
        that had not made it. */
    method TryGrantInviteeTicket(referrer: int, invitee: int, source: Source, now: int) returns (granted: nat)
      requires Valid()
      modifies this
      ensures Valid() && rows.Keys == old(rows).Keys
      ensures forall k :: k in rows ==> rows[k] == InvitedBy(old(rows)[k], referrer, invitee, source, now)
      ensures forall k :: k in rows ==>
                if MayInvite(old(rows)[k], referrer, invitee, source, now)
                then rows[k].participants == old(rows)[k].participants
                     && OneTicketMore(old(rows)[k], rows[k], referrer, source, Some(invitee), now)
                else rows[k] == old(rows)[k]
      ensures granted == |set k | k in old(rows) && MayInvite(old(rows)[k], referrer, invitee, source, now)|
    {
      ghost var before, i := rows, Invitation(referrer, invitee, source, now);
      granted := 0;
      NothingOffered(before, i);
      if referrer > 0 && invitee > 0 && source != Join {
        granted := OfferAll(referrer, invitee, source, now);
      }
      ChangedAreInvited(before, rows, i);
    }

    /** The loop over the active giveaways. */
    method OfferAll(referrer: int, invitee: int, source: Source, now: int) returns (granted: nat)
      requires Valid() && referrer > 0 && invitee > 0 && source != Join
      modifies this
      ensures Valid() && rows == Offered(old(rows), Invitation(referrer, invitee, source, now), {})
      ensures rows.Keys == old(rows).Keys && granted == |Changed(old(rows), rows)|
    {
      ghost var before, i := rows, Invitation(referrer, invitee, source, now);
      granted := 0;
      NothingOffered(before, i);
      var rest := set k | k in rows && rows[k].status == Active && InWindow(rows[k], now);
      while exists k :: k in rest
        invariant rest <= rows.Keys && Valid() && rows == Offered(before, i, rest)
        invariant forall k :: k in rest ==> before[k].status == Active && InWindow(before[k], now)
        invariant granted == |Changed(before, rows)|
        decreases |rest|
      {
        var k :| k in rest;
        ghost var last := rows;
        assert last[k] == before[k];
        var ok := Offer(k, referrer, invitee, source, now);
        OneMoreOffered(before, i, rest, k);
        OneMoreChanged(before, last, k, rows[k]);
        granted := if ok then granted + 1 else granted;
        rest := rest - {k};
      }
      assert rest == {};
    }
  }

  datatype Invitation = Invitation(referrer: int, invitee: int, source: Source, now: int)

  function Accepted(g: Giveaway, i: Invitation): Giveaway { InvitedBy(g, i.referrer, i.invitee, i.source, i.now) }

  /** The table when all but the rest were offered the grant. */
  ghost function Offered(before: map<int, Giveaway>, i: Invitation, rest: set<int>): map<int, Giveaway> {
    map k | k in before :: if k in rest then before[k] else Accepted(before[k], i)
  }

  /** Giveaways that are not active, and improper invitations, need no offer. */
  lemma NothingOffered(before: map<int, Giveaway>, i: Invitation)
    ensures Offered(before, i, set k | k in before && before[k].status == Active && InWindow(before[k], i.now))
              == before
    ensures i.referrer <= 0 || i.invitee <= 0 || i.source == Join ==> forall k :: k in before ==>
              Accepted(before[k], i) == before[k]
    ensures |Changed(before, before)| == 0
  {
    var active := set k | k in before && before[k].status == Active && InWindow(before[k], i.now);
    var offered := Offered(before, i, active);
    forall k | k in before ensures k in offered && offered[k] == before[k] {
      assert k !in active ==> before[k].status != Active || !InWindow(before[k], i.now);
    }
    SameMap(offered, before);
    assert Changed(before, before) == {};
  }

  /** The giveaways that changed are those with a ticket to grant. */
  lemma ChangedAreInvited(before: map<int, Giveaway>, after: map<int, Giveaway>, i: Invitation)
    requires after.Keys == before.Keys && forall k :: k in after ==> after[k] == Accepted(before[k], i)
    ensures forall k :: k in after ==>
              if MayInvite(before[k], i.referrer, i.invitee, i.source, i.now)
              then after[k].participants == before[k].participants
                   && OneTicketMore(before[k], after[k], i.referrer, i.source, Some(i.invitee), i.now)
              else after[k] == before[k]
    ensures Changed(before, after)
            == set k | k in before && MayInvite(before[k], i.referrer, i.invitee, i.source, i.now)
  {
    forall k | k in after
      ensures after[k] != before[k] <==> MayInvite(before[k], i.referrer, i.invitee, i.source, i.now)
    {
      InvitesIff(before[k], i.referrer, i.invitee, i.source, i.now);
    }
    forall k | k in after { InvitesIff(before[k], i.referrer, i.invitee, i.source, i.now); }
  }

  lemma OneMoreOffered(before: map<int, Giveaway>, i: Invitation, rest: set<int>, k: int)
    requires k in rest && k in before
    ensures Offered(before, i, rest - {k}) == Offered(before, i, rest)[k := Accepted(before[k], i)]
  {
    SameMap(Offered(before, i, rest - {k}), Offered(before, i, rest)[k := Accepted(before[k], i)]);
  }

  lemma SameMap<K, V>(a: map<K, V>, b: map<K, V>)
    requires forall k :: k in a <==> k in b
    requires forall k :: k in a && k in b ==> a[k] == b[k]
    ensures a == b
  {
    assert a.Keys == b.Keys;
  }

  ghost function Changed<K, V>(before: map<K, V>, after: map<K, V>): set<K>
    requires before.Keys == after.Keys
  {
    set k | k in after && after[k] != before[k]
  }

  lemma OneMoreChanged<K, V>(before: map<K, V>, after: map<K, V>, k: K, v: V)
    requires before.Keys == after.Keys && k in after && after[k] == before[k]
    ensures after[k := v].Keys == before.Keys
    ensures |Changed(before, after[k := v])| == |Changed(before, after)| + if v != before[k] then 1 else 0
  {
    assert after[k := v].Keys == before.Keys;
    assert k !in Changed(before, after);
    if v != before[k] {
      assert Changed(before, after[k := v]) == Changed(before, after) + {k};
    } else {
      assert Changed(before, after[k := v]) == Changed(before, after);
    }
  }
}
