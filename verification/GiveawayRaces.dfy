/** Calls that overlap: only a draw and a redraw lock the giveaway they read. Every other call may decide on
    a state that is no longer current when it commits, and then writes just the columns it changes. */
module GiveawayRaces {
  import opened Wrappers
  import opened Sorting
  import opened Giveaways
  import opened GiveawayStore

  /** `join_participant`, deciding on the giveaway it has seen and writing to the current one; if the
      participant was added meanwhile, the unique index makes the insert fail. */
  function LateJoined(seen: Giveaway, g: Giveaway, tg: int, now: int, channelSubOk: bool): (Giveaway, JoinReason) {
    var reason := JoinedBy(seen, tg, now, channelSubOk).1;
    if reason != Joined then (g, reason)
    else if tg in g.participants then (g, AlreadyJoined)
    else (WithTicket(g.(participants := g.participants + {tg}), tg, Join, None, now), Joined)
  }

  /** Without an overlap it is the join of a run. */
  lemma SerialJoin(g: Giveaway, tg: int, now: int, channelSubOk: bool)
    ensures LateJoined(g, g, tg, now, channelSubOk) == JoinedBy(g, tg, now, channelSubOk)
  {
  }

  /** The ticket invariant survives: holders are participants, with one join ticket each, grants do not
      repeat, and the winners of a draw keep their tickets. */
  lemma LateJoinKeepsInv(seen: Giveaway, g: Giveaway, tg: int, now: int, channelSubOk: bool)
    requires Inv(g) && g.status != Draft
    ensures Inv(LateJoined(seen, g, tg, now, channelSubOk).0)
  {
    var (n, reason) := LateJoined(seen, g, tg, now, channelSubOk);
    if reason == Joined {
      var h := g.(participants := g.participants + {tg});
      assert h.(participants := h.participants - {tg}) == g;
      forall p | p in h.participants && p != tg ensures Granted(h, p, Join, None) {
        assert Granted(g, p, Join, None);
      }
      GrantKeeps(h, tg, Join, None, now);
    }
  }

  // ---- ticket numbers are ranks ----

  /** How many tickets come no later than this one. */
  function Rank(ts: seq<Ticket>, t: Ticket): nat {
    if ts == [] then 0 else (if Earlier(ts[0], t) then 1 else 0) + Rank(ts[1..], t)
  }

  lemma {:induction false} RankOfInserted(x: Ticket, ts: seq<Ticket>, t: Ticket)
    ensures Rank(Insert(x, ts, Earlier), t) == (if Earlier(x, t) then 1 else 0) + Rank(ts, t)
  {
    if ts == [] || Earlier(x, ts[0]) {
      assert ([x] + ts)[1..] == ts;
    } else {
      RankOfInserted(x, ts[1..], t);
      assert ([ts[0]] + Insert(x, ts[1..], Earlier))[1..] == Insert(x, ts[1..], Earlier);
    }
  }

  lemma {:induction false} RankInInventory(ts: seq<Ticket>, t: Ticket)
    ensures Rank(Inventory(ts), t) == Rank(ts, t)
  {
    if ts != [] {
      RankInInventory(ts[1..], t);
      RankOfInserted(ts[0], Inventory(ts[1..]), t);
    }
  }

  lemma {:induction false} RankOfAppended(ts: seq<Ticket>, x: Ticket, t: Ticket)
    ensures Rank(ts + [x], t) == Rank(ts, t) + if Earlier(x, t) then 1 else 0
  {
    if ts == [] {
      assert ([] + [x])[1..] == [];
    } else {
      RankOfAppended(ts[1..], x, t);
      assert (ts + [x])[1..] == ts[1..] + [x];
    }
  }

  /** Where the first k are no later than t and the others are, t has rank k. */
  lemma {:induction false} RankOfPrefix(ts: seq<Ticket>, t: Ticket, k: nat)
    requires k <= |ts|
    requires forall i :: 0 <= i < |ts| ==> (Earlier(ts[i], t) <==> i < k)
    ensures Rank(ts, t) == k
  {
    if ts != [] {
      RankOfPrefix(ts[1..], t, if k > 0 then k - 1 else 0);
    }
  }

  /** The number of a ticket is its rank among all tickets. */
  lemma {:induction false} NumberIsRank(ts: seq<Ticket>, i: nat)
    requires Pairwise(ts, DifferentTickets) && i < |ts|
    ensures NumberOf(Inventory(ts), ts[i].id) == Some(Rank(ts, ts[i]))
  {
    var inv := Inventory(ts);
    SortIs(ts, Earlier, DifferentTickets);
    assert Member(ts, ts[i]) && Member(inv, ts[i]);
    var k :| 0 <= k < |inv| && inv[k] == ts[i];
    forall a, b | 0 <= a < b < |inv| ensures inv[a].id != inv[b].id {
      assert DifferentTickets(inv[a], inv[b]);
    }
    NumbersAreDistinct(inv, k);
    forall j | 0 <= j < |inv| ensures Earlier(inv[j], inv[k]) <==> j < k + 1 {
      assert j < k ==> Earlier(inv[j], inv[k]);
      assert k < j ==> Earlier(inv[k], inv[j]) && inv[j].id != inv[k].id;
    }
    RankOfPrefix(inv, inv[k], k + 1);
    RankInInventory(ts, ts[i]);
  }

  // ---- what a late join does to a report ----

  /** The winner's ticket was not created after this time. */
  ghost predicate NotAfter(g: Giveaway, w: Winner, now: int) {
    forall j :: 0 <= j < |g.tickets| && w.ticket == Some(g.tickets[j].id) ==> g.tickets[j].createdAt <= now
  }

  lemma LateLine(g: Giveaway, w: Winner, t: Ticket)
    requires Inv(g) && t.id == g.nextTicket && w.ticket.Some? && HoldsTicket(g.tickets, w.tg, w.ticket.value)
    ensures LineOf(Inventory(g.tickets + [t]), w) == LineOf(Inventory(g.tickets), w) <==> NotAfter(g, w, t.createdAt)
  {
    var ts, more := g.tickets, g.tickets + [t];
    var j :| 0 <= j < |ts| && ts[j].holder == w.tg && ts[j].id == w.ticket.value;
    forall a, b | 0 <= a < b < |more| ensures DifferentTickets(more[a], more[b]) {
      assert more[a] == ts[a] && (b < |ts| ==> more[b] == ts[b]);
    }
    forall a, b | 0 <= a < b < |ts| ensures DifferentTickets(ts[a], ts[b]) {
      assert ts[a].id != ts[b].id;
    }
    NumberIsRank(ts, j);
    NumberIsRank(more, j);
    RankOfAppended(ts, t, ts[j]);
    OneOfThatId(ts, j);
  }

  lemma OneOfThatId(ts: seq<Ticket>, j: nat)
    requires j < |ts| && Pairwise(ts, DifferentTickets)
    ensures forall i :: 0 <= i < |ts| && ts[i].id == ts[j].id ==> i == j
  {
    forall i | 0 <= i < |ts| && i != j ensures ts[i].id != ts[j].id {
      assert if i < j then DifferentTickets(ts[i], ts[j]) else DifferentTickets(ts[j], ts[i]);
    }
  }

  /** A join committed after a draw leaves the reported lines as they were if and only if it is stamped
      no earlier than every winning ticket; otherwise it shifts the numbers of the later ones. */
  lemma LateJoinKeepsReportIff(seen: Giveaway, g: Giveaway, tg: int, now: int, channelSubOk: bool)
    requires Inv(g) && g.status == Drawn && forall i :: 0 <= i < |g.winners| ==> g.winners[i].ticket.Some?
    requires LateJoined(seen, g, tg, now, channelSubOk).1 == Joined
    ensures var n := LateJoined(seen, g, tg, now, channelSubOk).0;
            && n.tickets == g.tickets + [Ticket(g.nextTicket, tg, Join, None, now)]
            && (Report(n) == Report(g) <==> forall i :: 0 <= i < |g.winners| ==> NotAfter(g, g.winners[i], now))
  {
    var n := LateJoined(seen, g, tg, now, channelSubOk).0;
    var t := Ticket(g.nextTicket, tg, Join, None, now);
    assert !Granted(g, tg, Join, None) by {
      assert forall i :: 0 <= i < |g.tickets| ==> g.tickets[i].holder in g.participants;
    }
    assert n.tickets == g.tickets + [t];
    forall i | 0 <= i < |g.winners|
      ensures Report(n)[i] == Report(g)[i] <==> NotAfter(g, g.winners[i], now)
    {
      LateLine(g, g.winners[i], t);
    }
  }

  // ---- invitations ----

  /** `try_grant_invitee_ticket` for a giveaway that was seen active: its status, window and rules are those
      seen, participation and earlier grants are looked up anew. */
  function LateInvited(seen: Giveaway, g: Giveaway, referrer: int, invitee: int, source: Source, now: int): Giveaway {
    if referrer <= 0 || invitee <= 0 || source == Join then g
    else if seen.status != Active || !InWindow(seen, now) then g
    else if !seen.config.dynamic || source !in seen.config.sources || referrer !in g.participants then g
    else WithTicket(g, referrer, source, Some(invitee), now)
  }

  lemma SerialInvitation(g: Giveaway, referrer: int, invitee: int, source: Source, now: int)
    ensures LateInvited(g, g, referrer, invitee, source, now) == InvitedBy(g, referrer, invitee, source, now)
  {
  }

  /** A late invitation keeps the invariant unless it grants a ticket in a giveaway that has become static. */
  lemma LateInvitationKeepsInvIff(seen: Giveaway, g: Giveaway, referrer: int, invitee: int, source: Source, now: int)
    requires Inv(g) && g.status != Draft
    ensures var n := LateInvited(seen, g, referrer, invitee, source, now);
            Inv(n) <==> g.config.dynamic || n == g
  {
    var n := LateInvited(seen, g, referrer, invitee, source, now);
    if n != g {
      assert Granted(g, referrer, Join, None);
      if g.config.dynamic {
        GrantKeeps(g, referrer, source, Some(invitee), now);
      } else {
        assert n.tickets[|g.tickets|].source != Join;
      }
    }
  }

  /** It changes the report of a draw under the same condition as a late join. */
  lemma LateInvitationKeepsReportIff(seen: Giveaway, g: Giveaway, referrer: int, invitee: int, source: Source, now: int)
    requires Inv(g) && g.status == Drawn && forall i :: 0 <= i < |g.winners| ==> g.winners[i].ticket.Some?
    requires LateInvited(seen, g, referrer, invitee, source, now) != g
    ensures var n := LateInvited(seen, g, referrer, invitee, source, now);
            && n.tickets == g.tickets + [Ticket(g.nextTicket, referrer, source, Some(invitee), now)]
            && (Report(n) == Report(g) <==> forall i :: 0 <= i < |g.winners| ==> NotAfter(g, g.winners[i], now))
  {
    var n := LateInvited(seen, g, referrer, invitee, source, now);
    var t := Ticket(g.nextTicket, referrer, source, Some(invitee), now);
    forall i | 0 <= i < |g.winners|
      ensures Report(n)[i] == Report(g)[i] <==> NotAfter(g, g.winners[i], now)
    {
      LateLine(g, g.winners[i], t);
    }
  }

  // ---- changes of status ----

  /** `close_giveaway` and `activate_giveaway` write the status only. */
  function LateClosed(seen: Giveaway, g: Giveaway): Giveaway {
    if seen.status != Active then g else g.(status := Closed)
  }

  function LateActivated(seen: Giveaway, g: Giveaway): Giveaway {
    if seen.status != Draft then g else g.(status := Active)
  }

  lemma SerialStatus(g: Giveaway, closed: Giveaway, activated: Giveaway)
    ensures Next(g, Close, closed) <==> closed == LateClosed(g, g)
    ensures Next(g, Activate, activated) <==> activated == LateActivated(g, g)
  {
  }

  /** A late change of status keeps the invariant if and only if nothing was drawn meanwhile. */
  lemma LateStatusKeepsInvIff(seen: Giveaway, g: Giveaway, status: Status)
    requires Inv(g) && g.status != Draft && (status == Active || status == Closed)
    ensures Inv(g.(status := status)) <==> g.winners == []
    ensures status == Closed && seen.status == Active ==> LateClosed(seen, g) == g.(status := status)
    ensures status == Active && seen.status == Draft ==> LateActivated(seen, g) == g.(status := status)
  {
    SameTickets(g, g.(status := status));
  }

  /** A draw with winners that a late close overwrites can be neither drawn nor redrawn again: whatever is
      called from then on, one call after another, changes nothing. */
  lemma {:induction false} ClosedDrawIsStuck(states: seq<Giveaway>, ops: seq<Op>, n: nat)
    requires Run(states, ops) && n <= |ops| && states[0].status == Closed && states[0].winners != []
    ensures states[n] == states[0]
  {
    if n > 0 {
      ClosedDrawIsStuck(states, ops, n - 1);
      assert Next(states[n - 1], ops[n - 1], states[n]);
    }
  }

  // ---- changes of the rules ----

  /** `update_giveaway`, decided on the giveaway seen: a column is written if its new value is not the one
      that was read. */
  function LateUpdated(seen: Giveaway, g: Giveaway, texts: bool, config: Option<Config>, winnerCount: Option<int>,
                       starts: Bound, ends: Bound): Giveaway
  {
    match Updated(seen, texts, config, winnerCount, starts, ends)
    case Err(_) => g
    case Ok(u) => g.(config := if u.config != seen.config then u.config else g.config,
                     winnerCount := if u.winnerCount != seen.winnerCount then u.winnerCount else g.winnerCount,
                     startsAt := if u.startsAt != seen.startsAt then u.startsAt else g.startsAt,
                     endsAt := if u.endsAt != seen.endsAt then u.endsAt else g.endsAt)
  }

  lemma SerialUpdate(g: Giveaway, texts: bool, config: Option<Config>, winnerCount: Option<int>, starts: Bound,
                     ends: Bound, n: Giveaway)
    ensures Next(g, Update(texts, config, winnerCount, starts, ends), n)
            <==> n == LateUpdated(g, g, texts, config, winnerCount, starts, ends)
  {
  }

  /** The update was decided on a draft and sends rules that are neither those read nor the current ones. */
  predicate NewRules(seen: Giveaway, g: Giveaway, config: Option<Config>, winnerCount: Option<int>) {
    seen.status == Draft
    && ((config.Some? && Normalized(config.value) != seen.config && Normalized(config.value) != g.config)
        || (winnerCount.Some? && AtLeastOne(winnerCount.value) != seen.winnerCount
            && AtLeastOne(winnerCount.value) != g.winnerCount))
  }

  /** A late update changes the rules of the giveaway as it is now if and only if it brings new ones. */
  lemma LateUpdateKeepsRulesIff(seen: Giveaway, g: Giveaway, texts: bool, config: Option<Config>,
                                winnerCount: Option<int>,
                                starts: Bound, ends: Bound)
    ensures var n := LateUpdated(seen, g, texts, config, winnerCount, starts, ends);
            n.config == g.config && n.winnerCount == g.winnerCount <==> !NewRules(seen, g, config, winnerCount)
    ensures var n := LateUpdated(seen, g, texts, config, winnerCount, starts, ends);
            n.status == g.status && n.participants == g.participants && n.tickets == g.tickets && n.winners == g.winners
  {
  }

  /** And it keeps the invariant unless it makes a giveaway with invitation tickets static, or leaves fewer
      places than there are winners. */
  lemma LateUpdateKeepsInvIff(seen: Giveaway, g: Giveaway, texts: bool, config: Option<Config>,
                              winnerCount: Option<int>,
                              starts: Bound, ends: Bound)
    requires Inv(g)
    ensures var n := LateUpdated(seen, g, texts, config, winnerCount, starts, ends);
            Inv(n) <==> && (n.config.dynamic || forall i :: 0 <= i < |g.tickets| ==> g.tickets[i].source == Join)
                        && (g.status == Drawn ==> |g.winners| <= n.winnerCount)
  {
    var n := LateUpdated(seen, g, texts, config, winnerCount, starts, ends);
    SameTickets(g, n);
  }
}
