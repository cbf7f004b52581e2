/** Who gets a ticket of a giveaway, and what its organiser has set: each answer from the columns alone. */
module GiveawayEntry {
  import opened Wrappers
  import opened Sorting
  import opened Giveaways

  /** The giveaway is active and the time is between its bounds; both bounds belong to it. */
  predicate OpenAt(g: Giveaway, now: int) {
    && g.status == Active
    && (g.startsAt == None || g.startsAt.value <= now)
    && (g.endsAt == None || g.endsAt.value >= now)
  }

  predicate MayJoin(g: Giveaway, tg: int, now: int, channelSubOk: bool) {
    tg > 0 && OpenAt(g, now) && (!g.config.channelSub || channelSubOk) && tg !in g.participants
  }

  /** The giveaway with one more ticket. */
  predicate OneTicketMore(g: Giveaway, n: Giveaway, holder: int, source: Source, invitee: Option<int>, now: int) {
    && n.tickets == g.tickets + [Ticket(g.nextTicket, holder, source, invitee, now)]
    && n.nextTicket == g.nextTicket + 1 && n.winners == g.winners
    && n.status == g.status && n.config == g.config && n.winnerCount == g.winnerCount
    && n.startsAt == g.startsAt && n.endsAt == g.endsAt
  }

  lemma NewcomerHasNoTicket(g: Giveaway, tg: int)
    requires Inv(g) && tg !in g.participants
    ensures forall i :: 0 <= i < |g.tickets| ==> g.tickets[i].holder != tg
  {
  }

  /** Who asks to join is let in if and only if they may, and then gets one join ticket stamped now; otherwise
      nothing changes and the first reason against it is given. */
  lemma JoinsIff(g: Giveaway, tg: int, now: int, channelSubOk: bool)
    requires Inv(g)
    ensures var (n, reason) := JoinedBy(g, tg, now, channelSubOk);
            && (reason == Joined <==> MayJoin(g, tg, now, channelSubOk))
            && (reason == Joined ==>
                  n.participants == g.participants + {tg} && OneTicketMore(g, n, tg, Join, None, now))
            && (reason != Joined ==> n == g)
            && (reason == InvalidUser <==> tg <= 0)
            && (reason == NotOpen <==> tg > 0 && g.status != Active)
            && (reason == OutsideWindow <==> tg > 0 && g.status == Active && !OpenAt(g, now))
            && (reason == ChannelSubRequired <==> tg > 0 && OpenAt(g, now) && g.config.channelSub && !channelSubOk)
  {
    if tg !in g.participants {
      NewcomerHasNoTicket(g, tg);
    }
  }

  predicate MayInvite(g: Giveaway, referrer: int, invitee: int, source: Source, now: int) {
    && referrer > 0 && invitee > 0 && source != Join && OpenAt(g, now)
    && g.config.dynamic && source in g.config.sources && referrer in g.participants
    && forall i :: 0 <= i < |g.tickets| ==>
         g.tickets[i].holder != referrer || g.tickets[i].source != source || g.tickets[i].invitee != Some(invitee)
  }

  /** A referrer gets a ticket if and only if they take part in an open giveaway that counts this kind of
      invitation and had none for this invitee; otherwise nothing changes. */
  lemma InvitesIff(g: Giveaway, referrer: int, invitee: int, source: Source, now: int)
    ensures var n := InvitedBy(g, referrer, invitee, source, now);
            if MayInvite(g, referrer, invitee, source, now)
            then n.participants == g.participants && OneTicketMore(g, n, referrer, source, Some(invitee), now)
            else n == g
  {
  }

  // ---- counts and order ----

  function Held(tickets: seq<Ticket>, tg: int): set<nat> {
    set i: nat | i < |tickets| && tickets[i].holder == tg
  }

  /** The count of a participant is the number of rows in their name. */
  lemma {:induction false} CountIsRows(tickets: seq<Ticket>, tg: int)
    ensures |Owned(tickets, tg)| == |Held(tickets, tg)|
  {
    if tickets == [] {
      assert Held(tickets, tg) == {};
    } else {
      var n := |tickets| - 1;
      CountIsRows(tickets[..n], tg);
      assert tickets == tickets[..n] + [tickets[n]];
      OwnedAppend(tickets[..n], tickets[n], tg);
      assert Held(tickets, tg) == Held(tickets[..n], tg) + if tickets[n].holder == tg then {n} else {};
    }
  }

  predicate CreatedBefore(a: Ticket, b: Ticket) {
    a.createdAt < b.createdAt || (a.createdAt == b.createdAt && a.id <= b.id)
  }

  lemma {:induction false} FirstOfSorted(inv: seq<Ticket>, tg: int)
    requires Pairwise(inv, CreatedBefore) && |Owned(inv, tg)| > 0
    ensures exists i :: 0 <= i < |inv| && inv[i].holder == tg && inv[i].id == Owned(inv, tg)[0]
                        && forall j :: 0 <= j < |inv| && inv[j].holder == tg ==> CreatedBefore(inv[i], inv[j])
  {
    if inv[0].holder == tg {
      assert Owned(inv, tg)[0] == inv[0].id;
      assert forall j :: 0 <= j < |inv| ==> CreatedBefore(inv[0], inv[j]);
    } else {
      FirstOfSorted(inv[1..], tg);
      var i :| 0 <= i < |inv[1..]| && inv[1..][i].holder == tg && inv[1..][i].id == Owned(inv[1..], tg)[0]
               && forall j :: 0 <= j < |inv[1..]| && inv[1..][j].holder == tg ==>
                    CreatedBefore(inv[1..][i], inv[1..][j]);
      forall j | 0 <= j < |inv| && inv[j].holder == tg ensures CreatedBefore(inv[i + 1], inv[j]) {
        assert inv[j] == inv[1..][j - 1];
      }
    }
  }

  predicate Unrelated(a: Ticket, b: Ticket) { true }

  /** The ticket that a most-tickets winner wins with is the one created first of their tickets. */
  lemma FirstTicketIsEarliest(tickets: seq<Ticket>, tg: int, id: nat)
    requires FirstTicket(tickets, tg, id)
    ensures exists i :: 0 <= i < |tickets| && tickets[i].holder == tg && tickets[i].id == id
                        && forall j :: 0 <= j < |tickets| && tickets[j].holder == tg ==>
                             CreatedBefore(tickets[i], tickets[j])
  {
    var inv := Inventory(tickets);
    SortIs(tickets, Earlier, Unrelated);
    forall i, j | 0 <= i < j < |inv| ensures CreatedBefore(inv[i], inv[j]) {
      assert Earlier(inv[i], inv[j]);
    }
    FirstOfSorted(inv, tg);
    var k :| 0 <= k < |inv| && inv[k].holder == tg && inv[k].id == id
             && forall j :: 0 <= j < |inv| && inv[j].holder == tg ==> CreatedBefore(inv[k], inv[j]);
    assert Member(inv, inv[k]);
    var i :| 0 <= i < |tickets| && tickets[i] == inv[k];
    forall j | 0 <= j < |tickets| && tickets[j].holder == tg ensures CreatedBefore(tickets[i], tickets[j]) {
      assert Member(tickets, tickets[j]);
      var m :| 0 <= m < |inv| && inv[m] == tickets[j];
    }
  }

  // ---- what the organiser sets ----

  /** The rules stored for what is asked: a static giveaway has no ticket sources, a dynamic one those asked for
      that are kinds of invitation; the rest is stored as asked. */
  ghost predicate RulesAsAsked(asked: Config, stored: Config) {
    && stored.dynamic == asked.dynamic && stored.mostTickets == asked.mostTickets
    && stored.channelSub == asked.channelSub
    && forall s: Source :: s in stored.sources <==> asked.dynamic && s in asked.sources && s != Join
  }

  ghost predicate PlacesAsAsked(asked: int, stored: nat) {
    stored == if asked >= 1 then asked else 1
  }

  /** A new giveaway is an empty draft with the rules asked for. */
  lemma CreatedAsAsked(c: Config, winnerCount: int, startsAt: Option<int>, endsAt: Option<int>)
    ensures var g := New(c, winnerCount, startsAt, endsAt);
            && g.status == Draft && RulesAsAsked(c, g.config) && PlacesAsAsked(winnerCount, g.winnerCount)
            && g.startsAt == startsAt && g.endsAt == endsAt
            && g.participants == {} && g.tickets == [] && g.winners == []
  {
  }

  ghost predicate BoundAsAsked(before: Option<int>, asked: Bound, after: Option<int>) {
    && (asked == Keep ==> after == before) && (asked == Clear ==> after == None)
    && forall at :: asked == SetTo(at) ==> after == Some(at)
  }

  /** An update is accepted for a draft, and for an active giveaway if it moves the window only; what is asked
      for is stored, what is not stays. */
  lemma UpdatedAsAsked(g: Giveaway, texts: bool, config: Option<Config>, winnerCount: Option<int>, starts: Bound,
                       ends: Bound)
    ensures var r := Updated(g, texts, config, winnerCount, starts, ends);
            && (r.Ok? <==> || g.status == Draft
                           || (g.status == Active && !texts && config == None && winnerCount == None))
            && (r.Err? ==> r.error == if g.status == Active then OnlyWindow else NotEditable)
            && (r.Ok? ==>
                  && var n := r.value;
                  && (if config.Some? then RulesAsAsked(config.value, n.config) else n.config == g.config)
                  && (if winnerCount.Some? then PlacesAsAsked(winnerCount.value, n.winnerCount)
                      else n.winnerCount == g.winnerCount)
                  && BoundAsAsked(g.startsAt, starts, n.startsAt) && BoundAsAsked(g.endsAt, ends, n.endsAt)
                  && n.status == g.status && n.participants == g.participants && n.tickets == g.tickets
                  && n.nextTicket == g.nextTicket && n.winners == g.winners)
  {
  }
}
