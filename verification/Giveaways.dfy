/** One giveaway: its life cycle, its tickets and its draws. */
module Giveaways {
  import opened Wrappers
  import opened Sorting
  import Winners

  datatype Status = Draft | Active | Closed | Drawn

  datatype Source = Join | InviteeRef | InviteePurchase

  datatype Config = Config(dynamic: bool, sources: set<Source>, mostTickets: bool, channelSub: bool)

  datatype Ticket = Ticket(id: nat, holder: int, source: Source, invitee: Option<int>, createdAt: int)

  /** A row of the winners; the ticket column is nullable. */
  datatype Winner = Winner(tg: int, rank: nat, tickets: nat, ticket: Option<nat>)

  datatype Giveaway = Giveaway(
    status: Status, config: Config, winnerCount: nat, startsAt: Option<int>, endsAt: Option<int>,
    participants: set<int>, tickets: seq<Ticket>, nextTicket: nat, winners: seq<Winner>)

  datatype Error = NotEditable | OnlyWindow | NotDraft | NotActive | CannotDraw | AlreadyDrawn | NotDrawn | NotEnough

  /** `normalize_config`: a static giveaway has no ticket sources, and joining is not one. */
  function Normalized(c: Config): Config {
    c.(sources := if c.dynamic then c.sources - {Join} else {})
  }

  function AtLeastOne(n: int): nat { if n < 1 then 1 else n }

  // ---- the calls ----

  /** `create_giveaway`. */
  function New(c: Config, winnerCount: int, startsAt: Option<int>, endsAt: Option<int>): Giveaway {
    Giveaway(Draft, Normalized(c), AtLeastOne(winnerCount), startsAt, endsAt, {}, [], 0, [])
  }

  /** A window bound: left alone, cleared, or set. */
  datatype Bound = Keep | Clear | SetTo(at: int)

  function Bounded(kept: Option<int>, b: Bound): Option<int> {
    match b case Keep => kept case Clear => None case SetTo(at) => Some(at)
  }

  /** `update_giveaway`; `texts` says whether a title or channel text is given. */
  function Updated(g: Giveaway, texts: bool, config: Option<Config>, winnerCount: Option<int>, starts: Bound,
                   ends: Bound)
    : Result<Giveaway, Error>
  {
    if g.status != Draft && g.status != Active then Err(NotEditable)
    else if g.status != Draft && (texts || config.Some? || winnerCount.Some?) then Err(OnlyWindow)
    else Ok(g.(config := if config.Some? then Normalized(config.value) else g.config,
               winnerCount := if winnerCount.Some? then AtLeastOne(winnerCount.value) else g.winnerCount,
               startsAt := Bounded(g.startsAt, starts), endsAt := Bounded(g.endsAt, ends)))
  }

  predicate InWindow(g: Giveaway, now: int) {
    (g.startsAt.Some? ==> g.startsAt.value <= now) && (g.endsAt.Some? ==> now <= g.endsAt.value)
  }

  predicate Granted(g: Giveaway, holder: int, source: Source, invitee: Option<int>) {
    exists i :: 0 <= i < |g.tickets| && g.tickets[i].holder == holder && g.tickets[i].source == source
        && g.tickets[i].invitee == invitee
  }

  /** `_grant_ticket`: at most once for a participant, source and invitee. */
  function WithTicket(g: Giveaway, holder: int, source: Source, invitee: Option<int>, now: int): Giveaway {
    if Granted(g, holder, source, invitee) then g
    else g.(tickets := g.tickets + [Ticket(g.nextTicket, holder, source, invitee, now)], nextTicket := g.nextTicket + 1)
  }

  /** `count_tickets` */
  function TicketCount(g: Giveaway, tg: int): nat { |Owned(g.tickets, tg)| }

  datatype JoinReason = InvalidUser | NotOpen | OutsideWindow | ChannelSubRequired | AlreadyJoined | Joined

  /** `join_participant`. */
  function JoinedBy(g: Giveaway, tg: int, now: int, channelSubOk: bool): (Giveaway, JoinReason) {
    if tg <= 0 then (g, InvalidUser)
    else if g.status != Active then (g, NotOpen)
    else if !InWindow(g, now) then (g, OutsideWindow)
    else if g.config.channelSub && !channelSubOk then (g, ChannelSubRequired)
    else if tg in g.participants then (g, AlreadyJoined)
    else (WithTicket(g.(participants := g.participants + {tg}), tg, Join, None, now), Joined)
  }

  /** `try_grant_invitee_ticket`, for one giveaway. */
  function InvitedBy(g: Giveaway, referrer: int, invitee: int, source: Source, now: int): Giveaway {
    if referrer <= 0 || invitee <= 0 || source == Join then g
    else if g.status != Active || !InWindow(g, now) then g
    else if !g.config.dynamic || source !in g.config.sources || referrer !in g.participants then g
    else WithTicket(g, referrer, source, Some(invitee), now)
  }

  // ---- tickets at the draw ----

  /** ORDER BY created_at, id. */
  predicate Earlier(a: Ticket, b: Ticket) {
    a.createdAt < b.createdAt || (a.createdAt == b.createdAt && a.id <= b.id)
  }

  function Inventory(tickets: seq<Ticket>): seq<Ticket> { Sort(tickets, Earlier) }

  function Owned(ts: seq<Ticket>, tg: int): seq<nat> {
    if ts == [] then [] else (if ts[0].holder == tg then [ts[0].id] else []) + Owned(ts[1..], tg)
  }

  lemma {:induction false} OwnedAppend(ts: seq<Ticket>, t: Ticket, tg: int)
    ensures Owned(ts + [t], tg) == Owned(ts, tg) + (if t.holder == tg then [t.id] else [])
  {
    if ts == [] {
      assert ts + [t] == [t];
      assert Owned([t][1..], tg) == [];
    } else {
      OwnedAppend(ts[1..], t, tg);
      assert (ts + [t])[1..] == ts[1..] + [t];
    }
  }

  /** The number printed for a ticket: its place in the inventory, from one. */
  function NumberOf(ts: seq<Ticket>, id: nat): Option<nat> {
    if ts == [] then None
    else if ts[0].id == id then Some(1)
    else match NumberOf(ts[1..], id) case None => None case Some(n) => Some(n + 1)
  }

  function Holders(tickets: seq<Ticket>, excluded: set<int>): set<int> {
    set i | 0 <= i < |tickets| && tickets[i].holder !in excluded :: tickets[i].holder
  }

  predicate HoldsTicket(tickets: seq<Ticket>, tg: int, id: nat) {
    exists i :: 0 <= i < |tickets| && tickets[i].holder == tg && tickets[i].id == id
  }

  predicate FirstTicket(tickets: seq<Ticket>, tg: int, id: nat) {
    |Owned(Inventory(tickets), tg)| > 0 && Owned(Inventory(tickets), tg)[0] == id
  }

  /** A draw that excludes some participants: as many different holders as there are places or
      candidates, each with one of its own tickets and its true ticket count, ranked from one;
      with the most-tickets rule nobody left out has more tickets than a winner, nobody more than one ranked
      before, and the winning ticket is the holder's first. */
  ghost predicate Draws(g: Giveaway, excluded: set<int>, ws: seq<Winner>) {
    && |ws| == Winners.Min(g.winnerCount, |Holders(g.tickets, excluded)|)
    && (forall i :: 0 <= i < |ws| ==>
          && ws[i].rank == i + 1 && ws[i].tg in Holders(g.tickets, excluded)
          && ws[i].tickets == |Owned(Inventory(g.tickets), ws[i].tg)|
          && ws[i].ticket.Some? && HoldsTicket(g.tickets, ws[i].tg, ws[i].ticket.value)
          && (g.config.mostTickets ==> FirstTicket(g.tickets, ws[i].tg, ws[i].ticket.value)))
    && (forall i, j :: 0 <= i < j < |ws| ==> ws[i].tg != ws[j].tg)
    && (g.config.mostTickets ==>
          forall i, tg :: (0 <= i < |ws| && tg in Holders(g.tickets, excluded)
                           && forall k :: 0 <= k < |ws| ==> ws[k].tg != tg) ==>
            |Owned(Inventory(g.tickets), tg)| <= ws[i].tickets)
    && (g.config.mostTickets ==> forall i, j :: 0 <= i < j < |ws| ==> ws[i].tickets >= ws[j].tickets)
  }

  function WinnerTgs(ws: seq<Winner>): set<int> { set i | 0 <= i < |ws| :: ws[i].tg }

  // ---- runs ----

  datatype Op =
    | Update(texts: bool, config: Option<Config>, winnerCount: Option<int>, starts: Bound, ends: Bound)
    | Activate | Close
    | JoinIn(tg: int, now: int, channelSubOk: bool)
    | Invite(referrer: int, invitee: int, source: Source, now: int)
    | Draw | Redraw

  /** What a call commits; one that raises leaves the giveaway as it was. */
  ghost predicate Next(g: Giveaway, op: Op, n: Giveaway) {
    match op
    case Update(texts, config, count, starts, ends) =>
      n == (match Updated(g, texts, config, count, starts, ends) case Ok(u) => u case Err(_) => g)
    case Activate => n == if g.status == Draft then g.(status := Active) else g
    case Close => n == if g.status == Active then g.(status := Closed) else g
    case JoinIn(tg, now, ok) => n == JoinedBy(g, tg, now, ok).0
    case Invite(referrer, invitee, source, now) => n == InvitedBy(g, referrer, invitee, source, now)
    case Draw =>
      if (g.status == Active || g.status == Closed) && g.winners == []
      then Draws(g, {}, n.winners) && n == g.(status := Drawn, winners := n.winners)
      else n == g
    case Redraw =>
      || n == g
      || (&& g.status == Drawn && Draws(g, WinnerTgs(g.winners), n.winners) && |n.winners| == g.winnerCount
          && n == g.(winners := n.winners))
  }

  /** What every reachable giveaway satisfies. */
  ghost predicate Inv(g: Giveaway) {
    && g.winnerCount >= 1
    && (!g.config.dynamic ==> g.config.sources == {}) && Join !in g.config.sources
    && (forall i :: 0 <= i < |g.tickets| ==>
          && g.tickets[i].id < g.nextTicket && g.tickets[i].holder in g.participants
          && (g.tickets[i].source == Join ==> g.tickets[i].invitee == None)
          && (g.tickets[i].source != Join ==> g.config.dynamic && g.tickets[i].invitee.Some?))
    && (forall i, j :: 0 <= i < j < |g.tickets| ==>
         g.tickets[i].id != g.tickets[j].id && !SameGrant(g.tickets[i], g.tickets[j]))
    && (forall p :: p in g.participants ==> Granted(g, p, Join, None))
    && (g.status == Draft ==> g.participants == {} && g.tickets == [])
    && (g.status != Drawn ==> g.winners == [])
    && (g.status == Drawn ==> WinnersValid(g))
  }

  predicate SameGrant(a: Ticket, b: Ticket) {
    a.holder == b.holder && a.source == b.source && a.invitee == b.invitee
  }

  /** Distinct participants, each winning with a ticket of its own, ranked from one, at most as
      many as there are places. */
  ghost predicate WinnersValid(g: Giveaway) {
    && |g.winners| <= g.winnerCount
    && (forall i :: 0 <= i < |g.winners| ==>
          && g.winners[i].rank == i + 1 && g.winners[i].tg in g.participants
          && (g.winners[i].ticket.Some? ==> HoldsTicket(g.tickets, g.winners[i].tg, g.winners[i].ticket.value)))
    && (forall i, j :: 0 <= i < j < |g.winners| ==> g.winners[i].tg != g.winners[j].tg)
  }

  lemma NewInv(c: Config, winnerCount: int, startsAt: Option<int>, endsAt: Option<int>)
    ensures Inv(New(c, winnerCount, startsAt, endsAt))
  {
  }

  /** Winners do not lose their tickets to a new one. */
  lemma WinnersStayValid(g: Giveaway, n: Giveaway, t: Ticket)
    requires WinnersValid(g) && n.winners == g.winners && n.winnerCount == g.winnerCount
    requires g.participants <= n.participants && n.tickets == g.tickets + [t]
    ensures WinnersValid(n)
  {
    forall i | 0 <= i < |g.winners| && g.winners[i].ticket.Some?
      ensures HoldsTicket(n.tickets, g.winners[i].tg, g.winners[i].ticket.value)
    {
      var k :| 0 <= k < |g.tickets| && g.tickets[k].holder == g.winners[i].tg
          && g.tickets[k].id == g.winners[i].ticket.value;
      assert n.tickets[k] == g.tickets[k];
    }
  }

  /** A new ticket for a participant keeps the invariant. */
  lemma GrantKeeps(g: Giveaway, holder: int, source: Source, invitee: Option<int>, now: int)
    requires Inv(g.(participants := g.participants - {holder})) || Inv(g)
    requires holder in g.participants && g.status != Draft
    requires forall p :: p in g.participants && p != holder ==> Granted(g, p, Join, None)
    requires Granted(g, holder, Join, None) || (source == Join && invitee == None)
    requires source == Join ==> invitee == None
    requires source != Join ==> g.config.dynamic && invitee.Some?
    ensures Inv(WithTicket(g, holder, source, invitee, now))
  {
    var n := WithTicket(g, holder, source, invitee, now);
    if n != g && g.status == Drawn {
      var h := g.(participants := g.participants - {holder});
      WinnersStayValid(if Inv(g) then g else h, n, n.tickets[|g.tickets|]);
    }
    forall p | p in n.participants ensures Granted(n, p, Join, None) {
      if Granted(g, p, Join, None) {
        var i :| 0 <= i < |g.tickets| && g.tickets[i].holder == p && g.tickets[i].source == Join
            && g.tickets[i].invitee == None;
        assert n.tickets[i] == g.tickets[i];
      } else {
        assert n.tickets[|g.tickets|].holder == p;
      }
    }
  }

  lemma DrawKeeps(g: Giveaway, excluded: set<int>, ws: seq<Winner>)
    requires Inv(g) && Draws(g, excluded, ws) && g.status != Draft
    ensures Inv(g.(status := Drawn, winners := ws))
  {
    var n := g.(status := Drawn, winners := ws);
    forall p | p in n.participants ensures Granted(n, p, Join, None) {
      assert Granted(g, p, Join, None);
    }
    forall i | 0 <= i < |ws| ensures ws[i].tg in g.participants {
      assert ws[i].tg in Holders(g.tickets, excluded);
    }
  }

  lemma NextKeepsInv(g: Giveaway, op: Op, n: Giveaway)
    requires Inv(g) && Next(g, op, n)
    ensures Inv(n)
  {
    match op
    case Update(texts, config, count, starts, ends) => SameTickets(g, n);
    case Activate => SameTickets(g, n);
    case Close => SameTickets(g, n);
    case JoinIn(tg, now, ok) =>
      if JoinedBy(g, tg, now, ok).1 == Joined {
        var h := g.(participants := g.participants + {tg});
        assert h.(participants := h.participants - {tg}) == g;
        forall p | p in h.participants && p != tg ensures Granted(h, p, Join, None) {
          assert Granted(g, p, Join, None);
        }
        GrantKeeps(h, tg, Join, None, now);
      }
    case Invite(referrer, invitee, source, now) =>
      if n != g {
        GrantKeeps(g, referrer, source, Some(invitee), now);
      }
    case Draw => if n != g { DrawKeeps(g, {}, n.winners); }
    case Redraw =>
      if n != g {
        DrawKeeps(g, WinnerTgs(g.winners), n.winners);
        assert n == g.(status := Drawn, winners := n.winners);
      }
  }

  /** Whoever has joined, just now or before, holds at least one ticket, and exactly one of a static
      giveaway. */
  lemma JoinedHoldsTickets(g: Giveaway, tg: int, now: int, channelSubOk: bool)
    requires Inv(g)
    ensures var (n, reason) := JoinedBy(g, tg, now, channelSubOk);
            reason == Joined || reason == AlreadyJoined ==>
              && tg in n.participants && TicketCount(n, tg) >= 1
              && (!n.config.dynamic ==> TicketCount(n, tg) == 1)
  {
    var (n, reason) := JoinedBy(g, tg, now, channelSubOk);
    if reason == Joined || reason == AlreadyJoined {
      NextKeepsInv(g, JoinIn(tg, now, channelSubOk), n);
      assert Granted(n, tg, Join, None);
      var i :| 0 <= i < |n.tickets| && n.tickets[i].holder == tg;
      OwnedOfOne(n.tickets, tg, i);
      if !n.config.dynamic {
        forall j, k | 0 <= j < k < |n.tickets| && n.tickets[j].holder == tg ensures n.tickets[k].holder != tg {
          assert !SameGrant(n.tickets[j], n.tickets[k]);
        }
      }
    }
  }

  /** Whoever holds a ticket is counted, once if there is no other. */
  lemma {:induction false} OwnedOfOne(ts: seq<Ticket>, tg: int, i: nat)
    requires i < |ts| && ts[i].holder == tg
    ensures |Owned(ts, tg)| >= 1
    ensures (forall j, k :: 0 <= j < k < |ts| && ts[j].holder == tg ==> ts[k].holder != tg) ==> |Owned(ts, tg)| == 1
  {
    if i > 0 {
      OwnedOfOne(ts[1..], tg, i - 1);
    } else if forall k :: 1 <= k < |ts| ==> ts[k].holder != tg {
      OwnedOfNone(ts[1..], tg);
    }
  }

  lemma {:induction false} OwnedOfNone(ts: seq<Ticket>, tg: int)
    requires forall k :: 0 <= k < |ts| ==> ts[k].holder != tg
    ensures Owned(ts, tg) == []
  {
    if ts != [] {
      OwnedOfNone(ts[1..], tg);
    }
  }

  lemma SameTickets(g: Giveaway, n: Giveaway)
    requires n.tickets == g.tickets && n.participants == g.participants
    ensures forall p :: Granted(g, p, Join, None) <==> Granted(n, p, Join, None)
  {
  }

  ghost predicate Run(states: seq<Giveaway>, ops: seq<Op>) {
    |states| == |ops| + 1 && forall i :: 0 <= i < |ops| ==> Next(states[i], ops[i], states[i + 1])
  }

  /** Over any run: the invariant holds throughout, the rules of a giveaway that has left the draft
      never change, and once it is closed neither do its tickets and participants. */
  lemma {:induction false} WholeRun(states: seq<Giveaway>, ops: seq<Op>, from: nat, n: nat)
    requires Run(states, ops) && Inv(states[0]) && from <= n <= |ops|
    ensures Inv(states[n])
    ensures states[from].status != Draft ==>
              && states[n].status != Draft && states[n].config == states[from].config
              && states[n].winnerCount == states[from].winnerCount
    ensures states[from].status == Closed || states[from].status == Drawn ==>
              && (states[n].status == Closed || states[n].status == Drawn)
              && states[n].tickets == states[from].tickets && states[n].participants == states[from].participants
  {
    if n > 0 {
      WholeRun(states, ops, if from < n then from else 0, n - 1);
      NextKeepsInv(states[n - 1], ops[n - 1], states[n]);
    }
  }

  // ---- what the invariant means ----

  /** A participant of a static giveaway holds one ticket, of a dynamic one at least one. */
  lemma TicketsPerParticipant(g: Giveaway, p: int)
    requires Inv(g) && p in g.participants
    ensures exists i :: 0 <= i < |g.tickets| && g.tickets[i].holder == p
    ensures !g.config.dynamic ==>
              forall i, j :: (0 <= i < |g.tickets| && 0 <= j < |g.tickets| && g.tickets[i].holder == p
                              && g.tickets[j].holder == p) ==> i == j
  {
    assert Granted(g, p, Join, None);
    if !g.config.dynamic {
      forall i, j | 0 <= i < j < |g.tickets| && g.tickets[i].holder == p ensures g.tickets[j].holder != p {
        assert !SameGrant(g.tickets[i], g.tickets[j]);
      }
    }
  }

  // ---- numbers reported at the draw and later ----

  datatype Line = Line(rank: nat, tg: int, tickets: nat, number: Option<nat>)

  /** The ticket shown for a winner: the winning one, else the first of its own. */
  function ShownTicket(inv: seq<Ticket>, w: Winner): Option<nat> {
    if w.ticket.Some? then w.ticket else if Owned(inv, w.tg) != [] then Some(Owned(inv, w.tg)[0]) else None
  }

  function LineOf(inv: seq<Ticket>, w: Winner): Line {
    Line(w.rank, w.tg, w.tickets,
         match ShownTicket(inv, w) case Some(id) => NumberOf(inv, id) case None => None)
  }

  /** What `draw_winners` returns and `get_winners` reads back. */
  function Report(g: Giveaway): seq<Line> {
    seq(|g.winners|, i requires 0 <= i < |g.winners| => LineOf(Inventory(g.tickets), g.winners[i]))
  }

  /** Until a redraw, every later report equals the one made at the draw. */
  lemma {:induction false} ReportsAgree(states: seq<Giveaway>, ops: seq<Op>, drawn: nat, n: nat)
    requires Run(states, ops) && drawn <= n <= |ops| && states[drawn].status == Drawn
    requires forall i :: drawn <= i < n ==> ops[i] != Redraw
    ensures states[n] == states[drawn] && Report(states[n]) == Report(states[drawn])
  {
    if drawn < n {
      ReportsAgree(states, ops, drawn, n - 1);
      assert ops[n - 1] != Redraw && Next(states[n - 1], ops[n - 1], states[n]);
    }
  }

  /** A redraw that succeeds fills every place with participants of whom none won before. */
  lemma RedrawIsDisjoint(g: Giveaway, n: Giveaway)
    requires Inv(g) && Next(g, Redraw, n) && n != g
    ensures |n.winners| == g.winnerCount && n.tickets == g.tickets
    ensures forall i, j :: 0 <= i < |n.winners| && 0 <= j < |g.winners| ==> n.winners[i].tg != g.winners[j].tg
  {
    forall i, j | 0 <= i < |n.winners| && 0 <= j < |g.winners| ensures n.winners[i].tg != g.winners[j].tg {
      assert n.winners[i].tg in Holders(g.tickets, WinnerTgs(g.winners));
      assert g.winners[j].tg in WinnerTgs(g.winners);
    }
  }

  /** Every ticket has a number between one and the ticket count, and no two share one. */
  lemma {:induction false} NumbersAreDistinct(ts: seq<Ticket>, i: nat)
    requires forall a, b :: 0 <= a < b < |ts| ==> ts[a].id != ts[b].id
    requires i < |ts|
    ensures NumberOf(ts, ts[i].id) == Some(i + 1)
  {
    if i > 0 {
      NumbersAreDistinct(ts[1..], i - 1);
      assert ts[1..][i - 1] == ts[i];
    }
  }
}
