/** Paid delivery: `deliver_android_paid` and the retries of one order. */
module Delivery {
  import opened Wrappers
  import opened Ownership
  import opened AccountStore
  import opened Markers
  import opened Panel
  import opened Provisioning
  import Renewal
  import Usernames

  const MAX_USERNAME_ATTEMPTS: nat := 100
  const MAX_DELIVERY_ATTEMPTS: nat := 3

  datatype OrderStatus = PendingOrder | Confirmed | OtherStatus

  datatype Tx = Tx(deliveryStatus: int, orderStatus: OrderStatus, target: Option<RwId>, error: Option<Reason>)

  /** The `transactions` table. */
  class Orders {
    var txs: map<string, Tx>

    /** `_update_delivery_status`. */
    method UpdateDeliveryStatus(tx: string, status: int, error: Option<Reason>, pending: bool)
      modifies this
      ensures txs == if tx !in old(txs) then old(txs)
                     else old(txs)[tx := Tx(status,
                                            if pending then PendingOrder
                                            else if status == 1 then Confirmed else old(txs)[tx].orderStatus,
                                            old(txs)[tx].target, error)]
    {
      if tx in txs {
        var row := txs[tx].(deliveryStatus := status, error := error);
        if pending {
          row := row.(orderStatus := PendingOrder);
        } else if status == 1 {
          row := row.(orderStatus := Confirmed);
        }
        txs := txs[tx := row];
      }
    }

    /** UPDATE transactions SET target_rw_id = rw, delivery_error = NULL. */
    method SetTarget(tx: string, rw: RwId)
      modifies this
      ensures tx !in old(txs) ==> txs == old(txs)
      ensures tx in old(txs) ==> txs == old(txs)[tx := old(txs)[tx].(target := Some(rw), error := None)]
    {
      if tx in txs {
        txs := txs[tx := txs[tx].(target := Some(rw), error := None)];
      }
    }
  }

  // ---- the account side ----

  /** The unique index on `users.rw_id`. */
  predicate ProjectionsUnique(db: Db) {
    forall u, v | u in db.accounts && v in db.accounts ::
      db.accounts[u].rw.Some? && db.accounts[u].rw == db.accounts[v].rw ==> u == v
  }

  /** What others may do to the account tables meanwhile: anything that leaves the buyer's row and
      links alone and moves no existing link. */
  predicate AccountsRely(user: UserId, before: Db, after: Db) {
    && ProjectionsUnique(after)
    && (user in before.accounts <==> user in after.accounts)
    && (user in before.accounts ==> after.accounts[user] == before.accounts[user])
    && (forall rw | rw in before.links :: rw in after.links && after.links[rw].user == before.links[rw].user)
    && (forall rw | rw in before.links :: before.links[rw].user == user ==> after.links[rw] == before.links[rw])
    && (forall rw | rw in after.links :: after.links[rw].user == user ==> rw in before.links)
  }

  lemma RelyKeepsLinks(user: UserId, a: Db, b: Db)
    requires AccountsRely(user, a, b)
    ensures LinksOf(b, user) == LinksOf(a, user)
  {
    forall rw ensures rw in LinksOf(b, user) <==> rw in LinksOf(a, user) {
      assert rw in a.links ==> rw in b.links;
    }
  }

  /** No existing link changes its owner, and the buyer gains at most `rw`. */
  ghost predicate NoLinkMoved(user: UserId, before: Db, after: Db, rw: Option<RwId>) {
    && (forall r :: r in before.links ==> r in after.links && after.links[r].user == before.links[r].user)
    && (forall r :: r in after.links && after.links[r].user == user ==> r in before.links || rw == Some(r))
  }

  method ForeignAccounts(store: AccountStore, user: UserId, faulty: bool)
    requires ProjectionsUnique(store.Snapshot())
    modifies store
    ensures AccountsRely(user, old(store.Snapshot()), store.Snapshot())
    ensures !faulty ==> store.Snapshot() == old(store.Snapshot())
  {
    if faulty {
      var accounts: map<UserId, Account>, links: map<RwId, Link>, next: nat := *, *, *;
      var now := store.Snapshot();
      if AccountsRely(user, now, now.(accounts := accounts, links := links, nextId := next)) {
        store.accounts, store.links, store.nextId := accounts, links, next;
      }
    }
  }

  /** Another session may also link the profile to the buyer, between the reads and the insert. */
  method ForeignLink(store: AccountStore, user: UserId, rw: RwId, faulty: bool)
    requires user in store.accounts && ProjectionsUnique(store.Snapshot())
    modifies store
    ensures user in store.accounts && ProjectionsUnique(store.Snapshot())
    ensures store.Snapshot() == old(store.Snapshot())
            || (faulty && OwnedBy(store.Snapshot(), rw, user)
                && NoLinkMoved(user, old(store.Snapshot()), store.Snapshot(), Some(rw)))
  {
    if faulty && rw !in store.links {
      var accounts: map<UserId, Account>, links: map<RwId, Link>, next: nat := *, *, *;
      var now := store.Snapshot();
      var after := now.(accounts := accounts, links := links, nextId := next);
      if user in accounts && ProjectionsUnique(after) && OwnedBy(after, rw, user)
         && (forall r :: r in now.links ==> r in links && links[r].user == now.links[r].user)
         && (forall r :: r in links && links[r].user == user ==> r in now.links || r == rw) {
        store.accounts, store.links, store.nextId := accounts, links, next;
      }
    }
  }

  datatype Action = CreatedAction | Recovered | Existing

  /** `_subscription_owner`. */
  method SubscriptionOwner(store: AccountStore, rw: RwId) returns (owner: Option<UserId>)
    ensures rw in store.links ==> owner == Some(store.links[rw].user)
    ensures rw !in store.links && owner.Some? ==>
              owner.value in store.accounts && store.accounts[owner.value].rw == Some(rw)
    ensures rw !in store.links && owner.None? ==> forall u :: u in store.accounts ==> store.accounts[u].rw != Some(rw)
  {
    if rw in store.links {
      return Some(store.links[rw].user);
    }
    if u :| u in store.accounts && store.accounts[u].rw == Some(rw) {
      return Some(u);
    }
    return None;
  }

  /** `_attach_subscription`. Between its reads and its INSERT another session may link the profile,
      to somebody else or to the buyer, which shows as an integrity error. */
  method AttachSubscription(orders: Orders, store: AccountStore, o: Order, rw: RwId, faulty: bool)
    returns (r: Option<Action>)
    requires o.user in store.accounts && ProjectionsUnique(store.Snapshot())
    modifies orders, store
    ensures o.user in store.accounts && ProjectionsUnique(store.Snapshot())
    ensures NoLinkMoved(o.user, old(store.Snapshot()), store.Snapshot(), if r.Some? then Some(rw) else None)
    ensures r.Some? ==> OwnedBy(store.Snapshot(), rw, o.user)
    ensures r.Some? ==>
              orders.txs == if o.tx in old(orders.txs)
                            then old(orders.txs)[o.tx := old(orders.txs)[o.tx].(target := Some(rw), error := None)]
                            else old(orders.txs)
    ensures r.None? ==> orders.txs == old(orders.txs)
                        && LinksOf(store.Snapshot(), o.user) == LinksOf(old(store.Snapshot()), o.user)
                        && store.accounts[o.user] == old(store.accounts)[o.user]
    ensures !faulty ==>
              match DeliveryAttached(old(store.Snapshot()), o.user, rw)
              case Ok(after) => && store.Snapshot() == after
                                && r == Some(if OwnedBy(old(store.Snapshot()), rw, o.user) then Existing else Recovered)
              case Err(_) => r.None? && store.Snapshot() == old(store.Snapshot())
  {
    ghost var before := store.Snapshot();
    ForeignAccounts(store, o.user, faulty);
    RelyKeepsLinks(o.user, before, store.Snapshot());
    var seen := store.Snapshot();
    if OwnedByOther(seen, rw, o.user) {
      return None;
    }
    if OwnedBy(seen, rw, o.user) {
      orders.SetTarget(o.tx, rw);
      return Some(Existing);
    }
    if ProjectedByOther(seen, rw, o.user) {
      return None;
    }
    var first := LinksOf(seen, o.user) == {};
    ForeignAccounts(store, o.user, faulty);
    RelyKeepsLinks(o.user, seen, store.Snapshot());
    ghost var then_ := store.Snapshot();
    ForeignLink(store, o.user, rw, faulty);
    if rw in store.links || (first && ProjectedByOther(store.Snapshot(), rw, o.user)) {
      // IntegrityError: the transaction is rolled back and the owner read again
      var owner := SubscriptionOwner(store, rw);
      if owner != Some(o.user) {
        return None;
      }
      orders.SetTarget(o.tx, rw);
      return Some(Existing);
    }
    store.links := store.links[rw := Link(store.nextId, o.user, first)];
    store.nextId := store.nextId + 1;
    if first {
      store.accounts := store.accounts[o.user := store.accounts[o.user].(rw := Some(rw))];
    }
    orders.SetTarget(o.tx, rw);
    return Some(Recovered);
  }

  // ---- the renewal of an existing profile ----

  datatype Scenario = Extend | Update

  /** `resolve_scenario` for a paid order. */
  function ScenarioOf(info: Info): Scenario {
    if info.active && !info.limited then Extend else Update
  }

  /** The text that accompanies the delivery marker. */
  function BaseDescription(o: Order, info: Info): string {
    if o.hasTarget then o.description
    else o.source + (if ScenarioOf(info).Extend? then " paid extend" else " paid update")
  }

  /** The day count of the request: what is left is kept when a paid profile is extended. */
  function RequestedDays(o: Order, info: Info, now: real): int {
    if ScenarioOf(info).Extend? then Renewal.DaysLeft(info.expire, now) + o.days else o.days
  }

  /** The limit of the request: an update lifts it unless the order sets one. */
  function RequestedLimit(o: Order, info: Info): Option<nat> {
    if ScenarioOf(info).Extend? || o.trafficLimit.Some? then o.trafficLimit else Some(0)
  }

  function AlreadyDelivered(o: Order, info: Info): bool {
    Contains(info.description, ProvisioningMarker(o.tx)) || Contains(info.description, DeliveryMarker(o.tx))
  }

  /** The panel after renewing `id` for the order, from what was read of it at `now`. */
  function RenewedFor(o: Order, v: View, id: RwId, info: Info, now: real, written: real): View
    requires id in v.profiles
  {
    Renewed(v, id, info.username, DeliveryDescription(o.tx, BaseDescription(o, info)),
            UpdatedExpiry(RequestedDays(o, info, now), written), RequestedLimit(o, info))
  }

  /** The request of an attempt, sent again at the same instant as it was built, changes no profile. */
  lemma ReplayChangesNothing(o: Order, v: View, id: RwId, info: Info, now: real, written: real)
    requires id in v.profiles
    ensures var once := RenewedFor(o, v, id, info, now, written);
            RenewedFor(o, once, id, info, now, written).profiles == once.profiles
  {
    WritingAgainChangesNothing(v, id, info.username, DeliveryDescription(o.tx, BaseDescription(o, info)),
                               UpdatedExpiry(RequestedDays(o, info, now), written), RequestedLimit(o, info));
  }

  /** Whether the write is seen to have happened. */
  method ConfirmRenewal(panel: Panel, o: Order, names: seq<string>, rw: RwId)
    returns (r: Read, seen: bool)
    requires Wf(panel.ViewOf(o.tx))
    modifies panel`profiles, panel`nextId, panel`clock
    ensures Rely(o, names, old(panel.ViewOf(o.tx)), panel.ViewOf(o.tx))
    ensures seen ==> rw in panel.profiles && Marked(o, panel.profiles[rw])
    ensures !panel.faulty ==> panel.ViewOf(o.tx) == old(panel.ViewOf(o.tx))
  {
    r := panel.ReadById(o, names, rw);
    seen := r.Got? && r.info.Some? && Contains(r.info.value.description, DeliveryMarker(o.tx));
  }

  /** The extend or update request and the recovery from its failure. The buyer owns the profile
      before anything is written; the days are granted at most once, and to no other profile. */
  method Renew(panel: Panel, store: AccountStore, o: Order, names: seq<string>, rw: RwId, info: Info)
    returns (failure: Option<(Reason, bool)>)
    requires OwnedBy(store.Snapshot(), rw, o.user)
    requires Wf(panel.ViewOf(o.tx)) && Untouched(o, panel.ViewOf(o.tx))
    modifies panel
    ensures Wf(panel.ViewOf(o.tx)) && Grows(old(panel.ViewOf(o.tx)), panel.ViewOf(o.tx))
    ensures Untouched(o, panel.ViewOf(o.tx)) || OnlyMarked(o, panel.ViewOf(o.tx), rw)
    ensures failure.None? ==> OnlyMarked(o, panel.ViewOf(o.tx), rw)
    ensures failure.Some? ==>
              failure.value.0.VerificationFailed? || failure.value.0.ApplyError? || failure.value.0.ReturnedNone?
    ensures !panel.faulty && rw in old(panel.profiles) && info == InfoOf(rw, old(panel.profiles)[rw]) ==>
              && failure.None?
              && panel.ViewOf(o.tx)
                   == RenewedFor(o, old(panel.ViewOf(o.tx)), rw, info, old(panel.clock), old(panel.clock))
  {
    ghost var v0 := panel.ViewOf(o.tx);
    var days := RequestedDays(o, info, panel.clock);
    var description := DeliveryDescription(o.tx, BaseDescription(o, info));
    DeliveryCarries(o.tx, BaseDescription(o, info));
    var w, mid, took := panel.Update(o, names, rw, info.username, description, days, RequestedLimit(o, info));
    ghost var v1 := panel.ViewOf(o.tx);
    RelyKeepsUntouched(o, names, v0, mid);
    if took {
      RenewalMarksOnly(o, mid, rw, info.username, description, UpdatedExpiry(days, panel.clock),
          RequestedLimit(o, info));
    }
    if w.Replied? && w.info.Some? {
      return None;
    }
    var r, seen := ConfirmRenewal(panel, o, names, rw);
    if took {
      RelyKeepsOnlyMarked(o, names, v1, panel.ViewOf(o.tx), rw);
    } else {
      RelyKeepsUntouched(o, names, v1, panel.ViewOf(o.tx));
    }
    if seen {
      return None;
    }
    if w.Raised? {
      if r.ReadFailed? {
        return Some((VerificationFailed, w.retryable || r.retryable));
      }
      return Some((ApplyError, w.retryable));
    }
    return Some((ReturnedNone, true));
  }

  lemma RenewalMarksOnly(o: Order, v: View, id: RwId, username: string, description: string,
                         expire: Option<real>, sent: Option<nat>)
    requires Wf(v) && Untouched(o, v) && id in v.profiles && Contains(description, DeliveryMarker(o.tx))
    requires username == "" || !Used(v.profiles - {id}, username)
    ensures var after := Renewed(v, id, username, description, expire, sent);
            Wf(after) && OnlyMarked(o, after, id)
  {
    var after := Renewed(v, id, username, description, expire, sent);
    forall a, b | a in after.profiles && b in after.profiles && after.profiles[a].username == after.profiles[b].username
      ensures a == b
    {
      assert a != id ==> a in v.profiles - {id};
      assert b != id ==> b in v.profiles - {id};
    }
  }

  // ---- one attempt ----

  datatype Outcome =
    | PendingResult(reason: Reason, retryable: bool)
    | Success(rw: RwId, scenario: Scenario, username: string, action: Action)

  function NullableText(texts: map<TextField, string>, f: TextField): Option<string> {
    if f in texts then Some(texts[f]) else None
  }

  /** The Telegram name of the request, else the stored one. */
  function EffectiveName(o: Order, a: Account): Option<string> {
    if o.tgUsername.Some? then o.tgUsername else NullableText(a.texts, Username)
  }

  function NameAt(o: Order, a: Account, ordinal: nat): string {
    var r := Usernames.Build(EffectiveName(o, a), o.user, ordinal);
    if r.Ok? then r.value else ""
  }

  /** The candidate usernames of one attempt: a hundred ordinals from the number of links. */
  function CandidateNames(o: Order, db: Db): seq<string> {
    if o.user !in db.accounts then []
    else seq(MAX_USERNAME_ATTEMPTS, i requires 0 <= i < MAX_USERNAME_ATTEMPTS =>
               NameAt(o, db.accounts[o.user], |LinksOf(db, o.user)| + i))
  }

  /** 64-bit account ids and 32-bit link counts, as in the schema. */
  predicate InRange(o: Order, db: Db) {
    0 <= o.user < 0x8000_0000_0000_0000 && |LinksOf(db, o.user)| + MAX_USERNAME_ATTEMPTS <= 0x8000_0000
  }

  /** In that range no candidate is refused. */
  lemma CandidatesAreBuilt(o: Order, db: Db, i: nat)
    requires InRange(o, db) && o.user in db.accounts && i < MAX_USERNAME_ATTEMPTS
    ensures Usernames.Build(EffectiveName(o, db.accounts[o.user]), o.user, |LinksOf(db, o.user)| + i)
            == Ok(CandidateNames(o, db)[i])
  {
    var name, ordinal := EffectiveName(o, db.accounts[o.user]), |LinksOf(db, o.user)| + i;
    Usernames.BuildAccepts(name, o.user, ordinal);
    assert CandidateNames(o, db)[i] == NameAt(o, db.accounts[o.user], ordinal);
  }

  function Description(o: Order, a: Account): string {
    ProvisioningDescription(o.tx, o.user, if o.tgId.Some? then o.tgId else a.tgId, o.source, EffectiveName(o, a),
                            o.description)
  }

  ghost predicate Missing(v: View, target: Option<RwId>) {
    target.None? || target.value !in v.profiles
  }

  /** What holds before and after every attempt at the order: nothing was delivered yet, or its
      days went once to the one profile that carries its marker, and the next attempt will come
      back to that profile, by the recorded target or by the scan. */
  ghost predicate Safe(o: Order, names: seq<string>, v: View, target: Option<RwId>) {
    && (target.Some? ==> target.value < v.nextId)
    && (|| Untouched(o, v)
        || (&& |v.granted| == 1 && OnlyMarked(o, v, v.granted[0])
            && (target == Some(v.granted[0]) || (Missing(v, target) && Recoverable(o, names, v, 0)))))
  }

  lemma RelyKeepsSafe(o: Order, names: seq<string>, a: View, b: View, target: Option<RwId>)
    requires Safe(o, names, a, target) && Rely(o, names, a, b)
    ensures Safe(o, names, b, target)
  {
    if Untouched(o, a) {
      RelyKeepsUntouched(o, names, a, b);
    } else {
      RelyKeepsOnlyMarked(o, names, a, b, a.granted[0]);
      if target != Some(a.granted[0]) { RelyKeepsRecoverable(o, names, a, b, 0); }
    }
  }

  /** The profile an attempt settled on, before it is attached. */
  ghost predicate Located(o: Order, names: seq<string>, v: View, target: Option<RwId>, info: Info, created: bool) {
    && Safe(o, names, v, target)
    && (info.rw.Some? ==> info.rw.value < v.nextId)
    && if created || AlreadyDelivered(o, info)
       then |v.granted| == 1 && OnlyMarked(o, v, v.granted[0]) && (info.rw.None? || info.rw.value == v.granted[0])
       else Untouched(o, v) && target.Some? && info.rw == target
  }

  datatype Location = At(info: Info, created: bool) | Nowhere(reason: Reason, retryable: bool)

  /** The stored target, or the profile that the loop finds or creates. */
  method Locate(panel: Panel, o: Order, names: seq<string>, target: Option<RwId>, description: string)
    returns (r: Location)
    requires Wf(panel.ViewOf(o.tx)) && Contains(description, ProvisioningMarker(o.tx))
    requires Safe(o, names, panel.ViewOf(o.tx), target)
    modifies panel
    ensures Wf(panel.ViewOf(o.tx)) && panel.clock >= old(panel.clock)
    ensures Safe(o, names, panel.ViewOf(o.tx), target)
    ensures Grows(old(panel.ViewOf(o.tx)), panel.ViewOf(o.tx))
              && GrantsNewOnly(old(panel.ViewOf(o.tx)), panel.ViewOf(o.tx))
    ensures r.At? ==> Located(o, names, panel.ViewOf(o.tx), target, r.info, r.created)
    ensures !panel.faulty && target.Some? && target.value in old(panel.profiles) ==>
              && panel.ViewOf(o.tx) == old(panel.ViewOf(o.tx)) && panel.clock == old(panel.clock)
              && r == At(InfoOf(target.value, panel.profiles[target.value]), false)
    ensures !panel.faulty && Missing(old(panel.ViewOf(o.tx)), target) ==>
              FaultFreeProvision(o, names, description, old(panel.ViewOf(o.tx)), old(panel.clock), panel.ViewOf(o.tx),
                                 match r case At(info, created) => if created then CreatedNow(info) else Adopted(info)
                                         case Nowhere(reason, retryable) => Stop(reason, retryable))
  {
    ghost var v0 := panel.ViewOf(o.tx);
    if target.Some? {
      var read := panel.ReadById(o, names, target.value);
      RelyKeepsSafe(o, names, v0, panel.ViewOf(o.tx), target);
      if read.ReadFailed? {
        return Nowhere(ReadError, read.retryable);
      }
      if read.info.Some? {
        return At(read.info.value, false);
      }
    }
    ghost var v1 := panel.ViewOf(o.tx);
    assert Recoverable(o, names, v1, 0);
    var p := FindOrCreate(panel, o, names, description);
    match p
    case Adopted(info) => return At(info, false);
    case CreatedNow(info) => return At(info, true);
    case Stop(reason, retryable) => return Nowhere(reason, retryable);
  }

  predicate BadTarget(o: Order) { |o.squads| == 0 || o.externalSquad == "" }

  function SuccessFor(rw: RwId, info: Info, action: Action): Outcome {
    Success(rw, ScenarioOf(info), info.username, action)
  }

  /** Nothing but the row of the order changed, if it has one, and its target stayed. */
  ghost predicate OnlyRow(tx: string, txs: map<string, Tx>, txs': map<string, Tx>) {
    && txs'.Keys == txs.Keys && (tx in txs ==> txs'[tx].target == txs[tx].target)
    && forall t :: t in txs && t != tx ==> txs'[t] == txs[t]
  }

  /** The row of an order with this target, if it has one. */
  ghost predicate TargetIs(txs: map<string, Tx>, tx: string, target: Option<RwId>) {
    tx in txs ==> txs[tx].target == target
  }

  /** How the row of an order, if it has one, records the result of an attempt. */
  ghost predicate Recorded(txs: map<string, Tx>, tx: string, r: Outcome) {
    tx in txs ==>
      match r
      case Success(rw, _, _, _) => txs[tx] == Tx(1, Confirmed, Some(rw), None)
      case PendingResult(reason, _) => txs[tx] == Tx(0, PendingOrder, txs[tx].target, Some(reason))
  }

  /** The target to pass to the next attempt: what success settled on, else the same as before. */
  function NextTarget(target: Option<RwId>, r: Outcome): Option<RwId> {
    if r.Success? then Some(r.rw) else target
  }

  /** Renew the attached profile unless the order was delivered already, and settle the order. */
  method Finish(panel: Panel, orders: Orders, store: AccountStore, o: Order, names: seq<string>, rw: RwId, info: Info,
                created: bool, action: Action)
    returns (r: Outcome)
    requires TargetIs(orders.txs, o.tx, Some(rw)) && OwnedBy(store.Snapshot(), rw, o.user)
    requires Wf(panel.ViewOf(o.tx))
    requires if created || AlreadyDelivered(o, info) then OnlyMarked(o, panel.ViewOf(o.tx), rw)
             else Untouched(o, panel.ViewOf(o.tx))
    modifies panel, orders
    ensures Wf(panel.ViewOf(o.tx)) && Grows(old(panel.ViewOf(o.tx)), panel.ViewOf(o.tx))
    ensures Untouched(o, panel.ViewOf(o.tx)) || OnlyMarked(o, panel.ViewOf(o.tx), rw)
    ensures OnlyRow(o.tx, old(orders.txs), orders.txs) && Recorded(orders.txs, o.tx, r)
    ensures r.Success? ==> r.rw == rw && OnlyMarked(o, panel.ViewOf(o.tx), rw)
    ensures r.PendingResult? ==> r.reason != TargetOwnerConflict && !created && !AlreadyDelivered(o, info)
    ensures !panel.faulty && rw in old(panel.profiles)
            && (created || AlreadyDelivered(o, info) || info == InfoOf(rw, old(panel.profiles)[rw])) ==>
              && r == SuccessFor(rw, info, action)
              && panel.ViewOf(o.tx) == (if created || AlreadyDelivered(o, info) then old(panel.ViewOf(o.tx))
                                        else RenewedFor(o, old(panel.ViewOf(o.tx)), rw, info, old(panel.clock),
                                            old(panel.clock)))
  {
    if !created && !AlreadyDelivered(o, info) {
      var failure := Renew(panel, store, o, names, rw, info);
      if failure.Some? {
        orders.UpdateDeliveryStatus(o.tx, 0, Some(failure.value.0), true);
        return PendingResult(failure.value.0, failure.value.1);
      }
    }
    orders.UpdateDeliveryStatus(o.tx, 1, None, false);
    return SuccessFor(rw, info, action);
  }

  /** Attach the profile, renew it unless the order was delivered already, and settle the order. */
  method Settle(panel: Panel, orders: Orders, store: AccountStore, o: Order, names: seq<string>, info: Info,
                created: bool, ghost target: Option<RwId>)
    returns (r: Outcome)
    requires TargetIs(orders.txs, o.tx, target)
    requires o.user in store.accounts && ProjectionsUnique(store.Snapshot())
               && names == CandidateNames(o, store.Snapshot())
    requires Wf(panel.ViewOf(o.tx)) && Located(o, names, panel.ViewOf(o.tx), target, info, created)
    modifies panel, orders, store
    ensures Attempted(o, target, old(store.Snapshot()), old(orders.txs), old(panel.ViewOf(o.tx)),
                      panel.ViewOf(o.tx), store.Snapshot(), orders.txs, r)
    ensures !panel.faulty && info.rw.Some? && info.rw.value in old(panel.profiles)
            && (created || AlreadyDelivered(o, info)
                 || info == InfoOf(info.rw.value, old(panel.profiles)[info.rw.value])) ==>
              FaultFreeSettle(o, info.rw.value, info, created, old(store.Snapshot()), old(panel.ViewOf(o.tx)),
                  old(panel.clock),
                              store.Snapshot(), panel.ViewOf(o.tx), r)
  {
    ghost var db, txs, v := store.Snapshot(), orders.txs, panel.ViewOf(o.tx);
    if info.rw.None? {
      orders.UpdateDeliveryStatus(o.tx, 0, Some(MissingRwId), true);
      StoppedIsAttempted(o, target, db, txs, v, v, db, orders.txs, PendingResult(MissingRwId, false));
      return PendingResult(MissingRwId, false);
    }
    var rw := info.rw.value;
    var attached := AttachSubscription(orders, store, o, rw, panel.faulty);
    if attached.None? {
      orders.UpdateDeliveryStatus(o.tx, 0, Some(TargetOwnerConflict), true);
      StoppedIsAttempted(o, target, db, txs, v, v, store.Snapshot(), orders.txs,
          PendingResult(TargetOwnerConflict, false));
      return PendingResult(TargetOwnerConflict, false);
    }
    ghost var txs1 := orders.txs;
    r := Finish(panel, orders, store, o, names, rw, info, created, if created then CreatedAction else attached.value);
    FinishedIsAttempted(o, target, db, txs, v, store.Snapshot(), txs1, panel.ViewOf(o.tx), orders.txs, rw, r);
  }

  /** An attempt that ends without attaching anything leaves the order as safe as it was. */
  lemma StoppedIsAttempted(o: Order, target: Option<RwId>, db: Db, txs: map<string, Tx>, v: View, v': View, db': Db,
                           txs': map<string, Tx>, r: Outcome)
    requires OnlyRow(o.tx, txs, txs') && r.PendingResult? && Recorded(txs', o.tx, r) && TargetIs(txs, o.tx, target)
    requires Wf(v') && Grows(v, v') && GrantsNewOnly(v, v') && Safe(o, CandidateNames(o, db), v', target)
    requires ProjectionsUnique(db') && NoLinkMoved(o.user, db, db', None)
    requires LinksOf(db', o.user) == LinksOf(db, o.user)
    requires o.user in db.accounts && o.user in db'.accounts && db'.accounts[o.user] == db.accounts[o.user]
    ensures Attempted(o, target, db, txs, v, v', db', txs', r)
  {
    SameCandidates(o, db, db');
  }

  /** What was located before is part of the attempt. */
  lemma LocatedIsAttempted(o: Order, target: Option<RwId>, db: Db, txs: map<string, Tx>, v: View, mid: View, v': View,
                           db': Db, txs': map<string, Tx>, r: Outcome)
    requires Grows(v, mid) && GrantsNewOnly(v, mid) && Attempted(o, target, db, txs, mid, v', db', txs', r)
    ensures Attempted(o, target, db, txs, v, v', db', txs', r)
  {
    forall k | |v.granted| <= k < |v'.granted|
      ensures v'.granted[k] >= v.nextId || OwnedBy(db', v'.granted[k], o.user)
    {
      assert k < |mid.granted| ==> v'.granted[k] == mid.granted[k];
    }
  }

  /** A profile that is attached and the target needs no candidate name to be found again. */
  lemma FinishedIsAttempted(o: Order, target: Option<RwId>, db: Db, txs: map<string, Tx>, v: View, db': Db,
                            txs1: map<string, Tx>, v': View, txs': map<string, Tx>, rw: RwId, r: Outcome)
    requires txs1 == if o.tx in txs then txs[o.tx := txs[o.tx].(target := Some(rw), error := None)] else txs
    requires OnlyRow(o.tx, txs1, txs') && Recorded(txs', o.tx, r)
    requires ProjectionsUnique(db') && NoLinkMoved(o.user, db, db', Some(rw)) && OwnedBy(db', rw, o.user)
    requires Wf(v') && Grows(v, v') && rw < v.nextId && (Untouched(o, v') || OnlyMarked(o, v', rw))
    requires r.Success? ==> r.rw == rw && OnlyMarked(o, v', rw)
    requires r.PendingResult? ==> r.reason != TargetOwnerConflict && target == Some(rw)
    ensures Attempted(o, target, db, txs, v, v', db', txs', r)
  {
    assert NextTarget(target, r) == Some(rw);
  }

  lemma SameCandidates(o: Order, a: Db, b: Db)
    requires o.user in a.accounts && o.user in b.accounts && a.accounts[o.user] == b.accounts[o.user]
    requires LinksOf(a, o.user) == LinksOf(b, o.user)
    ensures CandidateNames(o, a) == CandidateNames(o, b)
  {
  }

  /** Days went only to profiles that were created in between or that the buyer owns. */
  ghost predicate WritesOwnOnly(user: UserId, v: View, v': View, db: Db) {
    forall k :: |v.granted| <= k < |v'.granted| ==> v'.granted[k] >= v.nextId || OwnedBy(db, v'.granted[k], user)
  }

  /** What every attempt guarantees: the order stays safe for the next attempt, which passes the same
      target unless this one succeeded; outcome and target are recorded, if the order has a row; success
      means that the buyer owns the profile and that its days were granted, once, to it; no link moves,
      no existing profile is written to that is not linked to the buyer, no other order is touched. */
  ghost predicate Attempted(o: Order, target: Option<RwId>, db: Db, txs: map<string, Tx>, v: View, v': View, db': Db,
                            txs': map<string, Tx>, r: Outcome) {
    && txs'.Keys == txs.Keys && (forall t :: t in txs && t != o.tx ==> txs'[t] == txs[t])
    && ProjectionsUnique(db') && Wf(v') && v.granted <= v'.granted && v.nextId <= v'.nextId
    && Safe(o, CandidateNames(o, db'), v', NextTarget(target, r))
    && NoLinkMoved(o.user, db, db', NextTarget(target, r)) && WritesOwnOnly(o.user, v, v', db')
    && Recorded(txs', o.tx, r) && TargetIs(txs', o.tx, NextTarget(target, r))
    && (r.Success? ==> OwnedBy(db', r.rw, o.user) && OnlyMarked(o, v', r.rw))
    && (r.PendingResult? && r.reason == TargetOwnerConflict ==> LinksOf(db', o.user) == LinksOf(db, o.user))
  }

  /** Without faults the profile is attached unless somebody else owns it, and renewed once. */
  ghost predicate FaultFreeSettle(o: Order, rw: RwId, info: Info, created: bool, db: Db, v: View, now: real, db': Db,
                                  v': View, r: Outcome)
  {
    match DeliveryAttached(db, o.user, rw)
    case Err(_) => db' == db && v' == v && r == PendingResult(TargetOwnerConflict, false)
    case Ok(after) =>
      && db' == after
      && v' == (if created || AlreadyDelivered(o, info) || rw !in v.profiles then v
                else RenewedFor(o, v, rw, info, now, now))
      && r == SuccessFor(rw, info, if created then CreatedAction
                                   else if OwnedBy(db, rw, o.user) then Existing else Recovered)
  }

  /** Everything an attempt may rely on: the target passed is the stored one, if the order has a row, the
      tables are in range, and the order is safe. */
  ghost predicate Ready(panel: Panel, orders: Orders, store: AccountStore, o: Order, target: Option<RwId>)
    reads panel, orders, store
  {
    && TargetIs(orders.txs, o.tx, target)
    && ProjectionsUnique(store.Snapshot()) && InRange(o, store.Snapshot()) && Wf(panel.ViewOf(o.tx))
    && Safe(o, CandidateNames(o, store.Snapshot()), panel.ViewOf(o.tx), target)
  }

  /** The checks that come before any panel call. */
  ghost predicate RefusedFor(o: Order, target: Option<RwId>, db: Db, reason: Reason) {
    if o.user !in db.accounts then reason == LocalUserNotFound
    else if BadTarget(o) then reason == BadTariff
    else
      && target.Some? && reason == TargetOwnerConflict
      && (OwnedByOther(db, target.value, o.user)
          || (target.value !in db.links && ProjectedByOther(db, target.value, o.user)))
  }

  method Check(store: AccountStore, o: Order, target: Option<RwId>) returns (refused: Option<Reason>)
    requires ProjectionsUnique(store.Snapshot())
    ensures refused.Some? ==> RefusedFor(o, target, store.Snapshot(), refused.value)
    ensures refused.None? ==> forall reason :: !RefusedFor(o, target, store.Snapshot(), reason)
  {
    if o.user !in store.accounts {
      return Some(LocalUserNotFound);
    }
    if BadTarget(o) {
      return Some(BadTariff);
    }
    if target.Some? {
      var owner := SubscriptionOwner(store, target.value);
      if owner.Some? && owner.value != o.user {
        return Some(TargetOwnerConflict);
      }
    }
    return None;
  }

  /** What an accepted order gets on a reliable panel. */
  ghost predicate FaultFreeAccepted(o: Order, target: Option<RwId>, db: Db, v: View, now: real, db': Db, v': View,
                                    r: Outcome)
    requires o.user in db.accounts
  {
    if target.Some? && target.value in v.profiles then
      FaultFreeSettle(o, target.value, InfoOf(target.value, v.profiles[target.value]), false, db, v, now, db', v', r)
    else
      match Scan(o, v.profiles, CandidateNames(o, db), 0)
      case Exhausted => db' == db && v' == v && r == PendingResult(AllocationFailed, false)
      case Adopt(id) => id in v.profiles
          && FaultFreeSettle(o, id, InfoOf(id, v.profiles[id]), false, db, v, now, db', v', r)
      case CreateAt(k) =>
        && k < |CandidateNames(o, db)|
        && v' == Created(v, CandidateNames(o, db)[k], Description(o, db.accounts[o.user]), CreatedExpiry(o.days, now),
             CreationLimit(o))
        && match DeliveryAttached(db, o.user, v.nextId)
           case Err(_) => db' == db && r == PendingResult(TargetOwnerConflict, false)
           case Ok(after) => db' == after && r.Success? && r.rw == v.nextId && r.action == CreatedAction
  }

  /** An attempt without faults, in full. */
  ghost predicate FaultFree(o: Order, target: Option<RwId>, db: Db, v: View, now: real, db': Db, v': View, r: Outcome) {
    if exists reason :: RefusedFor(o, target, db, reason) then
      db' == db && v' == v && r.PendingResult? && !r.retryable && RefusedFor(o, target, db, r.reason)
    else o.user in db.accounts && FaultFreeAccepted(o, target, db, v, now, db', v', r)
  }

  /** The two halves of a fault-free attempt fit together. */
  lemma FaultFreeHalves(o: Order, target: Option<RwId>, db: Db, v: View, now: real, mid: View, info: Info,
                        created: bool,
                        later: real, db': Db, v': View, r: Outcome)
    requires o.user in db.accounts
    requires info.rw.Some? && info.rw.value in mid.profiles
    requires FaultFreeSettle(o, info.rw.value, info, created, db, mid, later, db', v', r)
    requires if target.Some? && target.value in v.profiles
             then mid == v && later == now && !created && info == InfoOf(target.value, v.profiles[target.value])
             else FaultFreeProvision(o, CandidateNames(o, db), Description(o, db.accounts[o.user]), v, now, mid,
                                     if created then CreatedNow(info) else Adopted(info))
    ensures FaultFreeAccepted(o, target, db, v, now, db', v', r)
  {
    if !(target.Some? && target.value in v.profiles) && Scan(o, v.profiles, CandidateNames(o, db), 0).Adopt? {
      ScanAdoptsProvisioned(o, v.profiles, CandidateNames(o, db), 0);
    }
  }

  lemma {:induction false} ScanAdoptsProvisioned(o: Order, profiles: map<RwId, Profile>, names: seq<string>, i: nat)
    requires i <= |names| && Scan(o, profiles, names, i).Adopt?
    ensures Scan(o, profiles, names, i).id in profiles && Provisioned(o, profiles[Scan(o, profiles, names, i).id])
    decreases |names| - i
  {
    if !Provisioned(o, profiles[Holder(profiles, names[i])]) {
      ScanAdoptsProvisioned(o, profiles, names, i + 1);
    }
  }

  /** From the profile to the end. */
  method Provide(panel: Panel, orders: Orders, store: AccountStore, o: Order, target: Option<RwId>)
    returns (r: Outcome)
    requires Ready(panel, orders, store, o, target) && o.user in store.accounts
    modifies panel, orders, store
    ensures Attempted(o, target, old(store.Snapshot()), old(orders.txs), old(panel.ViewOf(o.tx)),
                      panel.ViewOf(o.tx), store.Snapshot(), orders.txs, r)
    ensures !panel.faulty ==>
              FaultFreeAccepted(o, target, old(store.Snapshot()), old(panel.ViewOf(o.tx)), old(panel.clock),
                                store.Snapshot(), panel.ViewOf(o.tx), r)
  {
    var account := store.accounts[o.user];
    var names := CandidateNames(o, store.Snapshot());
    var description := Description(o, account);
    ProvisioningCarries(o.tx, o.user, if o.tgId.Some? then o.tgId else account.tgId, o.source,
                        EffectiveName(o, account), o.description);
    ghost var db, txs, v, now := store.Snapshot(), orders.txs, panel.ViewOf(o.tx), panel.clock;
    var location := Locate(panel, o, names, target, description);
    ghost var mid, later := panel.ViewOf(o.tx), panel.clock;
    match location
    case Nowhere(reason, retryable) =>
      orders.UpdateDeliveryStatus(o.tx, 0, Some(reason), true);
      r := PendingResult(reason, retryable);
      StoppedIsAttempted(o, target, db, txs, v, mid, db, orders.txs, r);
    case At(info, created) =>
      r := Settle(panel, orders, store, o, names, info, created, target);
      LocatedIsAttempted(o, target, db, txs, v, mid, panel.ViewOf(o.tx), store.Snapshot(), orders.txs, r);
      if !panel.faulty {
        FaultFreeHalves(o, target, db, v, now, mid, info, created, later, store.Snapshot(), panel.ViewOf(o.tx), r);
      }
  }

  /** `deliver_android_paid`. */
  method Deliver(panel: Panel, orders: Orders, store: AccountStore, o: Order, target: Option<RwId>)
    returns (r: Outcome)
    requires Ready(panel, orders, store, o, target)
    modifies panel, orders, store
    ensures Attempted(o, target, old(store.Snapshot()), old(orders.txs), old(panel.ViewOf(o.tx)),
                      panel.ViewOf(o.tx), store.Snapshot(), orders.txs, r)
    ensures !panel.faulty ==>
              FaultFree(o, target, old(store.Snapshot()), old(panel.ViewOf(o.tx)), old(panel.clock),
                        store.Snapshot(), panel.ViewOf(o.tx), r)
  {
    var refused := Check(store, o, target);
    if refused.Some? {
      orders.UpdateDeliveryStatus(o.tx, 0, refused, true);
      return PendingResult(refused.value, false);
    }
    assert o.user in store.accounts by {
      assert !RefusedFor(o, target, store.Snapshot(), LocalUserNotFound);
    }
    r := Provide(panel, orders, store, o, target);
  }

  /** The profile that an attempt finds to be renewed, if it finds one. */
  ghost function LocatedProfile(o: Order, target: Option<RwId>, db: Db, v: View): (rw: Option<RwId>)
    ensures rw.Some? ==> rw.value in v.profiles
  {
    if target.Some? && target.value in v.profiles then target
    else match Scan(o, v.profiles, CandidateNames(o, db), 0)
      case Adopt(id) => if id in v.profiles then Some(id) else None
      case _ => None
  }

  /** What a fault-free attempt will grant the days to: the located profile unless it is marked or
      cannot be attached, or a new one when the scan finds neither a profile nor its names exhausted. */
  ghost function GrantedTo(o: Order, target: Option<RwId>, db: Db, v: View): Option<RwId> {
    if exists reason :: RefusedFor(o, target, db, reason) then None
    else match LocatedProfile(o, target, db, v)
      case Some(rw) => if DeliveryAttached(db, o.user, rw).Ok? && !Marked(o, v.profiles[rw]) then Some(rw) else None
      case None => if Scan(o, v.profiles, CandidateNames(o, db), 0).CreateAt? then Some(v.nextId) else None
  }

  /** Extending a live profile sets the expiry that the drift laws are about: under 10001 days in all it is
      the promised one up to half a day, and never earlier than before. */
  lemma ExtensionKeepsPromise(o: Order, rw: RwId, db: Db, v: View, now: real, db': Db, v': View, r: Outcome)
    requires rw in v.profiles && ScenarioOf(InfoOf(rw, v.profiles[rw])).Extend? && !Marked(o, v.profiles[rw])
    requires DeliveryAttached(db, o.user, rw).Ok? && o.days >= 1
    requires FaultFreeSettle(o, rw, InfoOf(rw, v.profiles[rw]), false, db, v, now, db', v', r)
    ensures r.Success? && rw in v'.profiles
    ensures var expire, left := v.profiles[rw].expire.Floor, Renewal.DaysLeft(Some(v.profiles[rw].expire.Floor), now);
            && v'.profiles[rw].expire == Renewal.ExtendedUntil(expire, o.days, now, now)
            && (now <= expire as real && left + o.days <= Renewal.MAX_PLAIN_DAYS ==>
                  && Renewal.WithinHalfDay(expire, o.days, 0.0, v'.profiles[rw].expire)
                  && v'.profiles[rw].expire >= expire as real)
  {
    var expire := v.profiles[rw].expire.Floor;
    if now <= expire as real && Renewal.DaysLeft(Some(expire), now) + o.days <= Renewal.MAX_PLAIN_DAYS {
      Renewal.ExtensionDrift(expire, o.days, now, now);
    }
  }

  /** An attempt without faults grants the days exactly once to what it could be seen to before, or
      not at all. */
  lemma GrantsIff(o: Order, target: Option<RwId>, db: Db, v: View, now: real, db': Db, v': View, r: Outcome)
    requires FaultFree(o, target, db, v, now, db', v', r)
    ensures var to := GrantedTo(o, target, db, v);
            v'.granted == v.granted + if to.Some? then [to.value] else []
  {
  }

  /** A delivered order whose profile is its stored target is delivered again if and only if it is
      accepted, the profile can be attached, and its description has lost both markers. */
  lemma GrantedAgainIff(o: Order, p: RwId, db: Db, v: View, now: real, db': Db, v': View, r: Outcome)
    requires p in v.profiles && v.granted == [p]
    requires FaultFree(o, Some(p), db, v, now, db', v', r)
    ensures v'.granted == [p, p]
            <==> && (forall reason :: !RefusedFor(o, Some(p), db, reason))
                 && DeliveryAttached(db, o.user, p).Ok? && !Marked(o, v.profiles[p])
    ensures v'.granted == [p, p] || v'.granted == [p]
  {
    GrantsIff(o, Some(p), db, v, now, db', v', r);
  }

  /** The premise on descriptions is needed: after another order has renewed the profile, whose id is
      no prefix of this one's, a retry of the delivered order grants its days a second time. */
  lemma InterleavedOrdersGrantTwice(o: Order, other: string, text: string, p: RwId, db: Db, v: View, now: real,
                                    db': Db, v': View, r: Outcome)
    requires ':' !in other && ':' !in text && ';' !in o.tx && !(o.tx <= other)
    requires p in v.profiles && v.granted == [p] && v.profiles[p].description == DeliveryDescription(other, text)
    requires DeliveryAttached(db, o.user, p).Ok? && forall reason :: !RefusedFor(o, Some(p), db, reason)
    requires FaultFree(o, Some(p), db, v, now, db', v', r)
    ensures v'.granted == [p, p]
  {
    RenewalPassesForIff(o.tx, other, text);
    GrantedAgainIff(o, p, db, v, now, db', v', r);
  }

  /** Markers are found by substring: an order whose id is a prefix of the id of the order that renewed
      the profile last is reported delivered, and nothing was granted. */
  lemma PrefixOrderIsSwallowed(o: Order, other: string, text: string, p: RwId, db: Db, v: View, now: real,
                               db': Db, v': View, r: Outcome)
    requires ':' !in other && ':' !in text && ';' !in o.tx && o.tx <= other
    requires p in v.profiles && v.granted == [] && v.profiles[p].description == DeliveryDescription(other, text)
    requires DeliveryAttached(db, o.user, p).Ok? && forall reason :: !RefusedFor(o, Some(p), db, reason)
    requires FaultFree(o, Some(p), db, v, now, db', v', r)
    ensures r.Success? && r.rw == p && v'.granted == []
  {
    RenewalPassesForIff(o.tx, other, text);
    GrantsIff(o, Some(p), db, v, now, db', v', r);
  }

  /** A fault-free attempt without a stored profile creates a second one if and only if it is accepted, the
      scan does not meet the first before a free name, and some candidate is free. */
  lemma SecondProfileIff(o: Order, target: Option<RwId>, p: RwId, db: Db, v: View, now: real, db': Db, v': View,
                         r: Outcome)
    requires Wf(v) && OnlyMarked(o, v, p) && Provisioned(o, v.profiles[p]) && Missing(v, target)
    requires FaultFree(o, target, db, v, now, db', v', r)
    ensures v'.granted == [p, v.nextId]
            <==> && (forall reason :: !RefusedFor(o, target, db, reason))
                 && !ScanMeets(CandidateNames(o, db), v, p, 0)
                 && exists k :: 0 <= k < |CandidateNames(o, db)| && !Used(v.profiles, CandidateNames(o, db)[k])
    ensures v'.granted == [p, v.nextId] || v'.granted == [p]
  {
    var names := CandidateNames(o, db);
    RetryAdoptsIff(o, v, names, p, 0);
    ScanEndsIff(o, v.profiles, names, 0);
    GrantsIff(o, target, db, v, now, db', v', r);
  }

  /** The profile of an earlier attempt is not among the candidates of a buyer who has gained links
      since it was created: the next attempt without a stored target creates another. */
  lemma MoreLinksCreateAnother(o: Order, p: RwId, ordinal: nat, db: Db, v: View, now: real, db': Db, v': View,
                               r: Outcome)
    requires InRange(o, db) && o.user in db.accounts && ordinal < |LinksOf(db, o.user)|
    requires ordinal > 0 || !Usernames.SpellsId(Usernames.Base(EffectiveName(o, db.accounts[o.user])), o.user)
    requires Wf(v) && OnlyMarked(o, v, p) && Provisioned(o, v.profiles[p])
    requires v.profiles[p].username == NameAt(o, db.accounts[o.user], ordinal)
    requires exists k :: 0 <= k < MAX_USERNAME_ATTEMPTS && !Used(v.profiles, CandidateNames(o, db)[k])
    requires forall reason :: !RefusedFor(o, None, db, reason)
    requires FaultFree(o, None, db, v, now, db', v', r)
    ensures v'.granted == [p, v.nextId]
  {
    NoCandidateIs(o, db, ordinal);
    SecondProfileIff(o, None, p, db, v, now, db', v', r);
  }

  /** Names of ordinals below the number of links are no candidates any more. */
  lemma NoCandidateIs(o: Order, db: Db, ordinal: nat)
    requires InRange(o, db) && o.user in db.accounts && ordinal < |LinksOf(db, o.user)|
    requires ordinal > 0 || !Usernames.SpellsId(Usernames.Base(EffectiveName(o, db.accounts[o.user])), o.user)
    ensures forall k :: 0 <= k < MAX_USERNAME_ATTEMPTS ==>
              CandidateNames(o, db)[k] != NameAt(o, db.accounts[o.user], ordinal)
  {
    var name := EffectiveName(o, db.accounts[o.user]);
    Usernames.BuildAccepts(name, o.user, ordinal);
    forall k: nat | k < MAX_USERNAME_ATTEMPTS
      ensures CandidateNames(o, db)[k] != NameAt(o, db.accounts[o.user], ordinal)
    {
      CandidatesAreBuilt(o, db, k);
      Usernames.SameNameIff(name, o.user, ordinal, |LinksOf(db, o.user)| + k);
    }
  }

  /** The scan runs out of names only if none is free, and creates only under a free one. */
  lemma {:induction false} ScanEndsIff(o: Order, profiles: map<RwId, Profile>, names: seq<string>, i: nat)
    requires i <= |names|
    ensures !Scan(o, profiles, names, i).Adopt? ==>
              (Scan(o, profiles, names, i).CreateAt? <==> exists k :: i <= k < |names| && !Used(profiles, names[k]))
    decreases |names| - i
  {
    if i < |names| && Used(profiles, names[i]) && !Provisioned(o, profiles[Holder(profiles, names[i])]) {
      ScanEndsIff(o, profiles, names, i + 1);
    }
  }

  /** An order is safe before its first attempt: nothing granted, nothing marked. */
  lemma SafeAtFirst(o: Order, names: seq<string>, v: View, target: Option<RwId>)
    requires v.granted == [] && forall id :: id in v.profiles ==> !Marked(o, v.profiles[id])
    requires target.Some? ==> target.value < v.nextId
    ensures Safe(o, names, v, target)
  {
  }

  // ---- whole runs ----

  /** Anything may happen between two attempts, within the premises. */
  method Between(panel: Panel, orders: Orders, store: AccountStore, o: Order, target: Option<RwId>)
    requires Ready(panel, orders, store, o, target)
    modifies panel, store
    ensures Ready(panel, orders, store, o, target)
    ensures AccountsRely(o.user, old(store.Snapshot()), store.Snapshot())
    ensures LinksOf(store.Snapshot(), o.user) == LinksOf(old(store.Snapshot()), o.user)
    ensures panel.ViewOf(o.tx).granted == old(panel.ViewOf(o.tx)).granted && panel.nextId >= old(panel.nextId)
  {
    ghost var db := store.Snapshot();
    var names := CandidateNames(o, store.Snapshot());
    ghost var v := panel.ViewOf(o.tx);
    panel.Foreign(o, names);
    RelyKeepsSafe(o, names, v, panel.ViewOf(o.tx), target);
    ForeignAccounts(store, o.user, panel.faulty);
    RelyKeepsLinks(o.user, db, store.Snapshot());
    if o.user in db.accounts {
      SameCandidates(o, db, store.Snapshot());
    }
  }

  /** At most one grant, at most one marked profile. */
  ghost predicate OnceAtMost(o: Order, v: View) {
    && |v.granted| <= 1
    && forall a, b :: (a in v.profiles && b in v.profiles && Marked(o, v.profiles[a]) && Marked(o, v.profiles[b])) ==>
         a == b
  }

  /** Any number of attempts at one order, each passing the stored target, with anything in between: its
      days are granted at most once, at most one profile ever carries one of its markers, no existing
      link changes its account, nothing is written to an existing profile that is not linked to the buyer,
      and as soon as an attempt succeeds they have been granted, to a profile the buyer owns. */
  method Attempts(panel: Panel, orders: Orders, store: AccountStore, o: Order, target: Option<RwId>, n: nat)
    returns (delivered: bool, stored: Option<RwId>)
    requires Ready(panel, orders, store, o, target)
    requires |LinksOf(store.Snapshot(), o.user)| + n + MAX_USERNAME_ATTEMPTS <= 0x8000_0000
    modifies panel, orders, store
    ensures OnceAtMost(o, panel.ViewOf(o.tx)) && Ready(panel, orders, store, o, stored)
    ensures SoFar(o, old(store.Snapshot()), old(panel.ViewOf(o.tx)), store.Snapshot(), panel.ViewOf(o.tx), delivered)
  {
    delivered, stored := false, target;
    ghost var db, v := store.Snapshot(), panel.ViewOf(o.tx);
    for i := 0 to n
      invariant Ready(panel, orders, store, o, stored)
      invariant |LinksOf(store.Snapshot(), o.user)| + (n - i) + MAX_USERNAME_ATTEMPTS <= 0x8000_0000
      invariant SoFar(o, db, v, store.Snapshot(), panel.ViewOf(o.tx), delivered)
    {
      var r := OneMore(panel, orders, store, o, stored, db, v, delivered);
      delivered, stored := delivered || r.Success?, NextTarget(stored, r);
    }
  }

  /** The loop around a delivery: the target is read once, and an attempt is repeated while it fails for a
      passing reason, three times at most. Afterwards the days were granted at most once; if it succeeded
      they were, to a profile the buyer owns; if not, the stored target is still the one read, so the
      loop can be run again. */
  method RetryLoop(panel: Panel, orders: Orders, store: AccountStore, o: Order, target: Option<RwId>)
    returns (r: Outcome)
    requires Ready(panel, orders, store, o, target)
    requires |LinksOf(store.Snapshot(), o.user)| + MAX_DELIVERY_ATTEMPTS + MAX_USERNAME_ATTEMPTS <= 0x8000_0000
    modifies panel, orders, store
    ensures OnceAtMost(o, panel.ViewOf(o.tx)) && Recorded(orders.txs, o.tx, r)
    ensures SoFar(o, old(store.Snapshot()), old(panel.ViewOf(o.tx)), store.Snapshot(), panel.ViewOf(o.tx), r.Success?)
    ensures Ready(panel, orders, store, o, NextTarget(target, r))
  {
    ghost var db, v := store.Snapshot(), panel.ViewOf(o.tx);
    var attempts := 1;
    r := OneMore(panel, orders, store, o, target, db, v, false);
    while r.PendingResult? && r.retryable && attempts < MAX_DELIVERY_ATTEMPTS
      invariant 1 <= attempts <= MAX_DELIVERY_ATTEMPTS
      invariant Ready(panel, orders, store, o, NextTarget(target, r)) && Recorded(orders.txs, o.tx, r)
      invariant |LinksOf(store.Snapshot(), o.user)| + (MAX_DELIVERY_ATTEMPTS - attempts)
                  + MAX_USERNAME_ATTEMPTS <= 0x8000_0000
      invariant SoFar(o, db, v, store.Snapshot(), panel.ViewOf(o.tx), r.Success?)
      decreases MAX_DELIVERY_ATTEMPTS - attempts
    {
      attempts := attempts + 1;
      r := OneMore(panel, orders, store, o, target, db, v, false);
    }
  }

  /** One more attempt of a run, after anything others do. */
  method OneMore(panel: Panel, orders: Orders, store: AccountStore, o: Order, target: Option<RwId>, ghost db: Db,
                 ghost v: View, ghost delivered: bool)
    returns (r: Outcome)
    requires Ready(panel, orders, store, o, target)
    requires |LinksOf(store.Snapshot(), o.user)| + 1 + MAX_USERNAME_ATTEMPTS <= 0x8000_0000
    requires SoFar(o, db, v, store.Snapshot(), panel.ViewOf(o.tx), delivered)
    modifies panel, orders, store
    ensures Ready(panel, orders, store, o, NextTarget(target, r)) && Recorded(orders.txs, o.tx, r)
    ensures |LinksOf(store.Snapshot(), o.user)| <= |LinksOf(old(store.Snapshot()), o.user)| + 1
    ensures SoFar(o, db, v, store.Snapshot(), panel.ViewOf(o.tx), delivered || r.Success?)
  {
    ghost var db1, v1 := store.Snapshot(), panel.ViewOf(o.tx);
    Between(panel, orders, store, o, target);
    ghost var db2, txs2, v2 := store.Snapshot(), orders.txs, panel.ViewOf(o.tx);
    r := Deliver(panel, orders, store, o, target);
    OneMoreLink(db2, store.Snapshot(), o.user, NextTarget(target, r));
    OthersGoOn(o, db, v, db1, v1, db2, v2, delivered);
    AttemptGoesOn(o, target, db, v, db2, txs2, v2, store.Snapshot(), orders.txs, panel.ViewOf(o.tx), delivered, r);
  }

  /** What has held since the start of a run of attempts. */
  ghost predicate SoFar(o: Order, db: Db, v: View, db': Db, v': View, delivered: bool) {
    && (forall rw :: rw in db.links ==> rw in db'.links && db'.links[rw].user == db.links[rw].user)
    && v.granted <= v'.granted && v.nextId <= v'.nextId && WritesOwnOnly(o.user, v, v', db')
    && (delivered ==> |v'.granted| == 1 && OwnedBy(db', v'.granted[0], o.user))
  }

  lemma OthersGoOn(o: Order, db: Db, v: View, db1: Db, v1: View, db2: Db, v2: View, delivered: bool)
    requires SoFar(o, db, v, db1, v1, delivered)
    requires AccountsRely(o.user, db1, db2) && v2.granted == v1.granted && v1.nextId <= v2.nextId
    ensures SoFar(o, db, v, db2, v2, delivered)
  {
  }

  lemma AttemptGoesOn(o: Order, target: Option<RwId>, db: Db, v: View, db1: Db, txs1: map<string, Tx>, v1: View,
                      db2: Db,
                      txs2: map<string, Tx>, v2: View, delivered: bool, r: Outcome)
    requires SoFar(o, db, v, db1, v1, delivered) && Attempted(o, target, db1, txs1, v1, v2, db2, txs2, r)
    ensures SoFar(o, db, v, db2, v2, delivered || r.Success?)
  {
    forall k | |v.granted| <= k < |v2.granted|
      ensures v2.granted[k] >= v.nextId || OwnedBy(db2, v2.granted[k], o.user)
    {
      assert k < |v1.granted| ==> v2.granted[k] == v1.granted[k];
    }
  }

  lemma OneMoreLink(before: Db, after: Db, user: UserId, rw: Option<RwId>)
    requires NoLinkMoved(user, before, after, rw)
    ensures |LinksOf(after, user)| <= |LinksOf(before, user)| + 1
  {
    var extra := if rw.Some? then {rw.value} else {};
    forall r | r in LinksOf(after, user) ensures r in LinksOf(before, user) + extra {
      assert r in after.links && after.links[r].user == user;
      assert r in before.links ==> before.links[r].user == after.links[r].user;
    }
    Cardinality(LinksOf(after, user), LinksOf(before, user) + extra);
  }

  lemma {:induction false} Cardinality(a: set<RwId>, b: set<RwId>)
    requires a <= b
    ensures |a| <= |b|
  {
    assert b == a + (b - a);
  }
}
