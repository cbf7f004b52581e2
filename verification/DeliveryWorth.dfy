/** What an attempt at an order is worth, read off the panel: which profile it leaves behind, until when and
    with which limit. Nothing here refers to how the requests are put together. */
module DeliveryWorth {
  import opened Wrappers
  import opened Ownership
  import opened Markers
  import opened Panel
  import opened Provisioning
  import opened Delivery
  import Renewal
  import Usernames

  /** The order passes every check that comes before the panel is asked. */
  ghost predicate Acceptable(o: Order, target: Option<RwId>, db: Db) {
    && o.user in db.accounts && |o.squads| > 0 && |o.externalSquad| > 0
    && (target.Some? ==> Unclaimed(db, o.user, target.value))
  }

  /** No other account is linked to the profile, nor projects it while it is linked to nobody. */
  ghost predicate Unclaimed(db: Db, user: UserId, rw: RwId) {
    if rw in db.links then db.links[rw].user == user
    else forall u :: u in db.accounts && u != user ==> db.accounts[u].rw != Some(rw)
  }

  lemma AcceptableIff(o: Order, target: Option<RwId>, db: Db)
    ensures Acceptable(o, target, db) <==> forall reason :: !RefusedFor(o, target, db, reason)
  {
    if !Acceptable(o, target, db) {
      assert || RefusedFor(o, target, db, LocalUserNotFound) || RefusedFor(o, target, db, BadTariff)
             || RefusedFor(o, target, db, TargetOwnerConflict);
    }
  }

  /** Why an order is turned away: the first check that fails says so, and nothing is done. */
  lemma RefusalReasons(o: Order, target: Option<RwId>, db: Db, v: View, now: real, db': Db, v': View, r: Outcome)
    requires FaultFree(o, target, db, v, now, db', v', r) && !Acceptable(o, target, db)
    ensures db' == db && v' == v
    ensures r == PendingResult(if o.user !in db.accounts then LocalUserNotFound
                               else if |o.squads| == 0 || |o.externalSquad| == 0 then BadTariff
                               else TargetOwnerConflict, false)
  {
    AcceptableIff(o, target, db);
  }

  lemma UnclaimedIff(db: Db, user: UserId, rw: RwId)
    requires user in db.accounts
    ensures Unclaimed(db, user, rw) <==> DeliveryAttached(db, user, rw).Ok?
  {
  }

  predicate CarriesMarker(o: Order, p: Profile) {
    Contains(p.description, "provisioning:" + o.tx) || Contains(p.description, "delivery:" + o.tx)
  }

  /** The limit that a delivery leaves: the order's if it sets a positive one, else none. */
  ghost predicate LimitOfOrder(o: Order, p: Profile) {
    p.limit == if o.trafficLimit.Some? && o.trafficLimit.value > 0 then o.trafficLimit else None
  }

  /** The description after a renewal: the order's text behind its delivery marker. */
  ghost predicate DescribedFor(o: Order, text: string, p: Profile) {
    p.description == if text == "" then "delivery:" + o.tx
                     else if Contains(text, "delivery:" + o.tx) then text
                     else "delivery:" + o.tx + "; " + text
  }

  /** One profile was written and nothing else on the panel. */
  ghost predicate OnlyWritten(v: View, v': View, rw: RwId) {
    && v'.profiles.Keys == v.profiles.Keys + {rw} && v'.granted == v.granted + [rw]
    && forall id :: id in v.profiles && id != rw ==> v'.profiles[id] == v.profiles[id]
  }

  /** The stored profile of an accepted order, which it may be attached to and which was not renewed yet. */
  ghost predicate Renewable(o: Order, p: RwId, db: Db, v: View) {
    && Acceptable(o, Some(p), db) && Unclaimed(db, o.user, p)
    && p in v.profiles && !CarriesMarker(o, v.profiles[p])
  }

  /** A profile that is not an active one without limit starts anew: it gets the days of the order from now
      on, is active, and keeps no limit but the order's. The days are those of the order exactly up to
      10000; a larger number is taken for a date. */
  lemma RenewalIsWorth(o: Order, p: RwId, db: Db, v: View, now: real, db': Db, v': View, r: Outcome)
    requires Renewable(o, p, db, v) && o.days >= 1 && now >= o.days as real
    requires !(v.profiles[p].status == Active && v.profiles[p].limit.None?)
    requires FaultFree(o, Some(p), db, v, now, db', v', r)
    ensures r.Success? && r.rw == p && r.scenario == Update && r.username == v.profiles[p].username
    ensures OnlyWritten(v, v', p) && v'.nextId == v.nextId
    ensures var q := v'.profiles[p];
            && (q.expire == now + 86400.0 * o.days as real <==> o.days <= 10000)
            && (o.days > 10000 ==> q.expire == now + 86400.0)
            && q.status == Active && LimitOfOrder(o, q) && q.username == v.profiles[p].username
            && DescribedFor(o, if o.hasTarget then o.description else o.source + " paid update", q)
  {
    AcceptableIff(o, Some(p), db);
    UnclaimedIff(db, o.user, p);
    Renewal.RoundIsNearest((o.days as real - now) / Renewal.DAY);
  }

  /** An active profile without limit is extended: to within half a day of the days on top of what it had,
      never to less than it had, for a whole number of days from now, as long as they are 10000 at most. */
  lemma ExtensionIsWorth(o: Order, p: RwId, db: Db, v: View, now: real, db': Db, v': View, r: Outcome)
    requires Renewable(o, p, db, v) && o.days >= 1
    requires v.profiles[p].status == Active && v.profiles[p].limit.None?
    requires FaultFree(o, Some(p), db, v, now, db', v', r)
    ensures r.Success? && r.rw == p && r.scenario == Extend && r.username == v.profiles[p].username
    ensures OnlyWritten(v, v', p) && v'.nextId == v.nextId
    ensures var q, had := v'.profiles[p], v.profiles[p].expire.Floor as real;
            && q.status == Active && LimitOfOrder(o, q) && q.username == v.profiles[p].username
            && DescribedFor(o, if o.hasTarget then o.description else o.source + " paid extend", q)
            && (had <= now && o.days <= 10000 ==> q.expire == now + 86400.0 * o.days as real)
            && (now <= had <= now + 86400.0 * (9999 - o.days) as real ==>
                  && had + 86400.0 * o.days as real - 43200.0 <= q.expire <= had + 86400.0 * o.days as real + 43200.0
                  && q.expire >= had
                  && exists n: int :: q.expire == WholeDays(now, n))
  {
    AcceptableIff(o, Some(p), db);
    UnclaimedIff(db, o.user, p);
    var had := v.profiles[p].expire.Floor;
    if had as real <= now && o.days <= 10000 {
      Renewal.ExpiredStartsAfresh(had, o.days, now, now);
    }
    if now <= had as real <= now + 86400.0 * (9999 - o.days) as real {
      Renewal.RoundIsNearest((had as real - now) / Renewal.DAY);
      var n := Renewal.DaysLeft(Some(had), now) + o.days;
      assert n <= 10000;
      Renewal.ExtensionDrift(had, o.days, now, now);
      assert v'.profiles[p].expire == WholeDays(now, n);
    }
  }

  function WholeDays(now: real, n: int): real { now + 86400.0 * n as real }

  /** A profile that already carries a marker of the order is attached and not written to. */
  lemma MarkedIsLeftAlone(o: Order, p: RwId, db: Db, v: View, now: real, db': Db, v': View, r: Outcome)
    requires Acceptable(o, Some(p), db) && Unclaimed(db, o.user, p)
    requires p in v.profiles && CarriesMarker(o, v.profiles[p])
    requires FaultFree(o, Some(p), db, v, now, db', v', r)
    ensures v' == v && r.Success? && r.rw == p && r.username == v.profiles[p].username
  {
    AcceptableIff(o, Some(p), db);
    UnclaimedIff(db, o.user, p);
  }

  // ---- a new profile ----

  /** The name shown for the buyer: that of the request, else the stored one. */
  ghost function ShownName(o: Order, a: Account): Option<string> {
    if o.tgUsername.Some? then o.tgUsername else if Username in a.texts then Some(a.texts[Username]) else None
  }

  /** Candidate `k`: the name built for the ordinal that is `k` above the number of links. */
  ghost predicate CandidateIs(o: Order, db: Db, k: nat, name: string)
    requires o.user in db.accounts
  {
    Usernames.Build(ShownName(o, db.accounts[o.user]), o.user, |LinksOf(db, o.user)| + k) == Ok(name)
  }

  /** Candidate `k` is free, and those below it are other people's. */
  ghost predicate FirstFree(o: Order, db: Db, v: View, k: nat, name: string)
    requires o.user in db.accounts
  {
    && k < 100 && CandidateIs(o, db, k, name) && !Used(v.profiles, name)
    && forall j: nat, lower: string :: j < k && CandidateIs(o, db, j, lower) ==> HeldByOther(o, v, lower)
  }

  ghost predicate HeldByOther(o: Order, v: View, name: string) {
    exists id :: id in v.profiles && v.profiles[id].username == name
                 && !Contains(v.profiles[id].description, "provisioning:" + o.tx)
  }

  /** What is written about a new profile. */
  ghost predicate Introduces(o: Order, a: Account, description: string)
    requires o.user >= 0
  {
    var name := ShownName(o, a);
    var tgId := if o.tgId.Some? then o.tgId else a.tgId;
    description
    == ("provisioning:" + o.tx)
       + ("; db_user_id:" + Usernames.Decimal(o.user)
          + "; tg_id:" + (if tgId.Some? then ShowInt(tgId.value) else "none")
          + "; source:" + o.source
          + "; tg_username:" + (if name.Some? && name.value != "" then name.value else "none")
          + (if o.description == "" then "" else "; " + o.description))
  }

  /** Without a stored profile on the panel, and with none of its own among the candidates below the first
      free one, an accepted order creates that one: active, with the order's limit, until the order's days
      from now are over, described as this order's, and linked to the buyer if nobody has claimed the id. */
  lemma CreationIsWorth(o: Order, target: Option<RwId>, k: nat, name: string, db: Db, v: View, now: real,
                        db': Db, v': View, r: Outcome)
    requires Acceptable(o, target, db) && InRange(o, db) && Wf(v)
    requires target.Some? ==> target.value !in v.profiles
    requires FirstFree(o, db, v, k, name) && now >= o.days as real
    requires FaultFree(o, target, db, v, now, db', v', r)
    ensures OnlyWritten(v, v', v.nextId) && v'.nextId == v.nextId + 1
    ensures var q := v'.profiles[v.nextId];
            && q.username == name && q.status == Active && LimitOfOrder(o, q)
            && Introduces(o, db.accounts[o.user], q.description)
            && (q.expire == now + 86400.0 * o.days as real <==> o.days <= 10000)
            && (o.days > 10000 ==> q.expire == now + 86400.0)
    ensures Unclaimed(db, o.user, v.nextId) ==> r.Success? && r.rw == v.nextId && OwnedBy(db', v.nextId, o.user)
    ensures !Unclaimed(db, o.user, v.nextId) ==> r == PendingResult(TargetOwnerConflict, false) && db' == db
  {
    UnclaimedIff(db, o.user, v.nextId);
    CreatesUnder(o, target, k, name, db, v, now, db', v', r);
    Renewal.RoundIsNearest((o.days as real - now) / Renewal.DAY);
    DescriptionIntroduces(o, db.accounts[o.user]);
  }

  lemma DescriptionIntroduces(o: Order, a: Account)
    requires o.user >= 0
    ensures Introduces(o, a, Description(o, a))
  {
  }

  lemma CreatesUnder(o: Order, target: Option<RwId>, k: nat, name: string, db: Db, v: View, now: real,
                     db': Db, v': View, r: Outcome)
    requires Acceptable(o, target, db) && InRange(o, db) && Wf(v)
    requires target.Some? ==> target.value !in v.profiles
    requires FirstFree(o, db, v, k, name)
    requires FaultFree(o, target, db, v, now, db', v', r)
    ensures v' == Created(v, name, Description(o, db.accounts[o.user]), CreatedExpiry(o.days, now), CreationLimit(o))
    ensures match DeliveryAttached(db, o.user, v.nextId)
            case Err(_) => db' == db && r == PendingResult(TargetOwnerConflict, false)
            case Ok(after) => db' == after && r.Success? && r.rw == v.nextId
  {
    AcceptableIff(o, target, db);
    ScanCreates(o, db, v, k, name, 0);
  }

  /** A name that another profile holds is passed by the scan. */
  lemma HeldIsPassed(o: Order, v: View, name: string)
    requires Wf(v) && HeldByOther(o, v, name)
    ensures Used(v.profiles, name) && !Provisioned(o, v.profiles[Holder(v.profiles, name)])
  {
    var id :| id in v.profiles && v.profiles[id].username == name
              && !Contains(v.profiles[id].description, "provisioning:" + o.tx);
    assert Holder(v.profiles, name) == id;
  }

  /** The candidates are those that the scan goes through. */
  lemma CandidateIsListed(o: Order, db: Db, i: nat)
    requires InRange(o, db) && o.user in db.accounts && i < MAX_USERNAME_ATTEMPTS
    ensures CandidateIs(o, db, i, CandidateNames(o, db)[i])
  {
    CandidatesAreBuilt(o, db, i);
  }

  lemma {:induction false} ScanCreates(o: Order, db: Db, v: View, k: nat, name: string, i: nat)
    requires InRange(o, db) && o.user in db.accounts && Wf(v) && FirstFree(o, db, v, k, name) && i <= k
    ensures Scan(o, v.profiles, CandidateNames(o, db), i) == CreateAt(k) && CandidateNames(o, db)[k] == name
    decreases k - i
  {
    CandidateIsListed(o, db, i);
    if i < k {
      HeldIsPassed(o, v, CandidateNames(o, db)[i]);
      ScanCreates(o, db, v, k, name, i + 1);
    }
  }
}
