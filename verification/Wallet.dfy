/** The bonus wallet: balances, their ledger, promo codes, redemptions and referral rewards. */
module Wallet {
  import opened Wrappers

  type UserId = int
  type TgId = int
  type Code = string

  datatype User = User(credits: int, tg: Option<TgId>)

  datatype Source = Admin | Crm | Migration | Payment | PromoCode

  datatype Entry = Entry(user: UserId, amount: int, source: Source, reference: Option<string>, balanceAfter: int)

  datatype Promo = Promo(tg: TgId, referral: bool, days: int, rewarded: int, grant: Option<int>)

  datatype Redemption = Redemption(tg: TgId, code: Code, referral: bool)

  datatype Order = Order(id: string, user: UserId, days: int)

  /** The tables. Ledger and redemptions are in the order of their ids. */
  datatype Db = Db(
    users: map<UserId, User>,
    ledger: seq<Entry>,
    promos: map<Code, Promo>,
    redemptions: seq<Redemption>,
    orders: seq<Order>)

  datatype Error = NotPositive | UserMissing

  datatype Reason = Fine | Invalid | OwnCode | AlreadyUsed | ReferralOnlyOne | ReferralNotNew | NoUser

  datatype Settings = Settings(rate: int, cap: int, defaultGrant: int)

  // ---- the operations on values ----

  /** balance.credit */
  function Credited(db: Db, user: UserId, amount: int, source: Source, reference: Option<string>): Result<Db, Error> {
    if amount <= 0 then Err(NotPositive)
    else if user !in db.users then Err(UserMissing)
    else Ok(Posted(db, user, amount, source, reference))
  }

  /** The balance moves by amount and one ledger row records it. */
  function Posted(db: Db, user: UserId, amount: int, source: Source, reference: Option<string>): Db
    requires user in db.users
  {
    var after := db.users[user].credits + amount;
    db.(users := db.users[user := db.users[user].(credits := after)],
        ledger := db.ledger + [Entry(user, amount, source, reference, after)])
  }

  /** balance.debit_if_sufficient; None is its False. */
  function Debited(db: Db, user: UserId, amount: int, source: Source, reference: Option<string>)
    : Result<Option<Db>, Error>
  {
    if amount <= 0 then Err(NotPositive)
    else if user !in db.users || db.users[user].credits < amount then Ok(None)
    else Ok(Some(Posted(db, user, -amount, source, reference)))
  }

  /** credits_pay.purchase_with_credits */
  function Bought(db: Db, user: UserId, cost: int, days: int, id: string): Result<Option<Db>, Error> {
    if cost <= 0 || days <= 0 then Err(NotPositive)
    else match Debited(db, user, cost, Payment, Some(id))
      case Err(e) => Err(e)
      case Ok(None) => Ok(None)
      case Ok(Some(paid)) => Ok(Some(paid.(orders := paid.orders + [Order(id, user, days)])))
  }

  /** What a look-up by tg id may answer: any account with it, since several may share one. */
  predicate Found(db: Db, tg: TgId, r: Option<UserId>) {
    match r
    case Some(u) => u in db.users && db.users[u].tg == Some(tg)
    case None => forall u :: u in db.users ==> db.users[u].tg != Some(tg)
  }

  /** A negative tg id that no account has stands for the row with that id negated. */
  predicate IsRedeemer(db: Db, tg: TgId, r: Option<UserId>) {
    if r.Some? && Found(db, tg, r) then true
    else Found(db, tg, None) && r == if tg < 0 && -tg in db.users then Some(-tg) else None
  }

  predicate HasTransaction(db: Db, tg: TgId) {
    exists o :: o in db.orders && o.user in db.users && db.users[o.user].tg == Some(tg)
  }

  /** promos.can_redeem, without the amount. */
  function CanRedeem(db: Db, tg: TgId, code: Code): Reason {
    if code == "" || code !in db.promos then Invalid
    else if db.promos[code].tg == tg then OwnCode
    else if exists r :: r in db.redemptions && r.tg == tg && r.code == code then AlreadyUsed
    else if db.promos[code].referral && exists r :: r in db.redemptions && r.tg == tg && r.referral then ReferralOnlyOne
    else if db.promos[code].referral && HasTransaction(db, tg) then ReferralNotNew
    else Fine
  }

  predicate HasCode(db: Db, tg: TgId) {
    exists c :: c in db.promos && db.promos[c].tg == tg
  }

  /** promos.get_or_create_referral_code: unused is the code the generator hit upon. */
  function WithReferralCode(db: Db, tg: TgId, unused: Code): Db {
    if HasCode(db, tg) then db
    else db.(promos := db.promos[unused := Promo(tg, true, 0, 0, None)])
  }

  function GrantOf(promo: Promo, settings: Settings): int {
    if promo.grant.Some? then promo.grant.value else settings.defaultGrant
  }

  /** promos.redeem_promo, for the account that the look-up answered. */
  function Redeemed(db: Db, tg: TgId, code: Code, unused: Code, settings: Settings, redeemer: Option<UserId>)
    : Result<Db, Reason>
    requires redeemer.Some? ==> redeemer.value in db.users
  {
    if CanRedeem(db, tg, code) != Fine then Err(CanRedeem(db, tg, code))
    else if redeemer.None? then Err(NoUser)
    else
      var promo := db.promos[code];
      var noted := WithReferralCode(db, tg, unused);
      var logged := noted.(redemptions := noted.redemptions + [Redemption(tg, code, promo.referral)]);
      var grant := GrantOf(promo, settings);
      Ok(if grant > 0 then Posted(logged, redeemer.value, grant, PromoCode, Some(code)) else logged)
  }

  function Latest(redemptions: seq<Redemption>, tg: TgId): (r: Option<Redemption>)
    ensures r.Some? ==> r.value in redemptions && r.value.tg == tg
    ensures r.None? ==> forall x :: x in redemptions ==> x.tg != tg
  {
    if redemptions == [] then None
    else
      var last := redemptions[|redemptions| - 1];
      if last.tg == tg then Some(last) else Latest(redemptions[..|redemptions| - 1], tg)
  }

  const REFERRAL_PREFIX := "referral:"

  function ReferenceOf(code: Code): string { REFERRAL_PREFIX + code }

  function Min(a: int, b: int): int { if a <= b then a else b }

  function Max(a: int, b: int): int { if a <= b then b else a }

  /** What one more purchase adds, from the counters after its days are in. */
  function RewardDue(promo: Promo, settings: Settings): int {
    Max(0, Min((promo.days / 30) * settings.rate - promo.rewarded, settings.cap - promo.rewarded))
  }

  /** The code a purchase by tg counts for: the one redeemed last. */
  function RewardCode(db: Db, tg: TgId): (r: Option<Code>)
    ensures r.Some? ==> r.value in db.promos
  {
    match Latest(db.redemptions, tg)
    case None => None
    case Some(r) => if r.code in db.promos then Some(r.code) else None
  }

  /** What the look-up of the code's owner may answer. */
  predicate IsPayee(db: Db, tg: TgId, payee: Option<UserId>) {
    match RewardCode(db, tg)
    case None => payee.None?
    case Some(code) => Found(db, db.promos[code].tg, payee)
  }

  /** The code and the account a purchase by tg is rewarded to, if there are both. */
  function RewardRoute(db: Db, tg: TgId, payee: Option<UserId>): (r: Option<(Code, UserId)>)
    requires payee.Some? ==> payee.value in db.users
    ensures r.Some? ==> r.value.0 in db.promos && r.value.1 in db.users
  {
    if RewardCode(db, tg).Some? && payee.Some? then Some((RewardCode(db, tg).value, payee.value)) else None
  }

  /** referral_rewards.record_purchase_and_compute_reward */
  function Rewarded(db: Db, tg: TgId, days: int, settings: Settings, payee: Option<UserId>): Db
    requires payee.Some? ==> payee.value in db.users
  {
    match RewardRoute(db, tg, payee)
    case None => db
    case Some((code, owner)) =>
      var promo := db.promos[code].(days := db.promos[code].days + days);
      var due := RewardDue(promo, settings);
      if due > 0 then
        Posted(db.(promos := db.promos[code := promo.(rewarded := promo.rewarded + due)]),
               owner, due, PromoCode, Some(ReferenceOf(code)))
      else db.(promos := db.promos[code := promo])
  }

  function Reparented(ledger: seq<Entry>, loser: UserId, survivor: UserId): (r: seq<Entry>)
    ensures |r| == |ledger|
    ensures forall i :: 0 <= i < |r| ==>
              r[i] == if ledger[i].user == loser then ledger[i].(user := survivor) else ledger[i]
  {
    seq(|ledger|, i requires 0 <= i < |ledger| =>
      if ledger[i].user == loser then ledger[i].(user := survivor) else ledger[i])
  }

  function OrdersMoved(orders: seq<Order>, loser: UserId, survivor: UserId): seq<Order> {
    seq(|orders|, i requires 0 <= i < |orders| =>
      if orders[i].user == loser then orders[i].(user := survivor) else orders[i])
  }

  /** merge._apply_merge_db on the wallet tables. */
  function Merged(db: Db, survivor: UserId, loser: UserId, tg: TgId): Db
    requires survivor in db.users && loser in db.users && survivor != loser
  {
    var sum := db.users[survivor].credits + db.users[loser].credits;
    db.(users := (db.users - {loser})[survivor := User(sum, Some(tg))],
        ledger := Reparented(db.ledger, loser, survivor),
        orders := OrdersMoved(db.orders, loser, survivor))
  }

  // ---- sums over the ledger ----

  ghost function Total(ledger: seq<Entry>, keep: Entry -> bool): int {
    if ledger == [] then 0
    else
      var last := ledger[|ledger| - 1];
      Total(ledger[..|ledger| - 1], keep) + if keep(last) then last.amount else 0
  }

  ghost function ByUser(user: UserId): Entry -> bool { (e: Entry) => e.user == user }

  ghost function WithReference(reference: string): Entry -> bool { (e: Entry) => e.reference == Some(reference) }

  lemma {:induction false} TotalOfMore(ledger: seq<Entry>, e: Entry, keep: Entry -> bool)
    ensures Total(ledger + [e], keep) == Total(ledger, keep) + if keep(e) then e.amount else 0
  {
    assert (ledger + [e])[..|ledger|] == ledger;
  }

  lemma {:induction false} NoneKept(ledger: seq<Entry>, keep: Entry -> bool)
    requires forall e :: e in ledger ==> !keep(e)
    ensures Total(ledger, keep) == 0
  {
    if ledger != [] {
      NoneKept(ledger[..|ledger| - 1], keep);
    }
  }

  /** Moving rows moves exactly their amounts; sums by reference do not notice. */
  lemma {:induction false} ReparentedTotals(ledger: seq<Entry>, loser: UserId, survivor: UserId, user: UserId,
                                            reference: string)
    requires loser != survivor
    ensures Total(Reparented(ledger, loser, survivor), ByUser(user))
            == if user == survivor then Total(ledger, ByUser(survivor)) + Total(ledger, ByUser(loser))
               else if user == loser then 0
               else Total(ledger, ByUser(user))
    ensures Total(Reparented(ledger, loser, survivor), WithReference(reference))
              == Total(ledger, WithReference(reference))
  {
    if ledger != [] {
      var n := |ledger| - 1;
      ReparentedTotals(ledger[..n], loser, survivor, user, reference);
      assert Reparented(ledger, loser, survivor)[..n] == Reparented(ledger[..n], loser, survivor);
    }
  }

  // ---- what every operation keeps ----

  /** Every balance is the sum of its account's ledger, and never negative. */
  ghost predicate Balanced(db: Db) {
    && (forall u :: u in db.users ==> db.users[u].credits >= 0 && db.users[u].credits == Total(db.ledger, ByUser(u)))
    && forall e :: e in db.ledger ==> e.user in db.users
  }

  ghost predicate IsReferral(reference: string) { REFERRAL_PREFIX <= reference }

  /** What a code's owner was credited is what the code's counter says. */
  ghost predicate RewardsRecorded(db: Db) {
    forall c :: c in db.promos ==>
      !IsReferral(c) && db.promos[c].rewarded == Total(db.ledger, WithReference(ReferenceOf(c)))
  }

  /** Rows of other codes stay out of a new code's account. */
  ghost predicate ReferencesKnown(db: Db) {
    forall e :: e in db.ledger && e.reference.Some? && IsReferral(e.reference.value) ==>
      exists c :: c in db.promos && e.reference.value == ReferenceOf(c)
  }

  /** promos.tg_id is unique. */
  ghost predicate OneCodeEach(db: Db) {
    forall c, d :: c in db.promos && d in db.promos && c != d ==> db.promos[c].tg != db.promos[d].tg
  }

  /** The redemption rules, read off the log. */
  ghost predicate FairRedemptions(db: Db) {
    && (forall i, j :: 0 <= i < j < |db.redemptions| && db.redemptions[i].tg == db.redemptions[j].tg ==>
          db.redemptions[i].code != db.redemptions[j].code
          && !(db.redemptions[i].referral && db.redemptions[j].referral))
    && forall r :: r in db.redemptions ==>
         r.code in db.promos && db.promos[r.code].tg != r.tg && db.promos[r.code].referral == r.referral
  }

  ghost predicate Inv(db: Db) {
    Balanced(db) && RewardsRecorded(db) && ReferencesKnown(db) && OneCodeEach(db) && FairRedemptions(db)
  }

  lemma ReferencesDiffer(code: Code)
    ensures IsReferral(ReferenceOf(code))
    ensures forall other :: ReferenceOf(other) == ReferenceOf(code) ==> other == code
  {
    forall other | ReferenceOf(other) == ReferenceOf(code)
      ensures other == code
    {
      assert other == ReferenceOf(other)[|REFERRAL_PREFIX|..] == ReferenceOf(code)[|REFERRAL_PREFIX|..] == code;
    }
  }

  lemma PostedKeepsBalances(db: Db, user: UserId, amount: int, source: Source, reference: Option<string>)
    requires Balanced(db) && user in db.users && db.users[user].credits + amount >= 0
    ensures Balanced(Posted(db, user, amount, source, reference))
  {
    var after := Posted(db, user, amount, source, reference);
    forall u | u in after.users
      ensures after.users[u].credits >= 0 && after.users[u].credits == Total(after.ledger, ByUser(u))
    {
      TotalOfMore(db.ledger, after.ledger[|db.ledger|], ByUser(u));
    }
  }

  lemma PostedElsewhereKeepsRewards(db: Db, user: UserId, amount: int, source: Source, reference: Option<string>)
    requires RewardsRecorded(db) && ReferencesKnown(db) && user in db.users
    requires reference.Some? ==> !IsReferral(reference.value)
    ensures RewardsRecorded(Posted(db, user, amount, source, reference))
    ensures ReferencesKnown(Posted(db, user, amount, source, reference))
  {
    var after := Posted(db, user, amount, source, reference);
    forall c | c in after.promos
      ensures after.promos[c].rewarded == Total(after.ledger, WithReference(ReferenceOf(c)))
    {
      TotalOfMore(db.ledger, after.ledger[|db.ledger|], WithReference(ReferenceOf(c)));
      assert IsReferral(ReferenceOf(c));
    }
  }

  lemma PostedKeeps(db: Db, user: UserId, amount: int, source: Source, reference: Option<string>)
    requires Inv(db) && user in db.users && db.users[user].credits + amount >= 0
    requires reference.Some? ==> !IsReferral(reference.value)
    ensures Inv(Posted(db, user, amount, source, reference))
  {
    PostedKeepsBalances(db, user, amount, source, reference);
    PostedElsewhereKeepsRewards(db, user, amount, source, reference);
  }

  lemma BoughtKeeps(db: Db, user: UserId, cost: int, days: int, id: string)
    requires Inv(db) && !IsReferral(id)
    ensures Bought(db, user, cost, days, id).Ok? && Bought(db, user, cost, days, id).value.Some? ==>
              Inv(Bought(db, user, cost, days, id).value.value)
  {
    match Debited(db, user, cost, Payment, Some(id))
    case Ok(Some(paid)) => PostedKeeps(db, user, -cost, Payment, Some(id));
    case _ =>
  }

  /** A code nobody has yet starts with an empty account of its own. */
  lemma NewCodeKeeps(db: Db, code: Code, promo: Promo)
    requires Inv(db) && code !in db.promos && !IsReferral(code)
    requires promo.rewarded == 0 && forall c :: c in db.promos ==> db.promos[c].tg != promo.tg
    ensures Inv(db.(promos := db.promos[code := promo]))
  {
    forall e | e in db.ledger
      ensures !WithReference(ReferenceOf(code))(e)
    {
      ReferencesDiffer(code);
    }
    NoneKept(db.ledger, WithReference(ReferenceOf(code)));
    var after := db.(promos := db.promos[code := promo]);
    forall e | e in after.ledger && e.reference.Some? && IsReferral(e.reference.value)
      ensures exists c :: c in after.promos && e.reference.value == ReferenceOf(c)
    {
      var c :| c in db.promos && e.reference.value == ReferenceOf(c);
      assert c in after.promos;
    }
  }

  lemma LoggedKeeps(db: Db, tg: TgId, code: Code)
    requires Inv(db) && CanRedeem(db, tg, code) == Fine
    ensures Inv(db.(redemptions := db.redemptions + [Redemption(tg, code, db.promos[code].referral)]))
  {
    var after := db.(redemptions := db.redemptions + [Redemption(tg, code, db.promos[code].referral)]);
    var n := |db.redemptions|;
    forall i, j | 0 <= i < j < |after.redemptions| && after.redemptions[i].tg == after.redemptions[j].tg
      ensures after.redemptions[i].code != after.redemptions[j].code
              && !(after.redemptions[i].referral && after.redemptions[j].referral)
    {
      assert after.redemptions[i] == db.redemptions[i] && db.redemptions[i] in db.redemptions;
      assert j < n ==> after.redemptions[j] == db.redemptions[j];
    }
  }

  lemma RedeemedKeeps(db: Db, tg: TgId, code: Code, unused: Code, settings: Settings, redeemer: Option<UserId>)
    requires Inv(db) && unused !in db.promos && !IsReferral(unused)
    requires redeemer.Some? ==> redeemer.value in db.users
    ensures var r := Redeemed(db, tg, code, unused, settings, redeemer); r.Ok? ==> Inv(r.value)
  {
    if CanRedeem(db, tg, code) == Fine && redeemer.Some? {
      var noted := WithReferralCode(db, tg, unused);
      if !HasCode(db, tg) {
        NewCodeKeeps(db, unused, Promo(tg, true, 0, 0, None));
      }
      LoggedKeeps(noted, tg, code);
      var grant := GrantOf(db.promos[code], settings);
      if grant > 0 {
        var logged := noted.(redemptions := noted.redemptions + [Redemption(tg, code, db.promos[code].referral)]);
        PostedKeeps(logged, redeemer.value, grant, PromoCode, Some(code));
      }
    }
  }

  /** The points a code should have earned for the days bought with it. */
  function Earned(days: int, settings: Settings): int { Min(settings.cap, (days / 30) * settings.rate) }

  /** One purchase, under any settings and for any number of days: the buyer's code takes the days,
      its counter rises to what those days have earned if that is more than it had, the owner is
      credited the difference, and nothing else changes. */
  lemma RewardStep(db: Db, tg: TgId, days: int, settings: Settings, payee: Option<UserId>)
    requires payee.Some? ==> payee.value in db.users
    ensures var after := Rewarded(db, tg, days, settings, payee);
            match RewardRoute(db, tg, payee)
            case None => after == db
            case Some((code, owner)) =>
              var p := db.promos[code];
              var rise := Max(p.rewarded, Earned(p.days + days, settings)) - p.rewarded;
              && after.promos == db.promos[code := p.(days := p.days + days, rewarded := p.rewarded + rise)]
              && after.users == db.users[owner := db.users[owner].(credits := db.users[owner].credits + rise)]
              && after.redemptions == db.redemptions && after.orders == db.orders
              && after.ledger == db.ledger + if rise == 0 then [] else
                   [Entry(owner, rise, PromoCode, Some(ReferenceOf(code)), db.users[owner].credits + rise)]
  {
  }

  lemma RewardedKeepsBalances(db: Db, tg: TgId, days: int, settings: Settings, payee: Option<UserId>)
    requires payee.Some? ==> payee.value in db.users
    requires Balanced(db)
    ensures Balanced(Rewarded(db, tg, days, settings, payee))
  {
    var after := Rewarded(db, tg, days, settings, payee);
    RewardStep(db, tg, days, settings, payee);
    if after.ledger != db.ledger {
      var e := after.ledger[|db.ledger|];
      PostedKeepsBalances(db, e.user, e.amount, e.source, e.reference);
      assert Posted(db, e.user, e.amount, e.source, e.reference).ledger == after.ledger;
    }
  }

  /** The owner's credit raises the code's counter and the code's account alike. */
  lemma RewardedKeepsRecords(db: Db, tg: TgId, days: int, settings: Settings, payee: Option<UserId>)
    requires payee.Some? ==> payee.value in db.users
    requires RewardsRecorded(db) && ReferencesKnown(db)
    ensures RewardsRecorded(Rewarded(db, tg, days, settings, payee))
              && ReferencesKnown(Rewarded(db, tg, days, settings, payee))
  {
    var after := Rewarded(db, tg, days, settings, payee);
    RewardStep(db, tg, days, settings, payee);
    if RewardRoute(db, tg, payee).Some? {
      var code := RewardRoute(db, tg, payee).value.0;
      ReferencesDiffer(code);
      assert after.promos.Keys == db.promos.Keys;
      if after.ledger != db.ledger {
        forall c | c in after.promos
          ensures after.promos[c].rewarded == Total(after.ledger, WithReference(ReferenceOf(c)))
        {
          TotalOfMore(db.ledger, after.ledger[|db.ledger|], WithReference(ReferenceOf(c)));
        }
      }
      forall e | e in after.ledger && e.reference.Some? && IsReferral(e.reference.value)
        ensures exists c :: c in after.promos && e.reference.value == ReferenceOf(c)
      {
        assert e in db.ledger || e.reference.value == ReferenceOf(code);
      }
    }
  }

  /** Counters are no part of the rules on codes and people. */
  lemma RewardedKeepsRules(db: Db, tg: TgId, days: int, settings: Settings, payee: Option<UserId>)
    requires payee.Some? ==> payee.value in db.users
    requires OneCodeEach(db) && FairRedemptions(db)
    ensures var after := Rewarded(db, tg, days, settings, payee);
            OneCodeEach(after) && FairRedemptions(after)
  {
    var after := Rewarded(db, tg, days, settings, payee);
    RewardStep(db, tg, days, settings, payee);
    assert after.promos.Keys == db.promos.Keys;
    assert forall c :: c in db.promos ==>
        after.promos[c].tg == db.promos[c].tg && after.promos[c].referral == db.promos[c].referral;
  }

  lemma RewardedKeeps(db: Db, tg: TgId, days: int, settings: Settings, payee: Option<UserId>)
    requires payee.Some? ==> payee.value in db.users
    requires Inv(db)
    ensures Inv(Rewarded(db, tg, days, settings, payee))
  {
    RewardedKeepsBalances(db, tg, days, settings, payee);
    RewardedKeepsRecords(db, tg, days, settings, payee);
    RewardedKeepsRules(db, tg, days, settings, payee);
  }

  lemma MergedKeepsBalances(db: Db, survivor: UserId, loser: UserId, tg: TgId)
    requires Balanced(db) && survivor in db.users && loser in db.users && survivor != loser
    ensures Balanced(Merged(db, survivor, loser, tg))
  {
    var after := Merged(db, survivor, loser, tg);
    forall u | u in after.users
      ensures after.users[u].credits >= 0 && after.users[u].credits == Total(after.ledger, ByUser(u))
    {
      ReparentedTotals(db.ledger, loser, survivor, u, "");
    }
    forall e | e in after.ledger
      ensures e.user in after.users
    {
      var i :| 0 <= i < |after.ledger| && after.ledger[i] == e;
      assert db.ledger[i] in db.ledger;
    }
  }

  lemma MergedKeepsRewards(db: Db, survivor: UserId, loser: UserId, tg: TgId)
    requires RewardsRecorded(db) && ReferencesKnown(db)
    requires survivor in db.users && loser in db.users && survivor != loser
    ensures RewardsRecorded(Merged(db, survivor, loser, tg)) && ReferencesKnown(Merged(db, survivor, loser, tg))
  {
    var after := Merged(db, survivor, loser, tg);
    forall c | c in after.promos
      ensures after.promos[c].rewarded == Total(after.ledger, WithReference(ReferenceOf(c)))
    {
      ReparentedTotals(db.ledger, loser, survivor, survivor, ReferenceOf(c));
    }
    forall e | e in after.ledger && e.reference.Some? && IsReferral(e.reference.value)
      ensures exists c :: c in after.promos && e.reference.value == ReferenceOf(c)
    {
      var i :| 0 <= i < |after.ledger| && after.ledger[i] == e;
      assert db.ledger[i] in db.ledger && db.ledger[i].reference == e.reference;
    }
  }

  lemma MergedKeeps(db: Db, survivor: UserId, loser: UserId, tg: TgId)
    requires Inv(db) && survivor in db.users && loser in db.users && survivor != loser
    ensures Inv(Merged(db, survivor, loser, tg))
  {
    MergedKeepsBalances(db, survivor, loser, tg);
    MergedKeepsRewards(db, survivor, loser, tg);
  }
}
