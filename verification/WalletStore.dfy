/** The wallet calls, performed in place on the tables. */
module WalletStore {
  import opened Wrappers
  import opened Wallet
  import opened WalletAnswers

  datatype RedeemResult =
    | Refused(reason: Reason)
    | Granted(code: Code, referral: bool, grant: int, balance: int)

  datatype PurchaseResult = PurchaseResult(id: string, days: int, spent: int, balance: int)

  datatype RewardInfo = RewardInfo(
    ownerTg: TgId, owner: UserId, code: Code, points: int, days: int, before: int, after: int)

  class WalletStore {
    var users: map<UserId, User>
    var ledger: seq<Entry>
    var promos: map<Code, Promo>
    var redemptions: seq<Redemption>
    var orders: seq<Order>

    /** The value of all the tables. */
    function Snapshot(): Db
      reads this
    {
      Db(users, ledger, promos, redemptions, orders)
    }

    method GetBalance(user: UserId) returns (balance: int)
      ensures balance == if user in users then users[user].credits else 0
      ensures Balanced(Snapshot()) ==> balance == Total(ledger, ByUser(user))
    {
      if user !in users && (forall e :: e in ledger ==> e.user in users) {
        NoneKept(ledger, ByUser(user));
      }
      balance := if user in users then users[user].credits else 0;
    }

    method Credit(user: UserId, amount: int, source: Source, reference: Option<string>) returns (r: Result<int, Error>)
      modifies this`users, this`ledger
      ensures match Credited(old(Snapshot()), user, amount, source, reference)
              case Ok(after) => Snapshot() == after && user in users && r == Ok(users[user].credits)
              case Err(e) => Snapshot() == old(Snapshot()) && r == Err(e)
    {
      if amount <= 0 {
        return Err(NotPositive);
      }
      if user !in users {
        return Err(UserMissing);
      }
      users := users[user := users[user].(credits := users[user].credits + amount)];
      ledger := ledger + [Entry(user, amount, source, reference, users[user].credits)];
      return Ok(users[user].credits);
    }

    method DebitIfSufficient(user: UserId, amount: int, source: Source, reference: Option<string>)
      returns (r: Result<bool, Error>)
      modifies this`users, this`ledger
      ensures match Debited(old(Snapshot()), user, amount, source, reference)
              case Ok(Some(after)) => Snapshot() == after && r == Ok(true)
              case Ok(None) => Snapshot() == old(Snapshot()) && r == Ok(false)
              case Err(e) => Snapshot() == old(Snapshot()) && r == Err(e)
    {
      if amount <= 0 {
        return Err(NotPositive);
      }
      if user !in users || users[user].credits < amount {
        return Ok(false);
      }
      users := users[user := users[user].(credits := users[user].credits - amount)];
      ledger := ledger + [Entry(user, -amount, source, reference, users[user].credits)];
      return Ok(true);
    }

    /** id is the order id that was drawn. */
    method PurchaseWithCredits(user: UserId, cost: int, days: int, id: string)
      returns (r: Result<Option<PurchaseResult>, Error>)
      modifies this
      ensures match Bought(old(Snapshot()), user, cost, days, id)
              case Ok(Some(after)) => Snapshot() == after && user in users
                                      && r == Ok(Some(PurchaseResult(id, days, cost, users[user].credits)))
              case Ok(None) => Snapshot() == old(Snapshot()) && r == Ok(None)
              case Err(e) => Snapshot() == old(Snapshot()) && r == Err(e)
    {
      if cost <= 0 || days <= 0 {
        return Err(NotPositive);
      }
      var debited := DebitIfSufficient(user, cost, Payment, Some(id));
      if debited != Ok(true) {
        return Ok(None);
      }
      var balance := GetBalance(user);
      orders := orders + [Order(id, user, days)];
      return Ok(Some(PurchaseResult(id, days, cost, balance)));
    }

    /** SELECT ... WHERE tg_id = tg: the first row, in no particular order. */
    method FindByTg(tg: TgId) returns (r: Option<UserId>)
      ensures Found(Snapshot(), tg, r)
    {
      if u :| u in users && users[u].tg == Some(tg) {
        return Some(u);
      }
      return None;
    }

    method ResolveRedeemer(tg: TgId) returns (r: Option<UserId>)
      ensures IsRedeemer(Snapshot(), tg, r)
    {
      r := FindByTg(tg);
      if r.None? && tg < 0 && -tg in users {
        r := Some(-tg);
      }
    }

    /** unused is the code the generator stopped at: the first it drew that nobody has. */
    method GetOrCreateReferralCode(tg: TgId, unused: Code) returns (code: Code)
      requires unused !in promos
      modifies this`promos
      ensures Snapshot() == WithReferralCode(old(Snapshot()), tg, unused)
      ensures code in promos && promos[code].tg == tg
    {
      if c :| c in promos && promos[c].tg == tg {
        return c;
      }
      promos := promos[unused := Promo(tg, true, 0, 0, None)];
      return unused;
    }

    method RedeemPromo(tg: TgId, code: Code, unused: Code, settings: Settings)
      returns (r: RedeemResult, ghost redeemer: Option<UserId>)
      requires unused !in promos
      modifies this
      ensures if CanRedeem(old(Snapshot()), tg, code) == Fine then IsRedeemer(old(Snapshot()), tg, redeemer)
              else redeemer == None
      ensures r.Granted? <==> Redeemable(old(Snapshot()), tg, code)
                              && exists u :: u in old(users) && Redeemer(old(Snapshot()), tg, u)
      ensures r.Granted? ==>
                && code in old(promos) && GrantIs(old(promos)[code], settings, r.grant)
                && redeemer.Some? && Redeemer(old(Snapshot()), tg, redeemer.value)
                && RedeemedBy(old(Snapshot()), Snapshot(), tg, code, unused, redeemer.value, r.grant)
      ensures match Redeemed(old(Snapshot()), tg, code, unused, settings, redeemer)
              case Ok(after) =>
                Snapshot() == after && code in promos && redeemer.Some? && redeemer.value in users
                && r == Granted(code, promos[code].referral, GrantOf(promos[code], settings),
                     users[redeemer.value].credits)
              case Err(reason) => Snapshot() == old(Snapshot()) && r == Refused(reason)
    {
      redeemer := None;
      CanRedeemIff(Snapshot(), tg, code);
      var reason := CanRedeem(Snapshot(), tg, code);
      if reason != Fine {
        return Refused(reason), redeemer;
      }
      var user := ResolveRedeemer(tg);
      redeemer := user;
      RedeemsIff(Snapshot(), tg, code, unused, settings, user);
      if user.None? {
        return Refused(NoUser), redeemer;
      }
      var promo := promos[code];
      var _ := GetOrCreateReferralCode(tg, unused);
      redemptions := redemptions + [Redemption(tg, code, promo.referral)];
      var grant := GrantOf(promo, settings);
      if grant > 0 {
        var _ := Credit(user.value, grant, PromoCode, Some(code));
      }
      var balance := GetBalance(user.value);
      return Granted(code, promo.referral, grant, balance), redeemer;
    }

    /** A purchase counts for the code its buyer redeemed last. */
    method RecordPurchase(buyer: TgId, days: int, settings: Settings)
      returns (r: Option<RewardInfo>, ghost payee: Option<UserId>)
      modifies this
      ensures IsPayee(old(Snapshot()), buyer, payee)
      ensures PurchaseCounts(old(Snapshot()), Snapshot(), buyer, days, settings)
      ensures Snapshot() == Rewarded(old(Snapshot()), buyer, days, settings, payee)
      ensures r.Some? <==> ledger != old(ledger)
      ensures r.Some? ==>
                var info := r.value;
                && RewardRoute(old(Snapshot()), buyer, payee) == Some((info.code, info.owner))
                && info.code in promos && info.code in old(promos)
                && info.ownerTg == promos[info.code].tg && info.days == promos[info.code].days
                && info.before == old(promos)[info.code].rewarded && info.after == promos[info.code].rewarded
                && info.points == info.after - info.before > 0
    {
      ghost var db := Snapshot();
      r, payee := CountPurchase(buyer, days, settings);
      RewardedCounts(db, buyer, days, settings, payee);
    }

    method CountPurchase(buyer: TgId, days: int, settings: Settings)
      returns (r: Option<RewardInfo>, ghost payee: Option<UserId>)
      modifies this
      ensures IsPayee(old(Snapshot()), buyer, payee)
      ensures Snapshot() == Rewarded(old(Snapshot()), buyer, days, settings, payee)
      ensures r.Some? <==> ledger != old(ledger)
      ensures r.Some? ==>
                var info := r.value;
                && RewardRoute(old(Snapshot()), buyer, payee) == Some((info.code, info.owner))
                && info.code in promos && info.code in old(promos)
                && info.ownerTg == promos[info.code].tg && info.days == promos[info.code].days
                && info.before == old(promos)[info.code].rewarded && info.after == promos[info.code].rewarded
                && info.points == info.after - info.before > 0
    {
      var redemption := Latest(redemptions, buyer);
      if redemption.None? || redemption.value.code !in promos {
        return None, None;
      }
      var code := redemption.value.code;
      var owner := FindByTg(promos[code].tg);
      payee := owner;
      if owner.None? {
        return None, None;
      }
      promos := promos[code := promos[code].(days := promos[code].days + days)];
      r := PayReward(code, owner.value, settings);
    }

    /** The owner is credited what the code's days have earned beyond what was paid for them. */
    method PayReward(code: Code, owner: UserId, settings: Settings) returns (r: Option<RewardInfo>)
      requires code in promos && owner in users
      modifies this
      ensures var db, p := old(Snapshot()), old(promos)[code];
              var due := RewardDue(p, settings);
              if due <= 0 then r == None && Snapshot() == db
              else && Snapshot() == Posted(db.(promos := db.promos[code := p.(rewarded := p.rewarded + due)]), owner,
                                           due, PromoCode, Some(ReferenceOf(code)))
                   && r == Some(RewardInfo(p.tg, owner, code, due, p.days, p.rewarded, p.rewarded + due))
    {
      var before := promos[code].rewarded;
      var reward := (promos[code].days / 30) * settings.rate - before;
      reward := Max(0, Min(reward, settings.cap - before));
      if reward <= 0 {
        return None;
      }
      promos := promos[code := promos[code].(rewarded := before + reward)];
      var _ := Credit(owner, reward, PromoCode, Some(ReferenceOf(code)));
      r := Some(RewardInfo(promos[code].tg, owner, code, reward, promos[code].days, before, before + reward));
    }

    /** The wallet's share of an account merge. */
    method MergeWallets(survivor: UserId, loser: UserId, tg: TgId)
      requires survivor in users && loser in users && survivor != loser
      modifies this
      ensures Snapshot() == Merged(old(Snapshot()), survivor, loser, tg)
    {
      var sum := users[survivor].credits + users[loser].credits;
      users := users[survivor := User(sum, Some(tg))];
      ledger := Reparented(ledger, loser, survivor);
      orders := OrdersMoved(orders, loser, survivor);
      users := users - {loser};
      assert users == (old(users) - {loser})[survivor := User(sum, Some(tg))];
    }
  }
}
