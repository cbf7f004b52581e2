/** Who is paid, who may redeem and what a merge leaves, each read off the tables. */
module WalletAnswers {
  import opened Wrappers
  import opened Wallet

  // ---- rewards ----

  /** Row `i` is the last redemption of this person. */
  ghost predicate LastOf(redemptions: seq<Redemption>, tg: TgId, i: int) {
    && 0 <= i < |redemptions| && redemptions[i].tg == tg
    && forall j :: i < j < |redemptions| ==> redemptions[j].tg != tg
  }

  lemma {:induction false} LatestIs(redemptions: seq<Redemption>, tg: TgId)
    ensures match Latest(redemptions, tg)
            case Some(r) => exists i :: LastOf(redemptions, tg, i) && redemptions[i] == r
            case None => forall i :: !LastOf(redemptions, tg, i)
  {
    if redemptions != [] {
      var n := |redemptions| - 1;
      LatestIs(redemptions[..n], tg);
      if redemptions[n].tg == tg {
        assert LastOf(redemptions, tg, n);
      } else if Latest(redemptions[..n], tg).Some? {
        var i :| LastOf(redemptions[..n], tg, i) && redemptions[..n][i] == Latest(redemptions[..n], tg).value;
        assert LastOf(redemptions, tg, i);
      } else {
        forall i ensures !LastOf(redemptions, tg, i) {
          assert !LastOf(redemptions[..n], tg, i);
        }
      }
    }
  }

  ghost predicate HasOwner(db: Db, code: Code) {
    code in db.promos && exists u :: u in db.users && db.users[u].tg == Some(db.promos[code].tg)
  }

  /** What a code gains in points when its days become this many: what they have earned by now, under the cap,
      beyond what it had. */
  ghost predicate RiseIs(p: Promo, days: int, settings: Settings, rise: int) {
    var due := (days / 30) * settings.rate;
    if due <= p.rewarded || settings.cap <= p.rewarded then rise == 0
    else if due <= settings.cap then p.rewarded + rise == due
    else p.rewarded + rise == settings.cap
  }

  /** The purchase counts for this code, and its reward goes to this account. */
  ghost predicate RewardedTo(db: Db, after: Db, code: Code, owner: UserId, days: int, settings: Settings, rise: int) {
    && code in db.promos && owner in db.users && db.users[owner].tg == Some(db.promos[code].tg)
    && RiseIs(db.promos[code], db.promos[code].days + days, settings, rise)
    && after.promos == db.promos[code := db.promos[code].(days := db.promos[code].days + days,
                                                          rewarded := db.promos[code].rewarded + rise)]
    && after.users == db.users[owner := db.users[owner].(credits := db.users[owner].credits + rise)]
    && after.ledger == db.ledger + (if rise == 0 then [] else
                                      [Entry(owner, rise, PromoCode, Some("referral:" + code),
                                             db.users[owner].credits + rise)])
    && after.redemptions == db.redemptions && after.orders == db.orders
  }

  /** A purchase counts for the code its buyer redeemed last, if that code exists and its owner has an account,
      and for no other code. */
  ghost predicate PurchaseCounts(db: Db, after: Db, buyer: TgId, days: int, settings: Settings) {
    && (forall i :: LastOf(db.redemptions, buyer, i) && HasOwner(db, db.redemptions[i].code) ==>
          exists owner, rise :: RewardedTo(db, after, db.redemptions[i].code, owner, days, settings, rise))
    && ((forall i :: LastOf(db.redemptions, buyer, i) ==> !HasOwner(db, db.redemptions[i].code)) ==> after == db)
  }

  lemma OneIsLast(redemptions: seq<Redemption>, tg: TgId, i: int, j: int)
    requires LastOf(redemptions, tg, i) && LastOf(redemptions, tg, j)
    ensures i == j
  {
  }

  lemma RewardedCounts(db: Db, buyer: TgId, days: int, settings: Settings, payee: Option<UserId>)
    requires (payee.Some? ==> payee.value in db.users) && IsPayee(db, buyer, payee)
    ensures PurchaseCounts(db, Rewarded(db, buyer, days, settings, payee), buyer, days, settings)
  {
    var after := Rewarded(db, buyer, days, settings, payee);
    LatestIs(db.redemptions, buyer);
    if Latest(db.redemptions, buyer).Some? {
      var i :| LastOf(db.redemptions, buyer, i) && db.redemptions[i] == Latest(db.redemptions, buyer).value;
      forall j | LastOf(db.redemptions, buyer, j) ensures j == i { OneIsLast(db.redemptions, buyer, i, j); }
      var code := db.redemptions[i].code;
      if code in db.promos && payee.Some? {
        RewardIsPaid(db, buyer, days, settings, payee);
      }
    }
  }

  lemma RewardIsPaid(db: Db, buyer: TgId, days: int, settings: Settings, payee: Option<UserId>)
    requires payee.Some? && payee.value in db.users && IsPayee(db, buyer, payee) && RewardCode(db, buyer).Some?
    ensures exists rise :: RewardedTo(db, Rewarded(db, buyer, days, settings, payee), RewardCode(db, buyer).value,
                                      payee.value, days, settings, rise)
  {
    RewardStep(db, buyer, days, settings, payee);
    var p := db.promos[RewardCode(db, buyer).value];
    var rise := Max(p.rewarded, Earned(p.days + days, settings)) - p.rewarded;
    assert RiseIs(p, p.days + days, settings, rise);
    assert ReferenceOf(RewardCode(db, buyer).value) == "referral:" + RewardCode(db, buyer).value;
    assert RewardedTo(db, Rewarded(db, buyer, days, settings, payee), RewardCode(db, buyer).value, payee.value, days,
                      settings, rise);
  }

  /** Whatever a purchase changes about a code, it is the code its buyer redeemed last. */
  lemma OnlyTheLastCodeMoves(db: Db, after: Db, buyer: TgId, days: int, settings: Settings, code: Code)
    requires PurchaseCounts(db, after, buyer, days, settings) && code in db.promos
    requires code !in after.promos || after.promos[code] != db.promos[code]
    ensures exists i :: LastOf(db.redemptions, buyer, i) && db.redemptions[i].code == code
  {
    var i :| LastOf(db.redemptions, buyer, i) && HasOwner(db, db.redemptions[i].code);
    var owner, rise :| RewardedTo(db, after, db.redemptions[i].code, owner, days, settings, rise);
  }

  // ---- redemptions ----

  ghost predicate RedeemedBefore(db: Db, tg: TgId, code: Code) {
    exists i :: 0 <= i < |db.redemptions| && db.redemptions[i].tg == tg && db.redemptions[i].code == code
  }

  ghost predicate ReferredBefore(db: Db, tg: TgId) {
    exists i :: 0 <= i < |db.redemptions| && db.redemptions[i].tg == tg && db.redemptions[i].referral
  }

  ghost predicate HasOrdered(db: Db, tg: TgId) {
    exists i, u :: 0 <= i < |db.orders| && db.orders[i].user == u && u in db.users && db.users[u].tg == Some(tg)
  }

  /** A code is redeemable unless it is unknown, one's own or used before; a referral code moreover only by
      someone who was never referred and never ordered. */
  ghost predicate Redeemable(db: Db, tg: TgId, code: Code) {
    && code != "" && code in db.promos && db.promos[code].tg != tg && !RedeemedBefore(db, tg, code)
    && (db.promos[code].referral ==> !ReferredBefore(db, tg) && !HasOrdered(db, tg))
  }

  lemma CanRedeemIff(db: Db, tg: TgId, code: Code)
    ensures CanRedeem(db, tg, code) == Fine <==> Redeemable(db, tg, code)
    ensures !Redeemable(db, tg, code) ==>
              CanRedeem(db, tg, code)
              == if code == "" || code !in db.promos then Invalid
                 else if db.promos[code].tg == tg then OwnCode
                 else if RedeemedBefore(db, tg, code) then AlreadyUsed
                 else if ReferredBefore(db, tg) then ReferralOnlyOne
                 else ReferralNotNew
  {
    assert RedeemedBefore(db, tg, code) <==> exists r :: r in db.redemptions && r.tg == tg && r.code == code;
    assert ReferredBefore(db, tg) <==> exists r :: r in db.redemptions && r.tg == tg && r.referral;
    HasOrderedIff(db, tg);
  }

  lemma HasOrderedIff(db: Db, tg: TgId)
    ensures HasTransaction(db, tg) <==> HasOrdered(db, tg)
  {
    if HasTransaction(db, tg) {
      var o :| o in db.orders && o.user in db.users && db.users[o.user].tg == Some(tg);
      var i :| 0 <= i < |db.orders| && db.orders[i] == o;
      assert db.orders[i].user == o.user;
    }
    if HasOrdered(db, tg) {
      var i, u :| 0 <= i < |db.orders| && db.orders[i].user == u && u in db.users && db.users[u].tg == Some(tg);
      assert db.orders[i] in db.orders;
    }
  }

  /** The account of whoever redeems: one with their tg id, or, if nobody has it and it is negative, the row
      of that number. */
  ghost predicate Redeemer(db: Db, tg: TgId, u: UserId) {
    && u in db.users
    && (db.users[u].tg == Some(tg) || (tg < 0 && u == -tg && forall v :: v in db.users ==> db.users[v].tg != Some(tg)))
  }

  ghost predicate GrantIs(p: Promo, settings: Settings, grant: int) {
    match p.grant case Some(own) => grant == own case None => grant == settings.defaultGrant
  }

  /** A redemption is logged, its grant credited if positive, and a person without a code of their own gets one. */
  ghost predicate RedeemedBy(db: Db, after: Db, tg: TgId, code: Code, unused: Code, u: UserId, grant: int)
    requires code in db.promos && u in db.users
  {
    && after.redemptions == db.redemptions + [Redemption(tg, code, db.promos[code].referral)]
    && after.promos == (if exists c :: c in db.promos && db.promos[c].tg == tg then db.promos
                        else db.promos[unused := Promo(tg, true, 0, 0, None)])
    && after.orders == db.orders
    && (grant <= 0 ==> after.users == db.users && after.ledger == db.ledger)
    && (grant > 0 ==>
          && after.users == db.users[u := db.users[u].(credits := db.users[u].credits + grant)]
          && after.ledger == db.ledger + [Entry(u, grant, PromoCode, Some(code), db.users[u].credits + grant)])
  }

  /** A redemption succeeds if and only if the code is redeemable and the person has an account. */
  lemma RedeemsIff(db: Db, tg: TgId, code: Code, unused: Code, settings: Settings, redeemer: Option<UserId>)
    requires unused !in db.promos && IsRedeemer(db, tg, redeemer)
    requires redeemer.Some? ==> redeemer.value in db.users
    ensures redeemer.Some? ==> Redeemer(db, tg, redeemer.value)
    ensures redeemer.None? ==> forall u :: !Redeemer(db, tg, u)
    ensures match Redeemed(db, tg, code, unused, settings, redeemer)
            case Ok(after) =>
              && Redeemable(db, tg, code) && redeemer.Some?
              && forall grant :: GrantIs(db.promos[code], settings, grant) ==>
                   RedeemedBy(db, after, tg, code, unused, redeemer.value, grant)
            case Err(reason) =>
              if Redeemable(db, tg, code) then redeemer.None? && reason == NoUser
              else reason == CanRedeem(db, tg, code)
  {
    CanRedeemIff(db, tg, code);
  }

  // ---- merges ----

  /** Ledger rows and orders keep their places and contents; those of the loser are the survivor's. */
  lemma MergeMovesRows(db: Db, survivor: UserId, loser: UserId, tg: TgId)
    requires survivor in db.users && loser in db.users && survivor != loser
    ensures var after := Merged(db, survivor, loser, tg);
            && after.users.Keys == db.users.Keys - {loser} && after.users[survivor].tg == Some(tg)
            && after.users[survivor].credits == db.users[survivor].credits + db.users[loser].credits
            && (forall u :: u in after.users && u != survivor ==> after.users[u] == db.users[u])
            && |after.ledger| == |db.ledger| && |after.orders| == |db.orders|
            && (forall i :: 0 <= i < |db.ledger| ==>
                  after.ledger[i] == db.ledger[i].(user := NewOwner(db.ledger[i].user, survivor, loser)))
            && (forall i :: 0 <= i < |db.orders| ==>
                  after.orders[i] == db.orders[i].(user := NewOwner(db.orders[i].user, survivor, loser)))
            && after.promos == db.promos && after.redemptions == db.redemptions
  {
  }

  function NewOwner(u: UserId, survivor: UserId, loser: UserId): UserId { if u == loser then survivor else u }

  /** Who has ordered with either account is no newcomer afterwards. */
  lemma MergeKeepsOrderHistory(db: Db, survivor: UserId, loser: UserId, tg: TgId)
    requires survivor in db.users && loser in db.users && survivor != loser
    requires exists i :: 0 <= i < |db.orders| && (db.orders[i].user == survivor || db.orders[i].user == loser)
    ensures HasOrdered(Merged(db, survivor, loser, tg), tg)
  {
    MergeMovesRows(db, survivor, loser, tg);
    var i :| 0 <= i < |db.orders| && (db.orders[i].user == survivor || db.orders[i].user == loser);
    assert Merged(db, survivor, loser, tg).orders[i].user == survivor;
  }
}
