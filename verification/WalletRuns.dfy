/** Whole runs of the wallet: conservation, running balances and referral rewards. */
module WalletRuns {
  import opened Wrappers
  import opened Wallet

  /** One transaction. Register, AddCode and PlaceOrder stand for the sign-up, admin and payment
      paths that put rows into these tables; redeemer and payee are what a look-up by tg id answers. */
  datatype Op =
    | Register(user: UserId, telegram: Option<TgId>)
    | AddCode(code: Code, owner: TgId, referral: bool, grant: Option<int>)
    | PlaceOrder(order: Order)
    | Credit(user: UserId, amount: int, source: Source, reference: Option<string>)
    | Debit(user: UserId, amount: int, source: Source, reference: Option<string>)
    | Buy(user: UserId, cost: int, days: int, id: string)
    | GetCode(tg: TgId, unused: Code)
    | Redeem(tg: TgId, code: Code, unused: Code, settings: Settings, redeemer: Option<UserId>)
    | Purchase(buyer: TgId, days: int, settings: Settings, payee: Option<UserId>)
    | Merge(survivor: UserId, loser: UserId, tg: TgId)

  /** A call that raises leaves the tables as they were. */
  ghost function Next(db: Db, op: Op): Db {
    match op
    case Register(user, tg) =>
      if user in db.users then db
      else db.(users := db.users[user := User(0, tg)])
    case AddCode(code, owner, referral, grant) =>
      if code in db.promos || HasCode(db, owner) then db
      else db.(promos := db.promos[code := Promo(owner, referral, 0, 0, grant)])
    case PlaceOrder(order) => db.(orders := db.orders + [order])
    case Credit(user, amount, source, reference) =>
      (match Credited(db, user, amount, source, reference)
       case Ok(after) => after
       case Err(_) => db)
    case Debit(user, amount, source, reference) =>
      (match Debited(db, user, amount, source, reference)
       case Ok(Some(after)) => after
       case _ => db)
    case Buy(user, cost, days, id) =>
      (match Bought(db, user, cost, days, id)
       case Ok(Some(after)) => after
       case _ => db)
    case GetCode(tg, unused) => if unused in db.promos then db else WithReferralCode(db, tg, unused)
    case Redeem(tg, code, unused, settings, redeemer) =>
      if unused in db.promos || !IsRedeemer(db, tg, redeemer) then db
      else (match Redeemed(db, tg, code, unused, settings, redeemer)
            case Ok(after) => after
            case Err(_) => db)
    case Purchase(buyer, days, settings, payee) =>
      if IsPayee(db, buyer, payee) then Rewarded(db, buyer, days, settings, payee) else db
    case Merge(survivor, loser, tg) =>
      if survivor in db.users && loser in db.users && survivor != loser then Merged(db, survivor, loser, tg) else db
  }

  /** Codes and the references of other payments do not spell a referral reference. */
  ghost predicate Honest(op: Op) {
    match op
    case AddCode(code, _, _, _) => !IsReferral(code)
    case Credit(_, _, _, reference) => reference.Some? ==> !IsReferral(reference.value)
    case Debit(_, _, _, reference) => reference.Some? ==> !IsReferral(reference.value)
    case Buy(_, _, _, id) => !IsReferral(id)
    case GetCode(_, unused) => !IsReferral(unused)
    case Redeem(_, _, unused, _, _) => !IsReferral(unused)
    case _ => true
  }

  ghost function Run(db: Db, ops: seq<Op>): Db
    decreases |ops|
  {
    if ops == [] then db else Run(Next(db, ops[0]), ops[1..])
  }

  lemma RegisterKeeps(db: Db, user: UserId, tg: Option<TgId>)
    requires Inv(db)
    ensures Inv(Next(db, Register(user, tg)))
  {
    if user !in db.users {
      NoneKept(db.ledger, ByUser(user));
    }
  }

  lemma CodeKeeps(db: Db, op: Op)
    requires Inv(db) && Honest(op) && (op.AddCode? || op.GetCode?)
    ensures Inv(Next(db, op))
  {
    match op
    case AddCode(code, owner, referral, grant) =>
      if code !in db.promos && !HasCode(db, owner) {
        NewCodeKeeps(db, code, Promo(owner, referral, 0, 0, grant));
      }
    case GetCode(tg, unused) =>
      if unused !in db.promos && !HasCode(db, tg) {
        NewCodeKeeps(db, unused, Promo(tg, true, 0, 0, None));
      }
    case _ =>
  }

  lemma PaymentKeeps(db: Db, op: Op)
    requires Inv(db) && Honest(op) && (op.Credit? || op.Debit?)
    ensures Inv(Next(db, op))
  {
    match op
    case Credit(user, amount, source, reference) =>
      if amount > 0 && user in db.users {
        PostedKeeps(db, user, amount, source, reference);
      }
    case Debit(user, amount, source, reference) =>
      if amount > 0 && user in db.users && db.users[user].credits >= amount {
        PostedKeeps(db, user, -amount, source, reference);
      }
    case _ =>
  }

  lemma NextKeeps(db: Db, op: Op)
    requires Inv(db) && Honest(op)
    ensures Inv(Next(db, op))
  {
    match op
    case Register(user, tg) => RegisterKeeps(db, user, tg);
    case PlaceOrder(_) =>
    case Credit(_, _, _, _) => PaymentKeeps(db, op);
    case Debit(_, _, _, _) => PaymentKeeps(db, op);
    case AddCode(_, _, _, _) => CodeKeeps(db, op);
    case GetCode(_, _) => CodeKeeps(db, op);
    case Buy(user, cost, days, id) => BoughtKeeps(db, user, cost, days, id);
    case Redeem(tg, code, unused, settings, redeemer) =>
      if unused !in db.promos && IsRedeemer(db, tg, redeemer) {
        RedeemedKeeps(db, tg, code, unused, settings, redeemer);
      }
    case Purchase(buyer, days, settings, payee) =>
      if IsPayee(db, buyer, payee) {
        RewardedKeeps(db, buyer, days, settings, payee);
      }
    case Merge(survivor, loser, tg) =>
      if survivor in db.users && loser in db.users && survivor != loser {
        MergedKeeps(db, survivor, loser, tg);
      }
  }

  /** Whatever is credited, debited, redeemed, rewarded, bought and merged, every balance stays
      non-negative and the sum of its account's ledger, and every redemption rule holds of the log. */
  lemma {:induction false} EveryBalanceIsItsLedger(db: Db, ops: seq<Op>)
    requires Inv(db) && forall op :: op in ops ==> Honest(op)
    ensures Inv(Run(db, ops))
    decreases |ops|
  {
    if ops != [] {
      NextKeeps(db, ops[0]);
      EveryBalanceIsItsLedger(Next(db, ops[0]), ops[1..]);
    }
  }

  // ---- running balances ----

  ghost predicate RunningAt(ledger: seq<Entry>, user: UserId, i: nat)
    requires i < |ledger|
  {
    ledger[i].user == user ==> ledger[i].balanceAfter == Total(ledger[..i + 1], ByUser(user))
  }

  /** Every row's balance_after is the sum of the account's rows up to it. */
  ghost predicate Running(db: Db, user: UserId) {
    forall i :: 0 <= i < |db.ledger| ==> RunningAt(db.ledger, user, i)
  }

  lemma PostedRuns(db: Db, poster: UserId, amount: int, source: Source, reference: Option<string>, user: UserId)
    requires Running(db, user) && poster in db.users
    requires db.users[poster].credits == Total(db.ledger, ByUser(poster))
    ensures Running(Posted(db, poster, amount, source, reference), user)
  {
    var after := Posted(db, poster, amount, source, reference).ledger;
    forall i | 0 <= i < |after|
      ensures RunningAt(after, user, i)
    {
      if i < |db.ledger| {
        assert RunningAt(db.ledger, user, i);
        assert after[..i + 1] == db.ledger[..i + 1];
      } else {
        assert after[..i + 1] == after;
        TotalOfMore(db.ledger, after[i], ByUser(poster));
      }
    }
  }

  lemma MergedRuns(db: Db, survivor: UserId, loser: UserId, tg: TgId, user: UserId)
    requires Running(db, user) && survivor in db.users && loser in db.users && survivor != loser
    requires user != survivor
    ensures Running(Merged(db, survivor, loser, tg), user)
  {
    var after := Reparented(db.ledger, loser, survivor);
    forall i | 0 <= i < |after|
      ensures RunningAt(after, user, i)
    {
      assert RunningAt(db.ledger, user, i);
      assert after[..i + 1] == Reparented(db.ledger[..i + 1], loser, survivor);
      ReparentedTotals(db.ledger[..i + 1], loser, survivor, user, "");
    }
  }

  lemma NextRuns(db: Db, op: Op, user: UserId)
    requires Balanced(db) && Running(db, user)
    requires op.Merge? ==> op.survivor != user
    ensures Running(Next(db, op), user)
  {
    var after := Next(db, op);
    if op.Merge? {
      if after != db {
        MergedRuns(db, op.survivor, op.loser, op.tg, user);
      }
    } else if after.ledger != db.ledger {
      NextPostsOnce(db, op);
      var e := after.ledger[|db.ledger|];
      PostedRuns(db, e.user, e.amount, e.source, e.reference, user);
      assert Posted(db, e.user, e.amount, e.source, e.reference).ledger == after.ledger;
    }
  }

  /** Apart from merges a transaction adds at most one ledger row, the one its balance moved by. */
  lemma NextPostsOnce(db: Db, op: Op)
    requires !op.Merge? && Next(db, op).ledger != db.ledger
    ensures var after := Next(db, op);
            && |after.ledger| == |db.ledger| + 1
            && var e := after.ledger[|db.ledger|];
            && e.user in db.users
            && after.ledger == Posted(db, e.user, e.amount, e.source, e.reference).ledger
  {
    if op.Purchase? && IsPayee(db, op.buyer, op.payee) {
      RewardStep(db, op.buyer, op.days, op.settings, op.payee);
    }
  }

  /** The history of an account that never absorbs another is a running balance. */
  lemma {:induction false} HistoryIsRunningBalance(db: Db, ops: seq<Op>, user: UserId)
    requires Inv(db) && Running(db, user) && forall op :: op in ops ==> Honest(op)
    requires forall op :: op in ops && op.Merge? ==> op.survivor != user
    ensures Running(Run(db, ops), user)
    decreases |ops|
  {
    if ops != [] {
      NextKeeps(db, ops[0]);
      NextRuns(db, ops[0], user);
      HistoryIsRunningBalance(Next(db, ops[0]), ops[1..], user);
    }
  }

  /** At every row of one account the rows of the other so far add up to nothing. */
  ghost predicate Apart(ledger: seq<Entry>, a: UserId, b: UserId) {
    forall i :: 0 <= i < |ledger| ==>
      && (ledger[i].user == a ==> Total(ledger[..i + 1], ByUser(b)) == 0)
      && (ledger[i].user == b ==> Total(ledger[..i + 1], ByUser(a)) == 0)
  }

  /** The merged history is a running balance if and only if each account stood at zero whenever the
      other moved. */
  lemma MergedRunsIff(db: Db, survivor: UserId, loser: UserId, tg: TgId)
    requires Running(db, survivor) && Running(db, loser)
    requires survivor in db.users && loser in db.users && survivor != loser
    ensures Running(Merged(db, survivor, loser, tg), survivor) <==> Apart(db.ledger, survivor, loser)
  {
    var after := Reparented(db.ledger, loser, survivor);
    forall i | 0 <= i < |after|
      ensures RunningAt(after, survivor, i)
              <==> && (db.ledger[i].user == survivor ==> Total(db.ledger[..i + 1], ByUser(loser)) == 0)
                   && (db.ledger[i].user == loser ==> Total(db.ledger[..i + 1], ByUser(survivor)) == 0)
    {
      assert RunningAt(db.ledger, survivor, i) && RunningAt(db.ledger, loser, i);
      assert after[..i + 1] == Reparented(db.ledger[..i + 1], loser, survivor);
      ReparentedTotals(db.ledger[..i + 1], loser, survivor, survivor, "");
    }
  }

  /** After a merge the interleaved rows no longer run: account 1 has 5, account 2 has 7, and 2 is
      merged into 1, whose second row then says 7 where its rows add up to 12. */
  lemma MergedHistoryIsNotRunning()
    ensures var db := Db(map[1 := User(5, None), 2 := User(7, Some(2))],
                         [Entry(1, 5, Admin, None, 5), Entry(2, 7, Admin, None, 7)], map[], [], []);
            Balanced(db) && Running(db, 1) && Running(db, 2) && !Running(Merged(db, 1, 2, 2), 1)
  {
    var first, second := Entry(1, 5, Admin, None, 5), Entry(2, 7, Admin, None, 7);
    var db := Db(map[1 := User(5, None), 2 := User(7, Some(2))], [first, second], map[], [], []);
    TwoRows(first, second, 1);
    TwoRows(first, second, 2);
    var after := Merged(db, 1, 2, 2).ledger;
    var moved := second.(user := 1);
    assert after == [first, moved];
    TwoRows(first, moved, 1);
    assert !RunningAt(after, 1, 1);
  }

  lemma TwoRows(first: Entry, second: Entry, user: UserId)
    ensures var a, b := if first.user == user then first.amount else 0, if second.user == user then second.amount
              else 0;
            && Total([first, second][..1], ByUser(user)) == a
            && Total([first, second][..2], ByUser(user)) == Total([first, second], ByUser(user)) == a + b
  {
    TotalOfMore([], first, ByUser(user));
    TotalOfMore([first], second, ByUser(user));
    assert [] + [first] == [first] == [first, second][..1];
    assert [first] + [second] == [first, second] == [first, second][..2];
  }

  // ---- referral rewards ----

  /** Except for the purchases counted for it, a code's counters stand still; new codes start at zero. */
  lemma NextCounters(db: Db, op: Op, code: Code)
    requires code in Next(db, op).promos
    ensures code !in db.promos ==> Next(db, op).promos[code].days == 0 && Next(db, op).promos[code].rewarded == 0
    ensures code in db.promos && !op.Purchase? ==> Next(db, op).promos[code] == db.promos[code]
  {
    if op.Purchase? && IsPayee(db, op.buyer, op.payee) {
      RewardStep(db, op.buyer, op.days, op.settings, op.payee);
    }
  }

  lemma NextKeepsCodes(db: Db, op: Op, code: Code)
    requires code in db.promos
    ensures code in Next(db, op).promos
  {
    if op.Purchase? && IsPayee(db, op.buyer, op.payee) {
      RewardStep(db, op.buyer, op.days, op.settings, op.payee);
    }
  }

  /** No transaction takes points back from a code, none takes it past the cap then in force. */
  lemma RewardsOnlyGrow(db: Db, op: Op, code: Code)
    requires code in db.promos
    ensures code in Next(db, op).promos
    ensures db.promos[code].rewarded <= Next(db, op).promos[code].rewarded
    ensures Next(db, op).promos[code].rewarded > db.promos[code].rewarded ==>
              op.Purchase? && Next(db, op).promos[code].rewarded <= op.settings.cap
  {
    NextKeepsCodes(db, op, code);
    NextCounters(db, op, code);
    if op.Purchase? && IsPayee(db, op.buyer, op.payee) {
      RewardStep(db, op.buyer, op.days, op.settings, op.payee);
    }
  }

  /** The largest cap a purchase of the run saw. */
  function HighestCap(ops: seq<Op>, floor: int): (r: int)
    ensures r >= floor
  {
    if ops == [] then floor
    else HighestCap(ops[1..], if ops[0].Purchase? then Max(floor, ops[0].settings.cap) else floor)
  }

  /** Over a whole run with changing settings. */
  lemma {:induction false} RewardsStayUnderTheCaps(db: Db, ops: seq<Op>, code: Code, ceiling: int)
    requires code in db.promos && db.promos[code].rewarded <= ceiling
    ensures code in Run(db, ops).promos
    ensures db.promos[code].rewarded <= Run(db, ops).promos[code].rewarded <= HighestCap(ops, ceiling)
    decreases |ops|
  {
    if ops != [] {
      RewardsOnlyGrow(db, ops[0], code);
      var higher := if ops[0].Purchase? then Max(ceiling, ops[0].settings.cap) else ceiling;
      RewardsStayUnderTheCaps(Next(db, ops[0]), ops[1..], code, higher);
    }
  }

  ghost predicate ClosedForm(db: Db, code: Code, settings: Settings)
    requires code in db.promos
  {
    db.promos[code].rewarded == Earned(db.promos[code].days, settings)
  }

  /** After a purchase the code meets the closed form of the settings in force if and only if it had not
      been paid more than that before, under whatever settings it was paid. */
  lemma ClosedFormIff(db: Db, buyer: TgId, days: int, settings: Settings, payee: Option<UserId>)
    requires payee.Some? ==> payee.value in db.users
    requires RewardRoute(db, buyer, payee).Some?
    ensures var code := RewardRoute(db, buyer, payee).value.0;
            var after := Rewarded(db, buyer, days, settings, payee);
            && code in after.promos
            && (ClosedForm(after, code, settings)
                <==> Earned(db.promos[code].days + days, settings) >= db.promos[code].rewarded)
  {
    RewardStep(db, buyer, days, settings, payee);
  }

  /** Lowered settings break it: 30 days at 10 points for each 30 have earned 10 points; the rate is then
      5, and after 29 more days the code still has 10 points where the closed form says 5. */
  lemma LoweredRateLeavesMore(db: Db, buyer: TgId, payee: UserId, cap: int)
    requires payee in db.users && cap >= 10
    requires RewardRoute(db, buyer, Some(payee)).Some?
    requires var p := db.promos[RewardRoute(db, buyer, Some(payee)).value.0]; p.days == 0 && p.rewarded == 0
    ensures var code := RewardRoute(db, buyer, Some(payee)).value.0;
            var high, low := Settings(10, cap, 0), Settings(5, cap, 0);
            var first := Rewarded(db, buyer, 30, high, Some(payee));
            && payee in first.users && code in first.promos && ClosedForm(first, code, high)
            && var second := Rewarded(first, buyer, 29, low, Some(payee));
            && code in second.promos && second.promos[code].rewarded == 10
            && Earned(second.promos[code].days, low) == 5 && !ClosedForm(second, code, low)
  {
    var high, low := Settings(10, cap, 0), Settings(5, cap, 0);
    RewardStep(db, buyer, 30, high, Some(payee));
    var first := Rewarded(db, buyer, 30, high, Some(payee));
    assert RewardRoute(first, buyer, Some(payee)) == RewardRoute(db, buyer, Some(payee));
    RewardStep(first, buyer, 29, low, Some(payee));
  }

  lemma EarnedGrows(days: int, more: int, settings: Settings)
    requires days <= more && settings.rate >= 0
    ensures Earned(days, settings) <= Earned(more, settings)
  {
    Multiples(days / 30, more / 30, settings.rate);
  }

  lemma Multiples(a: int, b: int, k: int)
    requires a <= b && k >= 0
    ensures a * k <= b * k
  {
  }

  /** A purchase under these settings, of no negative number of days. */
  predicate Steady(op: Op, settings: Settings) {
    op.Purchase? ==> op.settings == settings && op.days >= 0
  }

  lemma SteadyStep(db: Db, op: Op, settings: Settings, code: Code)
    requires Steady(op, settings) && settings.rate >= 0 && settings.cap >= 0
    requires forall c :: c in db.promos ==> ClosedForm(db, c, settings)
    requires code in Next(db, op).promos
    ensures ClosedForm(Next(db, op), code, settings)
  {
    NextCounters(db, op, code);
    if op.Purchase? && IsPayee(db, op.buyer, op.payee) {
      RewardStep(db, op.buyer, op.days, settings, op.payee);
      var route := RewardRoute(db, op.buyer, op.payee);
      if route.Some? && route.value.0 == code {
        EarnedGrows(db.promos[code].days, db.promos[code].days + op.days, settings);
      }
    }
  }

  /** Every code's rewards are min(cap, days / 30 * rate), and that is what the ledger paid out for it. */
  ghost predicate PaidInFull(db: Db, settings: Settings) {
    forall c :: c in db.promos ==>
      && db.promos[c].rewarded == Min(settings.cap, (db.promos[c].days / 30) * settings.rate)
      && Total(db.ledger, WithReference(ReferenceOf(c))) == db.promos[c].rewarded
  }

  /** With one rate and one cap, the rewards of every code are min(cap, days / 30 * rate) however its
      days were split into purchases, and they are what the ledger paid out under the code's name. */
  lemma {:induction false} RewardsTelescope(db: Db, ops: seq<Op>, settings: Settings)
    requires settings.rate >= 0 && settings.cap >= 0
    requires Inv(db) && forall c :: c in db.promos ==> ClosedForm(db, c, settings)
    requires forall op :: op in ops ==> Honest(op) && Steady(op, settings)
    ensures PaidInFull(Run(db, ops), settings)
    decreases |ops|
  {
    if ops == [] {
      forall c | c in db.promos
        ensures db.promos[c].rewarded == Min(settings.cap, (db.promos[c].days / 30) * settings.rate)
      {
        assert ClosedForm(db, c, settings);
      }
    } else {
      var next := Next(db, ops[0]);
      NextKeeps(db, ops[0]);
      forall c | c in next.promos
        ensures ClosedForm(next, c, settings)
      {
        SteadyStep(db, ops[0], settings, c);
      }
      RewardsTelescope(next, ops[1..], settings);
      assert Run(db, ops) == Run(next, ops[1..]);
    }
  }
}
