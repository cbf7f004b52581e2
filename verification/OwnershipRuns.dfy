/** Whole runs of the ownership graph: any sequence of the calls that touch it. */
module OwnershipRuns {
  import opened Wrappers
  import opened Ownership
  import opened Merge

  datatype Op =
    | Register(user: UserId, account: Account)
    | CreatePending(user: UserId, row: Pending)
    | Attach(user: UserId, rw: RwId, makePrimary: bool)
    | SetPrimary(user: UserId, rw: RwId)
    | Detach(user: UserId, rw: RwId)
    | FinalizeEmail(user: UserId, clock: int, now: string)
    | AttachInitial(user: UserId, rw: RwId)
    | AttachDelivered(user: UserId, rw: RwId)
    | MergeAccounts(s: UserId, sRw: Option<RwId>, l: UserId, lRw: Option<RwId>, survivorFirst: bool,
                    tgId: int, chosen: Option<RwId>, p: Option<RwId>)

  /** What the database commits: the new tables, or the old ones when the call raised. */
  function Committed(before: Db, r: Result<Db, Error>): Db {
    match r case Ok(after) => after case Err(_) => before
  }

  function CommittedFirst(before: Db, r: Result<(Db, OnboardingStatus), Error>): Db {
    match r case Ok(pair) => pair.0 case Err(_) => before
  }

  /** One call. A new account owns no profile yet; a second pending row of an account violates its
      primary key. */
  ghost predicate Next(before: Db, op: Op, after: Db) {
    match op
    case Register(u, a) =>
      after == if u in before.accounts then before else before.(accounts := before.accounts[u := a.(rw := None)])
    case CreatePending(u, row) =>
      after == if u in before.pending || u !in before.accounts then before
               else before.(pending := before.pending[u := row])
    case Attach(u, rw, mp) => after == Committed(before, Attached(before, u, rw, mp))
    case SetPrimary(u, rw) => after == Committed(before, PrimarySet(before, u, rw))
    case Detach(u, rw) => after == Committed(before, Detached(before, u, rw))
    case FinalizeEmail(u, clock, now) => after == CommittedFirst(before, Finalized(before, u, clock, now))
    case AttachInitial(u, rw) => after == CommittedFirst(before, InitialAttached(before, u, rw))
    case AttachDelivered(u, rw) => after == Committed(before, DeliveryAttached(before, u, rw))
    case MergeAccounts(s, sRw, l, lRw, first, tgId, chosen, p) =>
      if s in before.accounts && l in before.accounts && s != l then
        && ChosenAfterBackfill(before, s, sRw, l, lRw, first, p)
        && after == Committed(before, Merged(before, s, sRw, l, lRw, first, tgId, chosen, p))
      else after == before
  }

  /** Every call is harmless except a merge that projects a third account's profile. */
  predicate Harmless(before: Db, op: Op) {
    op.MergeAccounts? ==> !Stranded(before, op.s, op.sRw, op.l, op.lRw, op.chosen)
  }

  lemma PendingCollisionAborts(db: Db, s: UserId, sRw: Option<RwId>, l: UserId, lRw: Option<RwId>, first: bool,
                               tgId: int, chosen: Option<RwId>, p: Option<RwId>)
    requires OwnershipInv(db) && s in db.accounts && l in db.accounts && s != l
    requires s in db.pending && l in db.pending
    ensures Merged(db, s, sRw, l, lRw, first, tgId, chosen, p).Err?
  {
    BackfilledLinks(db, s, sRw, l, lRw, first);
  }

  /** One call keeps the invariant. */
  lemma NextKeeps(before: Db, op: Op, after: Db)
    requires OwnershipInv(before) && Next(before, op, after) && Harmless(before, op)
    ensures OwnershipInv(after)
  {
    match op
    case Register(u, a) =>
      forall v | v in after.accounts ensures Consistent(after, v) {
        assert v in before.accounts ==> Consistent(before, v);
      }
    case CreatePending(u, row) => BookkeepingKeeps(before, after);
    case Attach(u, rw, mp) => AttachKeeps(before, u, rw, mp);
    case SetPrimary(u, rw) => SetPrimaryKeeps(before, u, rw);
    case Detach(u, rw) => DetachKeeps(before, u, rw);
    case FinalizeEmail(u, clock, now) => if u in before.accounts { FinalizeKeeps(before, u, clock, now); }
    case AttachInitial(u, rw) => AttachInitialKeeps(before, u, rw);
    case AttachDelivered(u, rw) =>
      if u in before.accounts {
        DeliveryAttachKeeps(before, u, rw);
      }
    case MergeAccounts(s, sRw, l, lRw, first, tgId, chosen, p) =>
      if s in before.accounts && l in before.accounts && s != l {
        if s in before.pending && l in before.pending {
          PendingCollisionAborts(before, s, sRw, l, lRw, first, tgId, chosen, p);
        } else {
          MergeKeepsIff(before, s, sRw, l, lRw, first, tgId, chosen, p);
        }
      }
  }

  ghost predicate Run(states: seq<Db>, ops: seq<Op>) {
    && |states| == |ops| + 1
    && forall i :: 0 <= i < |ops| ==> Next(states[i], ops[i], states[i + 1])
  }

  /** Every reachable state keeps the ownership invariant. */
  lemma {:induction false} EveryReachableStateIsConsistent(states: seq<Db>, ops: seq<Op>, n: nat)
    requires Run(states, ops) && OwnershipInv(states[0]) && n <= |ops|
    requires forall i :: 0 <= i < |ops| ==> Harmless(states[i], ops[i])
    ensures OwnershipInv(states[n])
  {
    if n > 0 {
      EveryReachableStateIsConsistent(states, ops, n - 1);
      NextKeeps(states[n - 1], ops[n - 1], states[n]);
    }
  }

  /** The premise on merges is needed: accounts 1 and 2 have no link, the panel answers for
      account 1 with the secondary profile 11 of account 3, and the merge commits a projection
      of that profile. */
  lemma StrandedMergeBreaks(a: Account, b: Account, c: Account, db: Db)
    requires a.rw == None && b.rw == None && c.rw == Some(10)
    requires db == Db(map[1 := a, 2 := b, 3 := c],
                      map[10 := Link(0, 3, true), 11 := Link(1, 3, false)], 2, map[], map[], map[])
    ensures OwnershipInv(db)
    ensures var r := Merged(db, 2, None, 1, Some(11), false, 99, Some(11), None);
            && ChosenAfterBackfill(db, 2, None, 1, Some(11), false, None)
            && r.Ok? && r.value.accounts[2].rw == Some(11) && OwnedBy(r.value, 11, 3)
            && !OwnershipInv(r.value)
  {
    assert Consistent(db, 1) && Consistent(db, 2) && Consistent(db, 3);
    assert OwnedByOther(db, 11, 1);
    assert Backfilled(db, 2, None, 1, Some(11), false) == Ok(db);
    var r := Merged(db, 2, None, 1, Some(11), false, 99, Some(11), None);
    assert r == Applied(db, 2, 1, 99, Some(11), None);
    assert r.Ok?;
    assert !Consistent(r.value, 2);
  }
}
