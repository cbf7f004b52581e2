/** Which account owns which Remnawave profile: the `user_subscriptions` table and its
    projection `users.rw_id`. `Db` is the value of the tables and the functions say what each
    repository call makes of it; `AccountStore` performs the calls in place. Links are keyed
    by their unique column `rw_id`; the row id is kept for ordering. */
module Ownership {
  import opened Wrappers

  type UserId = int
  type RwId = int

  datatype Link = Link(id: nat, user: UserId, primary: bool)

  /** Nullable text columns of `users` that a merge copies when the survivor's is empty. */
  datatype TextField = PasswordHash | PasswordUpdatedAt | EmailVerifiedAt | Username | Language | ApiProvider

  datatype Account = Account(
    rw: Option<RwId>,
    tgId: Option<int>,
    email: string,
    panelUuid: string,
    texts: map<TextField, string>,
    vip: int,
    credits: int,
    onboarding: int)

  datatype Pending = Pending(rw: Option<RwId>, expiresAt: int)

  /** A row of any other table with a `user_id` column. */
  datatype RowKey = RowKey(table: string, id: int)

  datatype Db = Db(
    accounts: map<UserId, Account>,
    links: map<RwId, Link>,
    nextId: nat,
    pending: map<UserId, Pending>,
    owned: map<RowKey, UserId>,
    androidRefs: map<int, UserId>)

  datatype Error = AlreadyLinked | UserNotFound | PrimaryChangeRequired | OwnerConflict | IntegrityError

  // ---- the invariant of the ownership graph ----

  function LinksOf(db: Db, user: UserId): set<RwId> {
    set rw | rw in db.links && db.links[rw].user == user
  }

  predicate OwnedBy(db: Db, rw: RwId, user: UserId) {
    rw in db.links && db.links[rw].user == user
  }

  predicate OwnedByOther(db: Db, rw: RwId, user: UserId) {
    rw in db.links && db.links[rw].user != user
  }

  /** The check behind the unique index on `users.rw_id`. */
  predicate ProjectedByOther(db: Db, rw: RwId, user: UserId) {
    exists v :: v in db.accounts && v != user && db.accounts[v].rw == Some(rw)
  }

  /** An account without a projected profile has no link; otherwise the projected profile is
      linked to it and is its one primary. */
  ghost predicate Consistent(db: Db, user: UserId)
    requires user in db.accounts
  {
    match db.accounts[user].rw
    case None => forall rw :: rw in db.links ==> db.links[rw].user != user
    case Some(p) =>
      && OwnedBy(db, p, user)
      && forall rw :: rw in db.links && db.links[rw].user == user ==> (db.links[rw].primary <==> rw == p)
  }

  /** Foreign keys and row ids. */
  ghost predicate Tables(db: Db) {
    forall rw :: rw in db.links ==> db.links[rw].user in db.accounts && db.links[rw].id < db.nextId
  }

  ghost predicate OwnershipInv(db: Db) {
    Tables(db) && forall u :: u in db.accounts ==> Consistent(db, u)
  }

  lemma NoLinks(db: Db, user: UserId)
    requires user in db.accounts && Consistent(db, user)
    ensures LinksOf(db, user) == {} <==> db.accounts[user].rw.None?
    ensures db.accounts[user].rw.Some? ==> db.accounts[user].rw.value in LinksOf(db, user)
  {
    if db.accounts[user].rw.None? {
      forall rw ensures rw !in LinksOf(db, user) {
        assert rw in db.links ==> db.links[rw].user != user;
      }
    } else {
      assert db.accounts[user].rw.value in LinksOf(db, user);
    }
  }

  /** What the invariant says about one account, in the words of the schema: one owner per
      profile, one primary per account that has links, and the projection names it. */
  lemma InvMeaning(db: Db, user: UserId)
    requires OwnershipInv(db) && user in db.accounts
    ensures LinksOf(db, user) == {} <==> db.accounts[user].rw.None?
    ensures LinksOf(db, user) != {} ==>
              exists p :: db.accounts[user].rw == Some(p)
                          && (set rw | rw in LinksOf(db, user) && db.links[rw].primary) == {p}
    ensures forall v :: v in db.accounts && v != user && db.accounts[user].rw.Some?
                        ==> db.accounts[v].rw != db.accounts[user].rw
  {
    assert Consistent(db, user);
    NoLinks(db, user);
    if db.accounts[user].rw.Some? {
      var p := db.accounts[user].rw.value;
      var primaries := set rw | rw in LinksOf(db, user) && db.links[rw].primary;
      forall rw ensures rw in primaries <==> rw == p {
        assert rw in LinksOf(db, user) ==> rw in db.links;
      }
      assert primaries == {p};
      forall v | v in db.accounts && v != user ensures db.accounts[v].rw != Some(p) {
        assert Consistent(db, v);
      }
    }
  }

  /** Links and accounts of everybody but `user` are exactly what they were. */
  ghost predicate OthersUntouched(before: Db, after: Db, user: UserId) {
    && (forall rw :: rw in before.links && before.links[rw].user != user
          ==> rw in after.links && after.links[rw] == before.links[rw])
    && (forall rw :: rw in after.links && after.links[rw].user != user
          ==> rw in before.links && after.links[rw] == before.links[rw])
    && (forall v :: v != user ==> (v in before.accounts <==> v in after.accounts))
    && (forall v :: v in before.accounts && v != user ==> after.accounts[v] == before.accounts[v])
  }

  /** An operation on one account only has to keep that account consistent. */
  lemma LocalChangeKeeps(before: Db, after: Db, user: UserId)
    requires OwnershipInv(before) && OthersUntouched(before, after, user)
    requires user in after.accounts && Consistent(after, user)
    requires Tables(after)
    ensures OwnershipInv(after)
  {
    forall v | v in after.accounts ensures Consistent(after, v) {
      if v != user { assert Consistent(before, v); }
    }
  }

  lemma NotProjectedWhenNotOwned(db: Db, rw: RwId, user: UserId)
    requires OwnershipInv(db) && !OwnedByOther(db, rw, user)
    ensures !ProjectedByOther(db, rw, user)
  {
    forall v | v in db.accounts && v != user ensures db.accounts[v].rw != Some(rw) {
      assert Consistent(db, v);
    }
  }

  // ---- attach ----

  /** The table after `user` is linked to `rw`; the flags of the user's other links are
      dropped when the link becomes primary. */
  function WithLink(links: map<RwId, Link>, rw: RwId, link: Link, demote: bool): map<RwId, Link> {
    map r | r in links.Keys + {rw} ::
      if r == rw then link
      else if demote && links[r].user == link.user then links[r].(primary := false)
      else links[r]
  }

  function WithProjection(db: Db, user: UserId, rw: Option<RwId>): Db
    requires user in db.accounts
  {
    db.(accounts := db.accounts[user := db.accounts[user].(rw := rw)])
  }

  /** `subscriptions.attach`. */
  function Attached(db: Db, user: UserId, rw: RwId, makePrimary: bool): Result<Db, Error> {
    if OwnedByOther(db, rw, user) then Err(AlreadyLinked)
    else
      var promote := makePrimary || LinksOf(db, user) == {};
      var primary := promote || (rw in db.links && db.links[rw].primary);
      var id := if rw in db.links then db.links[rw].id else db.nextId;
      var linked := db.(links := WithLink(db.links, rw, Link(id, user, primary), promote),
                        nextId := if rw in db.links then db.nextId else db.nextId + 1);
      if !primary then Ok(linked)
      else if user !in db.accounts then Err(UserNotFound)
      else if ProjectedByOther(db, rw, user) then Err(IntegrityError)
      else Ok(WithProjection(linked, user, Some(rw)))
  }

  /** The effect on each row. */
  lemma AttachedRows(db: Db, user: UserId, rw: RwId, makePrimary: bool)
    requires Attached(db, user, rw, makePrimary).Ok?
    ensures var after := Attached(db, user, rw, makePrimary).value;
            var promote := makePrimary || LinksOf(db, user) == {};
            && after.links.Keys == db.links.Keys + {rw}
            && after.links[rw].user == user
            && (after.links[rw].primary <==> promote || (rw in db.links && db.links[rw].primary))
            && (forall r :: (r in db.links && r != rw
                             && (!promote || db.links[r].user != user || !db.links[r].primary)) ==>
                  after.links[r] == db.links[r])
            && (if after.links[rw].primary
                then user in db.accounts && after.accounts == db.accounts[user := db.accounts[user].(rw := Some(rw))]
                else after.accounts == db.accounts)
  {
  }

  lemma AttachedLinks(db: Db, user: UserId, rw: RwId, makePrimary: bool)
    requires Attached(db, user, rw, makePrimary).Ok?
    ensures LinksOf(Attached(db, user, rw, makePrimary).value, user) == LinksOf(db, user) + {rw}
  {
    var after := Attached(db, user, rw, makePrimary).value;
    forall r ensures r in LinksOf(after, user) <==> r in LinksOf(db, user) + {rw} {
      assert r in after.links <==> r in db.links || r == rw;
    }
  }

  lemma AttachedSparesOthers(db: Db, user: UserId, rw: RwId, makePrimary: bool)
    requires user in db.accounts && Attached(db, user, rw, makePrimary).Ok?
    ensures OthersUntouched(db, Attached(db, user, rw, makePrimary).value, user)
  {
  }

  /** What attaching does to the tables, row by row. */
  lemma AttachedLocally(db: Db, user: UserId, rw: RwId, makePrimary: bool)
    requires Tables(db) && user in db.accounts && Attached(db, user, rw, makePrimary).Ok?
    ensures var after := Attached(db, user, rw, makePrimary).value;
            && Tables(after) && OthersUntouched(db, after, user)
            && LinksOf(after, user) == LinksOf(db, user) + {rw}
            && after.links.Keys == db.links.Keys + {rw}
  {
    AttachedLinks(db, user, rw, makePrimary);
    AttachedSparesOthers(db, user, rw, makePrimary);
  }

  /** Attaching keeps the invariant, never trips a unique index, records the ownership, makes
      the profile primary when it must, and touches no other account. */
  lemma AttachKeeps(db: Db, user: UserId, rw: RwId, makePrimary: bool)
    requires OwnershipInv(db)
    ensures Attached(db, user, rw, makePrimary).Ok? <==> user in db.accounts && !OwnedByOther(db, rw, user)
    ensures Attached(db, user, rw, makePrimary).Ok? ==>
              var after := Attached(db, user, rw, makePrimary).value;
              && OwnershipInv(after) && OthersUntouched(db, after, user)
              && LinksOf(after, user) == LinksOf(db, user) + {rw}
              && after.accounts[user].rw
                 == (if makePrimary || LinksOf(db, user) == {} then Some(rw) else db.accounts[user].rw)
  {
    if user !in db.accounts {
      forall r ensures r !in LinksOf(db, user) {
        assert r in db.links ==> db.links[r].user in db.accounts;
      }
      assert LinksOf(db, user) == {};
    } else if !OwnedByOther(db, rw, user) {
      NotProjectedWhenNotOwned(db, rw, user);
      var after := Attached(db, user, rw, makePrimary).value;
      assert Consistent(db, user);
      NoLinks(db, user);
      AttachedLocally(db, user, rw, makePrimary);
      LocalChangeKeeps(db, after, user);
    }
  }

  // ---- set_primary ----

  /** `subscriptions.set_primary`; nothing happens when the link is not the user's. */
  function PrimarySet(db: Db, user: UserId, rw: RwId): Result<Db, Error> {
    if !OwnedBy(db, rw, user) then Ok(db)
    else if user !in db.accounts then Err(UserNotFound)
    else if ProjectedByOther(db, rw, user) then Err(IntegrityError)
    else Ok(WithProjection(db.(links := WithLink(db.links, rw, db.links[rw].(primary := true), true)), user, Some(rw)))
  }

  /** Choosing a primary always succeeds, keeps the invariant and changes no ownership. */
  lemma SetPrimaryKeeps(db: Db, user: UserId, rw: RwId)
    requires OwnershipInv(db)
    ensures PrimarySet(db, user, rw).Ok?
    ensures var after := PrimarySet(db, user, rw).value;
            && OwnershipInv(after)
            && OthersUntouched(db, after, user)
            && LinksOf(after, user) == LinksOf(db, user)
            && (OwnedBy(db, rw, user) ==> after.accounts[user].rw == Some(rw))
            && (!OwnedBy(db, rw, user) ==> after == db)
  {
    if OwnedBy(db, rw, user) {
      NotProjectedWhenNotOwned(db, rw, user);
      LocalChangeKeeps(db, PrimarySet(db, user, rw).value, user);
    }
  }

  // ---- detach ----

  /** `subscriptions.detach`. */
  function Detached(db: Db, user: UserId, rw: RwId): Result<Db, Error> {
    if !OwnedBy(db, rw, user) then Ok(db)
    else
      var total := |LinksOf(db, user)|;
      if db.links[rw].primary && total > 1 then Err(PrimaryChangeRequired)
      else
        var unlinked := db.(links := db.links - {rw});
        if total != 1 then Ok(unlinked)
        else if user !in db.accounts then Err(UserNotFound)
        else Ok(WithProjection(unlinked, user, None))
  }

  lemma Singleton(s: set<RwId>, x: RwId)
    requires x in s
    ensures |s| == 1 <==> s == {x}
    ensures |s| >= 1
  {
    assert s == (s - {x}) + {x};
    assert |s| == |s - {x}| + 1;
  }

  /** Detaching removes exactly that link and keeps the invariant; it is refused exactly for
      the primary of an account with further links. */
  lemma DetachKeeps(db: Db, user: UserId, rw: RwId)
    requires OwnershipInv(db)
    ensures Detached(db, user, rw).Err? <==>
            OwnedBy(db, rw, user) && db.links[rw].primary && LinksOf(db, user) != {rw}
    ensures Detached(db, user, rw).Ok? ==>
              var after := Detached(db, user, rw).value;
              && OwnershipInv(after)
              && OthersUntouched(db, after, user)
              && LinksOf(after, user) == LinksOf(db, user) - {rw}
  {
    if OwnedBy(db, rw, user) {
      Singleton(LinksOf(db, user), rw);
      if Detached(db, user, rw).Ok? {
        var after := Detached(db, user, rw).value;
        assert Consistent(db, user);
        assert LinksOf(after, user) == LinksOf(db, user) - {rw};
        if LinksOf(db, user) == {rw} {
          forall r | r in after.links ensures after.links[r].user != user {
            assert r !in LinksOf(after, user);
          }
        } else {
          assert db.accounts[user].rw.value in LinksOf(db, user);
        }
        LocalChangeKeeps(db, after, user);
      }
    }
  }

  // ---- onboarding ----

  datatype OnboardingStatus = NowAttached | AwaitingOauth | AlreadyAttached | SkippedNonempty | Conflict | Nothing

  function WithoutPending(db: Db, user: UserId): Db {
    db.(pending := db.pending - {user})
  }

  function EmailVerified(db: Db, user: UserId, now: string): Db
    requires user in db.accounts
  {
    var a := db.accounts[user];
    db.(accounts := db.accounts[user := a.(texts := a.texts[EmailVerifiedAt := now])])
  }

  /** `finalize_email_verification` at time `clock`, stamped `now`. */
  function Finalized(db: Db, user: UserId, clock: int, now: string): Result<(Db, OnboardingStatus), Error> {
    if user !in db.accounts then Err(UserNotFound)
    else
      var verified := EmailVerified(db, user, now);
      if user !in db.pending then Ok((verified, Nothing))
      else if db.pending[user].expiresAt <= clock then Ok((WithoutPending(verified, user), Nothing))
      else
        var rw := db.pending[user].rw;
        if LinksOf(db, user) != {} then
          Ok((WithoutPending(verified, user),
              if rw.Some? && OwnedBy(db, rw.value, user) then AlreadyAttached else SkippedNonempty))
        else if rw.None? then Ok((verified, AwaitingOauth))
        else if OwnedByOther(db, rw.value, user) then Ok((WithoutPending(verified, user), Conflict))
        else
          match Attached(verified, user, rw.value, true)
          case Err(e) => Err(e)
          case Ok(attached) => Ok((WithoutPending(attached, user), NowAttached))
  }

  /** Changing nothing but texts and pending rows keeps the ownership graph. */
  lemma BookkeepingKeeps(before: Db, after: Db)
    requires OwnershipInv(before)
    requires after.links == before.links && after.nextId == before.nextId
    requires after.accounts.Keys == before.accounts.Keys
    requires forall v :: v in before.accounts ==> after.accounts[v].rw == before.accounts[v].rw
    ensures OwnershipInv(after)
    ensures forall v :: LinksOf(after, v) == LinksOf(before, v)
  {
    forall v | v in after.accounts ensures Consistent(after, v) {
      assert Consistent(before, v);
    }
  }

  /** A live, free pending profile of an account without links: the one case that attaches. */
  predicate CanOnboard(db: Db, user: UserId, clock: int) {
    && user in db.pending && db.pending[user].expiresAt > clock
    && LinksOf(db, user) == {} && db.pending[user].rw.Some?
    && db.pending[user].rw.value !in db.links
  }

  /** Verification succeeds for every existing account, keeps the invariant, attaches exactly
      when it can, and keeps a pending row only while waiting for the OAuth step. */
  lemma FinalizeKeeps(db: Db, user: UserId, clock: int, now: string)
    requires OwnershipInv(db) && user in db.accounts
    ensures Finalized(db, user, clock, now).Ok?
    ensures var (after, status) := Finalized(db, user, clock, now).value;
            && OwnershipInv(after)
            && (status == NowAttached <==> CanOnboard(db, user, clock))
            && (status == NowAttached ==> after.accounts[user].rw == db.pending[user].rw)
            && (status != NowAttached ==> after.links == db.links)
            && (user in after.pending ==> status == AwaitingOauth)
  {
    var verified := EmailVerified(db, user, now);
    BookkeepingKeeps(db, verified);
    BookkeepingKeeps(verified, WithoutPending(verified, user));
    if CanOnboard(db, user, clock) {
      var rw := db.pending[user].rw.value;
      AttachKeeps(verified, user, rw, true);
      var attached := Attached(verified, user, rw, true).value;
      BookkeepingKeeps(attached, WithoutPending(attached, user));
    } else if user in db.pending && db.pending[user].rw.Some? && OwnedBy(db, db.pending[user].rw.value, user) {
      assert db.pending[user].rw.value in LinksOf(db, user);
    }
  }

  /** `attach_initial`. */
  function InitialAttached(db: Db, user: UserId, rw: RwId): Result<(Db, OnboardingStatus), Error> {
    if user !in db.accounts then Err(UserNotFound)
    else if OwnedByOther(db, rw, user) then Err(AlreadyLinked)
    else if OwnedBy(db, rw, user) then Ok((WithoutPending(db, user), AlreadyAttached))
    else if LinksOf(db, user) != {} then Ok((WithoutPending(db, user), SkippedNonempty))
    else
      match Attached(db, user, rw, true)
      case Err(e) => Err(e)
      case Ok(attached) => Ok((WithoutPending(attached, user), NowAttached))
  }

  lemma AttachInitialKeeps(db: Db, user: UserId, rw: RwId)
    requires OwnershipInv(db)
    ensures InitialAttached(db, user, rw).Ok? <==> user in db.accounts && !OwnedByOther(db, rw, user)
    ensures InitialAttached(db, user, rw).Ok? ==>
              var (after, status) := InitialAttached(db, user, rw).value;
              && OwnershipInv(after)
              && user !in after.pending
              && (status == NowAttached <==> LinksOf(db, user) == {})
              && (status == NowAttached ==> after.accounts[user].rw == Some(rw))
              && (status != NowAttached ==> after.links == db.links)
  {
    if user in db.accounts && !OwnedByOther(db, rw, user) {
      BookkeepingKeeps(db, WithoutPending(db, user));
      AttachKeeps(db, user, rw, true);
      var attached := Attached(db, user, rw, true).value;
      BookkeepingKeeps(attached, WithoutPending(attached, user));
      assert OwnedBy(db, rw, user) ==> rw in LinksOf(db, user);
    }
  }

  // ---- delivery ----

  /** The account part of `_attach_subscription`. */
  function DeliveryAttached(db: Db, user: UserId, rw: RwId): Result<Db, Error> {
    if OwnedByOther(db, rw, user) then Err(OwnerConflict)
    else if OwnedBy(db, rw, user) then Ok(db)
    else if ProjectedByOther(db, rw, user) then Err(OwnerConflict)
    else if user !in db.accounts then Err(IntegrityError)
    else
      var first := LinksOf(db, user) == {};
      var linked := db.(links := db.links[rw := Link(db.nextId, user, first)], nextId := db.nextId + 1);
      Ok(if first then WithProjection(linked, user, Some(rw)) else linked)
  }

  /** A delivery attaches exactly the profiles nobody else owns, and keeps the invariant. */
  lemma DeliveryAttachKeeps(db: Db, user: UserId, rw: RwId)
    requires OwnershipInv(db) && user in db.accounts
    ensures DeliveryAttached(db, user, rw).Ok? <==> !OwnedByOther(db, rw, user)
    ensures DeliveryAttached(db, user, rw).Ok? ==>
              var after := DeliveryAttached(db, user, rw).value;
              && OwnershipInv(after) && OthersUntouched(db, after, user)
              && LinksOf(after, user) == LinksOf(db, user) + {rw}
  {
    if !OwnedByOther(db, rw, user) {
      NotProjectedWhenNotOwned(db, rw, user);
      var after := DeliveryAttached(db, user, rw).value;
      assert Consistent(db, user);
      assert LinksOf(after, user) == LinksOf(db, user) + {rw};
      NoLinks(db, user);
      LocalChangeKeeps(db, after, user);
    }
  }
}
