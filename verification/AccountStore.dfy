/** The repository calls on the account tables, performed in place. Every call is one database
    transaction: when it raises, the tables are what they were. */
module AccountStore {
  import opened Wrappers
  import opened Ownership

  class AccountStore {
    var accounts: map<UserId, Account>
    var links: map<RwId, Link>
    var nextId: nat
    var pending: map<UserId, Pending>
    var owned: map<RowKey, UserId>
    var androidRefs: map<int, UserId>

    /** The value of all the tables. */
    function Snapshot(): Db
      reads this
    {
      Db(accounts, links, nextId, pending, owned, androidRefs)
    }

    /** Back to the state before the transaction. */
    method Rollback(db: Db)
      modifies this
      ensures Snapshot() == db
    {
      accounts, links, nextId, pending := db.accounts, db.links, db.nextId, db.pending;
      owned, androidRefs := db.owned, db.androidRefs;
    }

    /** UPDATE user_subscriptions SET is_primary = false WHERE user_id = user. */
    method ClearPrimary(user: UserId)
      modifies this`links
      ensures links.Keys == old(links).Keys
      ensures forall r :: r in links ==>
                links[r] == if old(links)[r].user == user then old(links)[r].(primary := false) else old(links)[r]
    {
      links := map r | r in links ::
        if links[r].user == user && links[r].primary then links[r].(primary := false) else links[r];
    }

    /** The row of the link is inserted or updated, after the others lost their flag if it is promoted. */
    method PutLink(user: UserId, rw: RwId, promote: bool)
      requires rw in links ==> links[rw].user == user
      modifies this`links, this`nextId
      ensures var primary := promote || (rw in old(links) && old(links)[rw].primary);
              var id := if rw in old(links) then old(links)[rw].id else old(nextId);
              links == WithLink(old(links), rw, Link(id, user, primary), promote)
      ensures nextId == if rw in old(links) then old(nextId) else old(nextId) + 1
    {
      if promote {
        ClearPrimary(user);
      }
      if rw !in links {
        links := links[rw := Link(nextId, user, promote)];
        nextId := nextId + 1;
      } else {
        links := links[rw := links[rw].(primary := promote || links[rw].primary)];
      }
      assert links == WithLink(old(links), rw, links[rw], promote);
    }

    method Attach(user: UserId, rw: RwId, makePrimary: bool) returns (r: Result<Link, Error>)
      modifies this
      ensures match Attached(old(Snapshot()), user, rw, makePrimary)
              case Ok(after) => Snapshot() == after && rw in links && r == Ok(links[rw])
              case Err(e) => Snapshot() == old(Snapshot()) && r == Err(e)
    {
      var before := Snapshot();
      if rw in links && links[rw].user != user {
        return Err(AlreadyLinked);
      }
      var promote := makePrimary || LinksOf(before, user) == {};
      PutLink(user, rw, promote);
      if links[rw].primary {
        if user !in accounts {
          Rollback(before);
          return Err(UserNotFound);
        }
        if ProjectedByOther(before, rw, user) {
          Rollback(before);
          return Err(IntegrityError);
        }
        accounts := accounts[user := accounts[user].(rw := Some(rw))];
      }
      return Ok(links[rw]);
    }

    method SetPrimary(user: UserId, rw: RwId) returns (r: Result<Option<Link>, Error>)
      modifies this
      ensures match PrimarySet(old(Snapshot()), user, rw)
              case Ok(after) => Snapshot() == after
                                && r == Ok(if OwnedBy(after, rw, user) then Some(after.links[rw]) else None)
              case Err(e) => Snapshot() == old(Snapshot()) && r == Err(e)
    {
      var before := Snapshot();
      if !(rw in links && links[rw].user == user) {
        return Ok(None);
      }
      ClearPrimary(user);
      links := links[rw := links[rw].(primary := true)];
      assert links == WithLink(before.links, rw, before.links[rw].(primary := true), true);
      if user !in accounts {
        Rollback(before);
        return Err(UserNotFound);
      }
      if ProjectedByOther(before, rw, user) {
        Rollback(before);
        return Err(IntegrityError);
      }
      accounts := accounts[user := accounts[user].(rw := Some(rw))];
      return Ok(Some(links[rw]));
    }

    method Detach(user: UserId, rw: RwId) returns (r: Result<Option<Link>, Error>)
      modifies this
      ensures match Detached(old(Snapshot()), user, rw)
              case Ok(after) => Snapshot() == after
                                && r == Ok(if OwnedBy(old(Snapshot()), rw, user) then Some(old(links)[rw]) else None)
              case Err(e) => Snapshot() == old(Snapshot()) && r == Err(e)
    {
      var before := Snapshot();
      if !(rw in links && links[rw].user == user) {
        return Ok(None);
      }
      var target := links[rw];
      var total := |LinksOf(before, user)|;
      if target.primary && total > 1 {
        return Err(PrimaryChangeRequired);
      }
      links := links - {rw};
      if total == 1 {
        if user !in accounts {
          Rollback(before);
          return Err(UserNotFound);
        }
        accounts := accounts[user := accounts[user].(rw := None)];
      }
      return Ok(Some(target));
    }

    /** The live pending row; an expired one is deleted on sight. */
    method GetActive(user: UserId, clock: int) returns (row: Option<Pending>)
      modifies this`pending
      ensures row == if user in old(pending) && old(pending)[user].expiresAt > clock then Some(old(pending)[user])
                     else None
      ensures pending == if row.None? then old(pending) - {user} else old(pending)
    {
      if user !in pending {
        assert pending == pending - {user};
        return None;
      }
      if pending[user].expiresAt <= clock {
        pending := pending - {user};
        return None;
      }
      return Some(pending[user]);
    }

    method FinalizeEmailVerification(user: UserId, clock: int, now: string) returns (r: Result<OnboardingStatus, Error>)
      modifies this
      ensures match Finalized(old(Snapshot()), user, clock, now)
              case Ok((after, status)) => Snapshot() == after && r == Ok(status)
              case Err(e) => Snapshot() == old(Snapshot()) && r == Err(e)
    {
      var before := Snapshot();
      if user !in accounts {
        return Err(UserNotFound);
      }
      accounts := accounts[user := accounts[user].(texts := accounts[user].texts[EmailVerifiedAt := now])];
      var row := GetActive(user, clock);
      if row.None? {
        assert user !in before.pending ==> pending == before.pending;
        return Ok(Nothing);
      }
      var current := LinksOf(Snapshot(), user);
      assert current == LinksOf(before, user);
      if current != {} {
        pending := pending - {user};
        return Ok(if row.value.rw.Some? && row.value.rw.value in current then AlreadyAttached else SkippedNonempty);
      }
      if row.value.rw.None? {
        return Ok(AwaitingOauth);
      }
      var rw := row.value.rw.value;
      if rw in links && links[rw].user != user {
        pending := pending - {user};
        return Ok(Conflict);
      }
      var linked := Attach(user, rw, true);
      if linked.Err? {
        Rollback(before);
        return Err(linked.error);
      }
      pending := pending - {user};
      assert rw in before.links ==> rw in LinksOf(before, user);
      return Ok(if rw in before.links then AlreadyAttached else NowAttached);
    }

    method AttachInitial(user: UserId, rw: RwId) returns (r: Result<OnboardingStatus, Error>)
      modifies this
      ensures match InitialAttached(old(Snapshot()), user, rw)
              case Ok((after, status)) => Snapshot() == after && r == Ok(status)
              case Err(e) => Snapshot() == old(Snapshot()) && r == Err(e)
    {
      if user !in accounts {
        return Err(UserNotFound);
      }
      if rw in links {
        if links[rw].user != user {
          return Err(AlreadyLinked);
        }
        pending := pending - {user};
        return Ok(AlreadyAttached);
      }
      if LinksOf(Snapshot(), user) != {} {
        pending := pending - {user};
        return Ok(SkippedNonempty);
      }
      var linked := Attach(user, rw, true);
      if linked.Err? {
        return Err(linked.error);
      }
      pending := pending - {user};
      return Ok(NowAttached);
    }
  }
}
