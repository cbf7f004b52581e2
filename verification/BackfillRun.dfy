/** The operator script in place: audit, apply, and the whole run. */
module BackfillRun {
  import opened Wrappers
  import opened Ownership
  import opened Backfill
  import opened AccountStore
  import opened BackfillResults
  import PanelIndex

  /** A primary-key column read in ascending order. */
  ghost predicate Enumerates(rows: seq<int>, keys: set<int>) {
    && (forall i :: 0 <= i < |rows| ==> rows[i] in keys)
    && (forall k :: k in keys ==> exists i :: 0 <= i < |rows| && rows[i] == k)
    && (forall i, j :: 0 <= i < j < |rows| ==> rows[i] < rows[j])
  }

  datatype Blocker =
    | UnresolvedAccount(user: UserId) | OwnershipConflict(rw: RwId, user: UserId)
    | AmbiguousIdentifier(user: UserId) | AmbiguousEmailMatch(user: UserId)

  datatype Report = Report(
    scan: seq<Blocker>, multipleOwners: set<RwId>, mismatches: set<UserId>, invalidRepairs: seq<UserId>,
    panelMissing: set<RwId>, duplicateUuids: set<string>, duplicateVless: set<string>, crossCollisions: set<string>)

  predicate NoneBlocked(r: Report) {
    && r.scan == [] && r.invalidRepairs == []
    && r.multipleOwners == {} && r.mismatches == {} && r.panelMissing == {}
    && r.duplicateUuids == {} && r.duplicateVless == {} && r.crossCollisions == {}
  }

  // ---- the scan over the accounts ----

  /** What the scan itself objects to; shared projections are reported separately. */
  predicate ClearInScan(db: Db, w: Inputs, u: UserId)
    requires u in db.accounts
  {
    match db.accounts[u].rw
    case None => Clear(db, w, u)
    case Some(rw) => Planned(db, w, u).Some? ==> Free(db, rw, u)
  }

  ghost predicate ScanClean(db: Db, w: Inputs, users: seq<UserId>, n: nat)
    requires n <= |users| && forall i :: 0 <= i < |users| ==> users[i] in db.accounts
  {
    && (forall i :: 0 <= i < n ==> ClearInScan(db, w, users[i]))
    && (forall i, j :: 0 <= i < j < n && Target(db, w, users[i]).Some? ==>
         Target(db, w, users[i]) != Target(db, w, users[j]))
  }

  /** `planned` holds the targets of scanned accounts; all of them when nothing was objected to. */
  ghost predicate PlannedMap(db: Db, w: Inputs, users: seq<UserId>, n: nat, planned: map<RwId, UserId>, all: bool)
    requires n <= |users| && forall i :: 0 <= i < |users| ==> users[i] in db.accounts
  {
    && (forall rw :: rw in planned ==>
          exists i :: 0 <= i < n && users[i] == planned[rw] && Target(db, w, users[i]) == Some(rw))
    && (all ==> forall i :: 0 <= i < n && Target(db, w, users[i]).Some? ==> Target(db, w, users[i]).value in planned)
  }

  /** One turn of the loop: what is objected to, or what is planned. */
  method ScanAccount(db: Db, w: Inputs, u: UserId, planned: map<RwId, UserId>)
    returns (blocker: Option<Blocker>, action: Option<Action>)
    requires u in db.accounts
    ensures blocker.None? <==> ClearInScan(db, w, u) && (Target(db, w, u).Some? ==> Target(db, w, u).value !in planned)
    ensures blocker.None? ==> action == Planned(db, w, u)
    ensures blocker.Some? ==>
              match blocker.value
              case AmbiguousIdentifier(v) => v == u && db.accounts[u].rw.None? && Resolve(w, u).AmbiguousIds?
              case AmbiguousEmailMatch(v) => v == u && db.accounts[u].rw.None? && Resolve(w, u).AmbiguousEmail?
              case UnresolvedAccount(v) => v == u && db.accounts[u].rw.None? && Resolve(w, u).Unresolved?
              case OwnershipConflict(rw, v) => v == u && (db.accounts[u].rw == Some(rw) || Target(db, w, u) == Some(rw))
  {
    if db.accounts[u].rw.None? {
      match Resolve(w, u)
      case Skip => return None, None;
      case Ignored => return None, None;
      case AmbiguousIds => return Some(AmbiguousIdentifier(u)), None;
      case AmbiguousEmail => return Some(AmbiguousEmailMatch(u)), None;
      case Unresolved => return Some(UnresolvedAccount(u)), None;
      case Resolved(rw, kind) =>
        if !Free(db, rw, u) || rw in planned {
          return Some(OwnershipConflict(rw, u)), None;
        }
        return None, Some(Action(u, rw, kind));
    }
    var rw := db.accounts[u].rw.value;
    if OwnedBy(db, rw, u) && HasPrimary(db, u) {
      return None, None;
    }
    if !Free(db, rw, u) {
      return Some(OwnershipConflict(rw, u)), None;
    }
    return None, Some(Action(u, rw, AttachExisting));
  }

  /** The per-account loop of `audit_database`. */
  method ScanAccounts(db: Db, w: Inputs, users: seq<UserId>) returns (actions: seq<Action>, blocked: seq<Blocker>)
    requires Enumerates(users, db.accounts.Keys)
    ensures blocked == [] <==> ScanClean(db, w, users, |users|)
    ensures blocked == [] ==> actions == PlannedAll(db, w, users)
  {
    actions, blocked := [], [];
    var planned: map<RwId, UserId> := map[];
    for n := 0 to |users|
      invariant blocked == [] <==> ScanClean(db, w, users, n)
      invariant PlannedMap(db, w, users, n, planned, blocked == [])
      invariant blocked == [] ==> actions == PlannedAll(db, w, users[..n])
    {
      var u := users[n];
      var blocker, action := ScanAccount(db, w, u, planned);
      ScanStep(db, w, users, n, planned, blocked == []);
      PlanAppends(db, w, users, n);
      if blocker.Some? {
        blocked := blocked + [blocker.value];
      } else {
        if db.accounts[u].rw.None? && action.Some? {
          planned := planned[action.value.rw := u];
        }
        if action.Some? {
          actions := actions + [action.value];
        }
      }
    }
    assert users[..|users|] == users;
  }

  lemma {:induction false} PlanAppends(db: Db, w: Inputs, users: seq<UserId>, n: nat)
    requires n < |users| && forall i :: 0 <= i < |users| ==> users[i] in db.accounts
    ensures PlannedAll(db, w, users[..n + 1])
            == PlannedAll(db, w, users[..n])
                + (if Planned(db, w, users[n]).Some? then [Planned(db, w, users[n]).value] else [])
  {
    assert users[..n + 1] == users[..n] + [users[n]];
    PlannedAllSplit(db, w, users[..n], [users[n]]);
  }

  /** One more account: the scan stays clean exactly when the account is clear and its target
      is not planned for an earlier one. */
  lemma ScanStep(db: Db, w: Inputs, users: seq<UserId>, n: nat, planned: map<RwId, UserId>, all: bool)
    requires n < |users| && forall i :: 0 <= i < |users| ==> users[i] in db.accounts
    requires PlannedMap(db, w, users, n, planned, all) && all == ScanClean(db, w, users, n)
    ensures var target := Target(db, w, users[n]);
            var fine := ClearInScan(db, w, users[n]) && (target.Some? ==> target.value !in planned);
            && (ScanClean(db, w, users, n + 1) <==> all && fine)
            && PlannedMap(db, w, users, n + 1, planned, all && fine && target.None?)
            && (target.Some? ==> PlannedMap(db, w, users, n + 1, planned[target.value := users[n]], all && fine))
            && PlannedMap(db, w, users, n + 1, planned, false)
  {
    var target := Target(db, w, users[n]);
    forall r | r in planned
      ensures exists i :: 0 <= i < n + 1 && users[i] == planned[r] && Target(db, w, users[i]) == Some(r)
    {
      var i :| 0 <= i < n && users[i] == planned[r] && Target(db, w, users[i]) == Some(r);
    }
    if target.Some? {
      PlannedMore(db, w, users, n, planned, all);
    }
  }

  /** The map with the target of one more account. */
  lemma PlannedMore(db: Db, w: Inputs, users: seq<UserId>, n: nat, planned: map<RwId, UserId>, all: bool)
    requires n < |users| && forall i :: 0 <= i < |users| ==> users[i] in db.accounts
    requires PlannedMap(db, w, users, n, planned, all) && Target(db, w, users[n]).Some?
    ensures PlannedMap(db, w, users, n + 1, planned[Target(db, w, users[n]).value := users[n]], all)
  {
    var rw := Target(db, w, users[n]).value;
    var next := planned[rw := users[n]];
    forall r | r in next
      ensures exists i :: 0 <= i < n + 1 && users[i] == next[r] && Target(db, w, users[i]) == Some(r)
    {
      if r != rw {
        var i :| 0 <= i < n && users[i] == planned[r] && Target(db, w, users[i]) == Some(r);
      } else {
        assert users[n] == next[r];
      }
    }
  }

  // ---- the repairs ----

  method ScanRepairs(db: Db, w: Inputs, order: seq<UserId>) returns (actions: seq<Action>, invalid: seq<UserId>)
    requires Enumerates(order, w.repairs.Keys)
    ensures invalid == [] <==> forall u :: u in w.repairs ==> RepairValid(db, w, u)
    ensures invalid == [] ==>
              (forall i :: 0 <= i < |order| ==> order[i] in db.accounts) && actions == PlannedRepairs(db, w, order)
  {
    actions, invalid := [], [];
    for n := 0 to |order|
      invariant invalid == [] <==> forall i :: 0 <= i < n ==> RepairValid(db, w, order[i])
      invariant invalid == [] ==> actions == PlannedRepairs(db, w, order[..n])
    {
      var u := order[n];
      if u !in db.accounts || !PrimaryOf(db, u, w.repairs[u]) {
        invalid := invalid + [u];
      } else {
        if invalid == [] {
          assert order[..n + 1] == order[..n] + [u];
          PlannedRepairsSplit(db, w, order[..n], u);
        }
        if db.accounts[u].rw != Some(w.repairs[u]) {
          actions := actions + [Action(u, w.repairs[u], SyncPrimary)];
        }
      }
    }
    assert order[..|order|] == order;
  }

  // ---- the audit ----

  predicate Owner(db: Db, rw: RwId, u: UserId) {
    OwnedBy(db, rw, u) || (u in db.accounts && db.accounts[u].rw == Some(rw))
  }

  function OwnedIds(db: Db): set<RwId> {
    db.links.Keys + set u | u in db.accounts && db.accounts[u].rw.Some? :: db.accounts[u].rw.value
  }

  predicate ManyOwners(db: Db, rw: RwId) {
    exists u, v | u in db.accounts && v in db.accounts :: u != v && Owner(db, rw, u) && Owner(db, rw, v)
  }

  /** A profile has several owners exactly when some account projects a profile that is not free for it. */
  lemma SingleOwnersIff(db: Db)
    requires Schema(db)
    ensures (forall rw :: rw in OwnedIds(db) ==> !ManyOwners(db, rw))
            <==> forall u :: u in db.accounts && db.accounts[u].rw.Some? ==> Free(db, db.accounts[u].rw.value, u)
  {
    if forall rw :: rw in OwnedIds(db) ==> !ManyOwners(db, rw) {
      forall u | u in db.accounts && db.accounts[u].rw.Some? ensures Free(db, db.accounts[u].rw.value, u) {
        var rw := db.accounts[u].rw.value;
        assert rw in OwnedIds(db) && Owner(db, rw, u);
        assert OwnedByOther(db, rw, u) ==> Owner(db, rw, db.links[rw].user);
        assert forall v :: v in db.accounts && db.accounts[v].rw == Some(rw) ==> Owner(db, rw, v);
      }
    }
    if forall u :: u in db.accounts && db.accounts[u].rw.Some? ==> Free(db, db.accounts[u].rw.value, u) {
      forall rw | rw in OwnedIds(db) ensures !ManyOwners(db, rw) {}
    }
  }

  /** A projection that is not the account's primary. */
  predicate Mismatched(db: Db, u: UserId) {
    u in db.accounts && db.accounts[u].rw.Some?
    && exists p :: p in db.links && PrimaryOf(db, u, p) && p != db.accounts[u].rw.value
  }

  lemma NoMismatchIff(db: Db, w: Inputs)
    requires forall u :: u in w.repairs ==> RepairValid(db, w, u)
    ensures (forall u :: u in db.accounts ==> MismatchConfirmed(db, w, u))
            <==> forall u :: u in db.accounts && Mismatched(db, u) ==> u in w.repairs
  {
    forall u | u in db.accounts ensures MismatchConfirmed(db, w, u) <==> (Mismatched(db, u) ==> u in w.repairs) {
    }
  }

  /** The scan and the owner count together say that every account is clear. */
  lemma ScanMeaning(db: Db, w: Inputs, users: seq<UserId>)
    requires Enumerates(users, db.accounts.Keys)
    requires forall u :: u in db.accounts && db.accounts[u].rw.Some? ==> Free(db, db.accounts[u].rw.value, u)
    ensures ScanClean(db, w, users, |users|)
            <==> (forall u :: u in db.accounts ==> Clear(db, w, u)) && TargetsDistinct(db, w)
  {
    if ScanClean(db, w, users, |users|) {
      forall u | u in db.accounts ensures Clear(db, w, u) {
        var i :| 0 <= i < |users| && users[i] == u;
        assert ClearInScan(db, w, users[i]);
      }
      forall u, v | (u in db.accounts && v in db.accounts && Target(db, w, u).Some?
                     && Target(db, w, u) == Target(db, w, v)) ensures u == v {
        var i :| 0 <= i < |users| && users[i] == u;
        var j :| 0 <= j < |users| && users[j] == v;
      }
    }
    if (forall u :: u in db.accounts ==> Clear(db, w, u)) && TargetsDistinct(db, w) {
      forall i | 0 <= i < |users| ensures ClearInScan(db, w, users[i]) {
        assert Clear(db, w, users[i]);
      }
      forall i, j | 0 <= i < j < |users| && Target(db, w, users[i]).Some?
        ensures Target(db, w, users[i]) != Target(db, w, users[j]) {
        assert users[i] < users[j];
      }
    }
  }

  function MultipleOwners(db: Db): set<RwId> {
    set rw | rw in OwnedIds(db) && ManyOwners(db, rw)
  }

  /** The mismatches that no confirmed repair accounts for. */
  function Mismatches(db: Db, w: Inputs): set<UserId> {
    set u | u in db.accounts && Mismatched(db, u) && !(u in w.repairs && RepairValid(db, w, u))
  }

  function MissingIds(db: Db, w: Inputs): set<RwId> {
    set rw | rw in OwnedIds(db) && rw !in w.panel.ids
  }

  lemma NoMultipleOwners(db: Db)
    ensures MultipleOwners(db) == {} <==> forall rw :: rw in OwnedIds(db) ==> !ManyOwners(db, rw)
  {
    EmptySet(MultipleOwners(db));
    forall rw ensures rw in MultipleOwners(db) <==> rw in OwnedIds(db) && ManyOwners(db, rw) {}
  }

  lemma NoMismatches(db: Db, w: Inputs)
    ensures Mismatches(db, w) == {}
            <==> forall u :: u in db.accounts && Mismatched(db, u) ==> u in w.repairs && RepairValid(db, w, u)
  {
    EmptySet(Mismatches(db, w));
    forall u ensures u in Mismatches(db, w)
                     <==> u in db.accounts && Mismatched(db, u) && !(u in w.repairs && RepairValid(db, w, u)) {}
  }

  lemma NoneMissing(db: Db, w: Inputs)
    ensures MissingIds(db, w) == {} <==> forall rw :: rw in OwnedIds(db) ==> rw in w.panel.ids
  {
    EmptySet(MissingIds(db, w));
    forall rw ensures rw in MissingIds(db, w) <==> rw in OwnedIds(db) && rw !in w.panel.ids {}
  }

  /** `audit_database`: no blocker is reported exactly when the graph is clean, and then the plan
      is the planned steps in account order followed by the repairs. */
  method Audit(db: Db, w: Inputs, users: seq<UserId>, repairOrder: seq<UserId>)
    returns (report: Report, actions: seq<Action>)
    requires Schema(db) && Enumerates(users, db.accounts.Keys) && Enumerates(repairOrder, w.repairs.Keys)
    ensures NoneBlocked(report) <==> Clean(db, w)
    ensures NoneBlocked(report) ==>
              (forall i :: 0 <= i < |repairOrder| ==> repairOrder[i] in db.accounts)
              && actions == PlannedAll(db, w, users) + PlannedRepairs(db, w, repairOrder)
  {
    var planned, scan := ScanAccounts(db, w, users);
    var repairs, invalid := ScanRepairs(db, w, repairOrder);
    actions := planned + repairs;
    report := Report(scan, MultipleOwners(db), Mismatches(db, w), invalid, MissingIds(db, w),
                     w.panel.duplicateUuids, w.panel.duplicateVless, w.panel.crossCollisions);
    AuditVerdict(db, w, users, report);
  }

  lemma EmptySet(a: set<int>)
    ensures a == {} <==> forall x :: x !in a
  {
    if forall x :: x !in a {
      assert forall x :: x in a <==> x in {};
    }
  }

  /** The missing ids of the report. */
  lemma PanelVerdict(db: Db, w: Inputs)
    ensures MissingIds(db, w) == {} <==> OnPanel(db, w)
  {
    NoneMissing(db, w);
    if forall rw :: rw in OwnedIds(db) ==> rw in w.panel.ids {
      forall u | u in db.accounts && db.accounts[u].rw.Some? ensures db.accounts[u].rw.value in w.panel.ids {
        assert db.accounts[u].rw.value in OwnedIds(db);
      }
      forall rw | rw in db.links ensures rw in w.panel.ids { assert rw in OwnedIds(db); }
    }
  }

  ghost predicate AllClear(db: Db, w: Inputs) {
    (forall u :: u in db.accounts ==> Clear(db, w, u)) && TargetsDistinct(db, w)
  }

  /** The blockers of the scan together with the owners counted. */
  lemma OwnersVerdict(db: Db, w: Inputs, users: seq<UserId>)
    requires Schema(db) && Enumerates(users, db.accounts.Keys)
    ensures ScanClean(db, w, users, |users|) && MultipleOwners(db) == {} <==> AllClear(db, w)
  {
    NoMultipleOwners(db);
    SingleOwnersIff(db);
    if forall u :: u in db.accounts && db.accounts[u].rw.Some? ==> Free(db, db.accounts[u].rw.value, u) {
      ScanMeaning(db, w, users);
    } else {
      var u :| u in db.accounts && db.accounts[u].rw.Some? && !Free(db, db.accounts[u].rw.value, u);
      assert !Clear(db, w, u);
    }
  }

  ghost predicate RepairsValid(db: Db, w: Inputs) { forall u :: u in w.repairs ==> RepairValid(db, w, u) }

  ghost predicate AllConfirmed(db: Db, w: Inputs) { forall u :: u in db.accounts ==> MismatchConfirmed(db, w, u) }

  /** The mismatches left after the valid repairs. */
  lemma MismatchVerdict(db: Db, w: Inputs)
    requires RepairsValid(db, w)
    ensures Mismatches(db, w) == {} <==> AllConfirmed(db, w)
  {
    NoMismatches(db, w);
    NoMismatchIff(db, w);
  }

  lemma CleanIs(db: Db, w: Inputs)
    ensures Clean(db, w) <==> && AllClear(db, w) && AllConfirmed(db, w) && RepairsValid(db, w) && OnPanel(db, w)
                              && PanelUnambiguous(w)
  {
  }

  lemma AuditVerdict(db: Db, w: Inputs, users: seq<UserId>, r: Report)
    requires Schema(db) && Enumerates(users, db.accounts.Keys)
    requires r.scan == [] <==> ScanClean(db, w, users, |users|)
    requires r.invalidRepairs == [] <==> forall u :: u in w.repairs ==> RepairValid(db, w, u)
    requires r.multipleOwners == MultipleOwners(db) && r.mismatches == Mismatches(db, w)
               && r.panelMissing == MissingIds(db, w)
    requires r.duplicateUuids == w.panel.duplicateUuids && r.duplicateVless == w.panel.duplicateVless
    requires r.crossCollisions == w.panel.crossCollisions
    ensures NoneBlocked(r) <==> Clean(db, w)
  {
    PanelVerdict(db, w);
    OwnersVerdict(db, w, users);
    CleanIs(db, w);
    assert r.invalidRepairs == [] <==> RepairsValid(db, w);
    if RepairsValid(db, w) {
      MismatchVerdict(db, w);
    }
  }

  // ---- applying the plan ----

  datatype ApplyError =
    | UserDisappeared(user: UserId) | UserChanged(user: UserId) | PrimaryChanged(user: UserId)
    | AttachFailed(error: Error)

  predicate IsResolve(k: Kind) { k == ResolveLegacy || k == ResolveProtocol || k == ResolveEmail }

  /** One action of `apply_actions`. */
  method ApplyAction(store: AccountStore, a: Action) returns (r: Result<(), ApplyError>)
    requires Schema(store.Snapshot())
    modifies store
    ensures r.Err? ==> store.Snapshot() == old(store.Snapshot())
    ensures var db := old(store.Snapshot());
            a.user in db.accounts && a.kind == SyncPrimary && PrimaryOf(db, a.user, a.rw)
                && !ProjectedByOther(db, a.rw, a.user) ==>
              r.Ok? && store.Snapshot() == WithProjection(db, a.user, Some(a.rw))
    ensures var db := old(store.Snapshot());
            a.user in db.accounts && a.kind != SyncPrimary && (IsResolve(a.kind) ==> db.accounts[a.user].rw.None?)
            && Settled(db, a).Ok? ==>
              r.Ok? && store.Snapshot() == Settled(db, a).value
  {
    var before := store.Snapshot();
    if a.user !in store.accounts {
      return Err(UserDisappeared(a.user));
    }
    if IsResolve(a.kind) && store.accounts[a.user].rw.Some? {
      if store.accounts[a.user].rw.value != a.rw {
        return Err(UserChanged(a.user));
      }
      return Ok(());
    }
    var primary: Option<RwId> := None;
    if p :| p in store.links && PrimaryOf(before, a.user, p) {
      primary := Some(p);
    }
    assert primary.Some? <==> HasPrimary(before, a.user);
    assert primary.Some? ==> primary.value == ThePrimary(before, a.user);
    if a.kind == SyncPrimary {
      if primary != Some(a.rw) {
        return Err(PrimaryChanged(a.user));
      }
      if ProjectedByOther(before, a.rw, a.user) {
        return Err(AttachFailed(IntegrityError));
      }
      store.accounts := store.accounts[a.user := store.accounts[a.user].(rw := Some(a.rw))];
      return Ok(());
    }
    var linked := store.Attach(a.user, a.rw, primary.None?);
    if linked.Err? {
      return Err(AttachFailed(linked.error));
    }
    if IsResolve(a.kind) && primary.Some? {
      // an established primary is kept; the resolved profile is an additional subscription
      if a.user !in store.accounts || ProjectedByOther(store.Snapshot(), primary.value, a.user) {
        store.Rollback(before);
        return Err(AttachFailed(IntegrityError));
      }
      store.accounts := store.accounts[a.user := store.accounts[a.user].(rw := primary)];
    }
    return Ok(());
  }

  /** The plan of a clean audit. */
  ghost predicate IsPlan(db: Db, w: Inputs, users: seq<UserId>, repairOrder: seq<UserId>, actions: seq<Action>) {
    && Enumerates(users, db.accounts.Keys) && Enumerates(repairOrder, w.repairs.Keys)
    && (forall i :: 0 <= i < |repairOrder| ==> repairOrder[i] in db.accounts)
    && actions == PlannedAll(db, w, users) + PlannedRepairs(db, w, repairOrder)
  }

  /** The state between two actions of a clean plan: the graph is clean, and what is left to
      apply is the plan of the current state followed by the outstanding repairs. */
  ghost predicate Midway(db: Db, w: Inputs, users: seq<UserId>, left: seq<Action>, repairs: seq<Action>) {
    && Enumerates(users, db.accounts.Keys)
    && Schema(db) && Clean(db, w)
    && left == PlannedAll(db, w, users) + repairs
    && Covered(db, w, repairs)
  }

  lemma {:induction false} PlanStartsMidway(db: Db, w: Inputs, users: seq<UserId>, order: seq<UserId>,
                                            actions: seq<Action>)
    requires Schema(db) && Clean(db, w) && IsPlan(db, w, users, order, actions)
    ensures Midway(db, w, users, actions, PlannedRepairs(db, w, order))
  {
    RepairsCovered(db, w, order);
    var rest := PlannedRepairs(db, w, order);
    forall u | u in w.repairs && u in db.accounts
      ensures db.accounts[u].rw == Some(w.repairs[u]) || exists k :: 0 <= k < |rest| && rest[k].user == u
    {
      var i :| 0 <= i < |order| && order[i] == u;
    }
  }

  lemma {:induction false} NothingPlanned(db: Db, w: Inputs, users: seq<UserId>)
    requires Enumerates(users, db.accounts.Keys) && PlannedAll(db, w, users) == []
    ensures forall u :: u in db.accounts ==> Planned(db, w, u) == None
  {
    forall u | u in db.accounts ensures Planned(db, w, u) == None {
      var i :| 0 <= i < |users| && users[i] == u;
      EmptyPlan(db, w, users, i);
    }
  }

  lemma NothingLeftIsReady(db: Db, w: Inputs, users: seq<UserId>, repairs: seq<Action>)
    requires Midway(db, w, users, [], repairs)
    ensures Ready(db, w)
  {
    assert PlannedAll(db, w, users) == [] && repairs == [];
    NothingPlanned(db, w, users);
    forall u | u in w.repairs ensures db.accounts[u].rw == Some(w.repairs[u]) {
      assert RepairValid(db, w, u);
    }
  }

  lemma StillCovered(db: Db, after: Db, w: Inputs, repairs: seq<Action>)
    requires Covered(db, w, repairs) && after.accounts.Keys == db.accounts.Keys
    requires forall u :: u in w.repairs && u in db.accounts && db.accounts[u].rw == Some(w.repairs[u]) ==>
               after.accounts[u].rw == Some(w.repairs[u])
    ensures Covered(after, w, repairs)
  {
  }

  lemma {:induction false} HeadOfPlan(db: Db, w: Inputs, users: seq<UserId>, repairs: seq<Action>)
    requires Enumerates(users, db.accounts.Keys) && PlannedAll(db, w, users) != []
    ensures var plan := PlannedAll(db, w, users);
            var a := plan[0];
            && (plan + repairs)[0] == a && (plan + repairs)[1..] == plan[1..] + repairs
            && a.user in db.accounts && Planned(db, w, a.user) == Some(a)
            && a.kind != SyncPrimary && (IsResolve(a.kind) ==> db.accounts[a.user].rw.None?)
  {
    PlanShrinks(db, w, db, users);
  }

  lemma {:induction false} TailOfPlan(db: Db, w: Inputs, after: Db, users: seq<UserId>, a: Action)
    requires Enumerates(users, db.accounts.Keys) && after.accounts.Keys == db.accounts.Keys
    requires PlannedAll(db, w, users) != [] && a == PlannedAll(db, w, users)[0]
    requires a.user in db.accounts && Planned(after, w, a.user) == None
    requires forall v :: v in db.accounts && v != a.user ==> Planned(after, w, v) == Planned(db, w, v)
    ensures PlannedAll(after, w, users) == PlannedAll(db, w, users)[1..]
  {
    PlanShrinks(db, w, after, users);
  }

  /** The next action is a planned step: it succeeds and the plan shrinks by it. */
  lemma {:induction false} NextStep(db: Db, w: Inputs, users: seq<UserId>, left: seq<Action>, repairs: seq<Action>)
    requires PanelIndex.Grounded(w.panel)
    requires Midway(db, w, users, left, repairs) && PlannedAll(db, w, users) != []
    ensures left != [] && left[0].user in db.accounts && left[0].kind != SyncPrimary
    ensures IsResolve(left[0].kind) ==> db.accounts[left[0].user].rw.None?
    ensures Settled(db, left[0]).Ok? && Midway(Settled(db, left[0]).value, w, users, left[1..], repairs)
    ensures SameDue(db, Settled(db, left[0]).value, w)
  {
    HeadOfPlan(db, w, users, repairs);
    var a := left[0];
    StepConverges(db, w, a.user);
    StepKeepsDue(db, w, a.user);
    var after := Settled(db, a).value;
    TailOfPlan(db, w, after, users, a);
    StillCovered(db, after, w, repairs);
  }

  /** The next action is a repair: it succeeds and is no longer outstanding. */
  lemma {:induction false} NextRepair(db: Db, w: Inputs, users: seq<UserId>, left: seq<Action>, repairs: seq<Action>)
    requires Midway(db, w, users, left, repairs) && PlannedAll(db, w, users) == [] && repairs != []
    ensures left == repairs && IsRepair(w, left[0]) && left[0].user in db.accounts
    ensures PrimaryOf(db, left[0].user, left[0].rw) && !ProjectedByOther(db, left[0].rw, left[0].user)
    ensures Midway(WithProjection(db, left[0].user, Some(left[0].rw)), w, users, left[1..], repairs[1..])
    ensures forall v :: v in db.accounts ==> Planned(db, w, v) == None
  {
    assert left == repairs;
    var a := left[0];
    assert IsRepair(w, repairs[0]);
    assert RepairValid(db, w, a.user);
    NothingPlanned(db, w, users);
    SyncConverges(db, w, a.user);
    var after := WithProjection(db, a.user, Some(a.rw));
    assert after.accounts.Keys == db.accounts.Keys;
    PlannedAllSame(db, after, w, users);
    assert left[1..] == PlannedAll(after, w, users) + repairs[1..];
    forall u | u in w.repairs && u in after.accounts
      ensures after.accounts[u].rw == Some(w.repairs[u])
              || exists i :: 0 <= i < |repairs[1..]| && repairs[1..][i].user == u
    {
      if u != a.user && db.accounts[u].rw != Some(w.repairs[u]) {
        var i :| 0 <= i < |repairs| && repairs[i].user == u;
        assert repairs[1..][i - 1].user == u;
      }
    }
    assert forall i :: 0 <= i < |repairs[1..]| ==> repairs[1..][i] == repairs[i + 1];
  }

  /** One turn of the loop of `apply_actions`. */
  method ApplyNext(store: AccountStore, a: Action, ghost w: Inputs, ghost users: seq<UserId>,
                   ghost left: seq<Action>, ghost repairs: seq<Action>)
    returns (r: Result<(), ApplyError>, ghost rest: seq<Action>)
    requires PanelIndex.Grounded(w.panel)
    requires left != [] && left[0] == a && Midway(store.Snapshot(), w, users, left, repairs)
    modifies store
    ensures r.Ok? && Midway(store.Snapshot(), w, users, left[1..], rest)
    ensures SameDue(old(store.Snapshot()), store.Snapshot(), w)
  {
    ghost var db := store.Snapshot();
    rest := repairs;
    if PlannedAll(db, w, users) != [] {
      NextStep(db, w, users, left, repairs);
    } else {
      NextRepair(db, w, users, left, repairs);
      SyncKeepsDue(db, w, a.user);
      rest := repairs[1..];
    }
    r := ApplyAction(store, a);
  }

  /** `apply_actions`: the plan of a clean audit never raises and leaves the graph ready. */
  method Apply(store: AccountStore, actions: seq<Action>, ghost w: Inputs, ghost users: seq<UserId>,
               ghost order: seq<UserId>)
    returns (r: Result<(), ApplyError>)
    requires PanelIndex.Grounded(w.panel)
    requires Schema(store.Snapshot()) && Clean(store.Snapshot(), w)
    requires IsPlan(store.Snapshot(), w, users, order, actions)
    modifies store
    ensures r.Ok? && Schema(store.Snapshot()) && Ready(store.Snapshot(), w)
    ensures SameDue(old(store.Snapshot()), store.Snapshot(), w)
    ensures Enumerates(users, store.accounts.Keys)
  {
    ghost var db := store.Snapshot();
    ghost var repairs := PlannedRepairs(store.Snapshot(), w, order);
    PlanStartsMidway(store.Snapshot(), w, users, order, actions);
    assert actions[0..] == actions;
    r := Ok(());
    for k := 0 to |actions|
      invariant Midway(store.Snapshot(), w, users, actions[k..], repairs) && r.Ok?
      invariant SameDue(db, store.Snapshot(), w)
    {
      ghost var mid := store.Snapshot();
      assert actions[k..][0] == actions[k] && actions[k..][1..] == actions[k + 1..];
      r, repairs := ApplyNext(store, actions[k], w, users, actions[k..], repairs);
      if r.Err? {
        return;
      }
      SameDueChains(db, mid, store.Snapshot(), w);
    }
    assert actions[|actions|..] == [];
    NothingLeftIsReady(store.Snapshot(), w, users, repairs);
  }

  // ---- the whole run ----

  lemma {:induction false} ReadyPlansNothing(db: Db, w: Inputs, users: seq<UserId>, order: seq<UserId>)
    requires Enumerates(users, db.accounts.Keys) && Enumerates(order, w.repairs.Keys)
    requires forall i :: 0 <= i < |order| ==> order[i] in db.accounts
    ensures (forall u :: u in db.accounts ==> Planned(db, w, u) == None)
            && (forall u :: u in w.repairs ==> u in db.accounts && db.accounts[u].rw == Some(w.repairs[u]))
            <==> PlannedAll(db, w, users) + PlannedRepairs(db, w, order) == []
  {
    if PlannedAll(db, w, users) + PlannedRepairs(db, w, order) == [] {
      assert PlannedAll(db, w, users) == [] && PlannedRepairs(db, w, order) == [];
      NothingPlanned(db, w, users);
      RepairsCovered(db, w, order);
      forall u | u in w.repairs ensures u in db.accounts && db.accounts[u].rw == Some(w.repairs[u]) {
        var i :| 0 <= i < |order| && order[i] == u;
      }
    }
    if (forall u :: u in db.accounts ==> Planned(db, w, u) == None)
       && (forall u :: u in w.repairs ==> u in db.accounts && db.accounts[u].rw == Some(w.repairs[u])) {
      NoneGivesEmpty(db, w, users);
      WrittenGivesEmpty(db, w, order);
    }
  }

  lemma {:induction false} NoneGivesEmpty(db: Db, w: Inputs, users: seq<UserId>)
    requires forall i :: 0 <= i < |users| ==> users[i] in db.accounts && Planned(db, w, users[i]) == None
    ensures PlannedAll(db, w, users) == []
  {
    if users != [] { NoneGivesEmpty(db, w, users[1..]); }
  }

  lemma {:induction false} WrittenGivesEmpty(db: Db, w: Inputs, order: seq<UserId>)
    requires forall i :: 0 <= i < |order| ==>
               order[i] in db.accounts && order[i] in w.repairs && db.accounts[order[i]].rw == Some(w.repairs[order[i]])
    ensures PlannedRepairs(db, w, order) == []
  {
    if order != [] { WrittenGivesEmpty(db, w, order[1..]); }
  }

  /** `run_backfill` on a quiescent database. With `apply`, exit code 0 is returned exactly when
      the first audit is clean, and then the graph is ready; a blocked run and a dry run change
      nothing, and neither does a run on a graph that is ready already. */
  method RunBackfill(store: AccountStore, w: Inputs, users: seq<UserId>, order: seq<UserId>, apply: bool)
    returns (code: int)
    requires PanelIndex.Grounded(w.panel)
    requires Schema(store.Snapshot())
    requires Enumerates(users, store.accounts.Keys) && Enumerates(order, w.repairs.Keys)
    modifies store
    ensures code == 0 <==> Clean(old(store.Snapshot()), w)
    ensures code == 0 || code == 2
    ensures code != 0 || !apply || Ready(old(store.Snapshot()), w) ==> store.Snapshot() == old(store.Snapshot())
    ensures code == 0 && apply ==> Schema(store.Snapshot()) && Ready(store.Snapshot(), w)
    ensures code == 0 && apply ==> SameDue(old(store.Snapshot()), store.Snapshot(), w)
  {
    var report, _ := Audit(store.Snapshot(), w, users, order);
    if !NoneBlocked(report) {
      return 2;
    }
    if !apply {
      return 0;
    }
    var second, actions := Audit(store.Snapshot(), w, users, order);
    if !NoneBlocked(second) {
      return 2;
    }
    ReadyPlansNothing(store.Snapshot(), w, users, order);
    if actions != [] {
      var applied := Apply(store, actions, w, users, order);
    }
    var final, more := Audit(store.Snapshot(), w, users, order);
    ReadyPlansNothing(store.Snapshot(), w, users, order);
    return if NoneBlocked(final) && more == [] then 0 else 2;
  }

  /** A panel that names no user by a panel uuid of its own, or carries no protocol uuid, is not searched. */
  ghost predicate Unusable(items: seq<PanelIndex.Item>) {
    || (forall x, uuid :: HasUuid(items, x, uuid) ==> exists y :: y != x && HasUuid(items, y, uuid))
    || (forall x, uuid :: !HasVlessUuid(items, x, uuid))
  }

  /** The script: index the panel's users, then run the back-fill; 3 is the exit code of an exception.
      After a run that was applied, every account is filled; an account of which it cannot be told who it is
      blocks the run. */
  method RunScript(store: AccountStore, items: seq<PanelIndex.Item>, identities: map<UserId, Identity>,
                   activePaid: set<UserId>, repairs: map<UserId, RwId>, users: seq<UserId>, order: seq<UserId>,
                   apply: bool)
    returns (code: int, ghost w: Inputs)
    requires Schema(store.Snapshot())
    requires Enumerates(users, store.accounts.Keys) && Enumerates(order, repairs.Keys)
    modifies store
    ensures w.identities == identities && w.activePaid == activePaid && w.repairs == repairs
    ensures code == 0 || code == 2 || code == 3
    ensures code == 3 <==> Unusable(items)
    ensures code != 0 || !apply ==> store.Snapshot() == old(store.Snapshot())
    ensures code == 0 && apply ==> EverybodyFilled(items, w, old(store.Snapshot()), store.Snapshot())
    ensures code == 0 ==> forall u :: u in old(store.accounts) && old(store.accounts)[u].rw.None? ==>
                            !Undecided(items, WhoIs(w, u), u in activePaid)
  {
    ghost var db := store.Snapshot();
    var panel := PanelIndex.Build(items);
    var inputs := Inputs(panel, identities, activePaid, repairs);
    w := inputs;
    NoLegacyIff(items, panel);
    NoProtocolIff(items, panel);
    if panel.byUuid == map[] || (panel.byVless == map[] && panel.duplicateVless == {}) {
      return 3, w;
    }
    code := RunBackfill(store, inputs, users, order, apply);
    if code == 0 {
      forall u | u in db.accounts && db.accounts[u].rw.None? ensures !Undecided(items, WhoIs(w, u), u in activePaid) {
        CleanDecides(items, w, db, u);
      }
      if apply {
        DueIsFilled(items, w, db, store.Snapshot());
      }
    }
  }

  lemma NoLegacyIff(items: seq<PanelIndex.Item>, panel: PanelIndex.Index)
    requires PanelIndex.Indexes(items, PanelIndex.Uuid, panel.byUuid, panel.duplicateUuids)
    ensures panel.byUuid == map[]
            <==> forall x, uuid :: HasUuid(items, x, uuid) ==> exists y :: y != x && HasUuid(items, y, uuid)
  {
    forall key, rw { CarriersAre(items, key, rw); }
    if x, uuid :| HasUuid(items, x, uuid) && forall y :: y != x ==> !HasUuid(items, y, uuid) {
      assert PanelIndex.Candidate(items, PanelIndex.Uuid, uuid, x);
      assert uuid in panel.byUuid;
    }
    if uuid :| uuid in panel.byUuid {
      assert PanelIndex.Candidate(items, PanelIndex.Uuid, uuid, panel.byUuid[uuid]);
    }
  }

  lemma NoProtocolIff(items: seq<PanelIndex.Item>, panel: PanelIndex.Index)
    requires PanelIndex.Indexes(items, PanelIndex.Vless, panel.byVless, panel.duplicateVless)
    ensures panel.byVless == map[] && panel.duplicateVless == {} <==> forall x, uuid :: !HasVlessUuid(items, x, uuid)
  {
    forall uuid
      ensures uuid in panel.byVless || uuid in panel.duplicateVless <==> exists x :: HasVlessUuid(items, x, uuid)
    {
      VlessIndexedIff(items, panel.byVless, panel.duplicateVless, uuid);
    }
    if panel.byVless == map[] && panel.duplicateVless == {} {
      forall x, uuid ensures !HasVlessUuid(items, x, uuid) {
        assert uuid !in panel.byVless && uuid !in panel.duplicateVless;
      }
    } else if uuid :| uuid in panel.byVless {
      assert exists x :: HasVlessUuid(items, x, uuid);
    } else {
      assert panel.byVless == map[];
      assert exists uuid :: uuid in panel.duplicateVless;
    }
  }
}
