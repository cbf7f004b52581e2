/** The back-fill of `users.rw_id`: audit the whole ownership graph, plan, apply, audit again. */
module Backfill {
  import opened Wrappers
  import opened Ownership
  import PanelIndex

  /** The normalised identifiers of a local account. */
  datatype Identity = Identity(uuid: Option<string>, email: Option<string>)

  /** What an audit is run against; none of it changes while the plan is applied. */
  datatype Inputs = Inputs(
    panel: PanelIndex.Index,
    identities: map<UserId, Identity>,
    activePaid: set<UserId>,
    repairs: map<UserId, RwId>)

  datatype Kind = ResolveLegacy | ResolveProtocol | ResolveEmail | AttachExisting | SyncPrimary

  datatype Action = Action(user: UserId, rw: RwId, kind: Kind)

  // ---- the decision for one account ----

  datatype Found = Skip | AmbiguousIds | AmbiguousEmail | Unresolved | Ignored | Resolved(rw: RwId, kind: Kind)

  function IdentityOf(w: Inputs, u: UserId): Identity {
    if u in w.identities then w.identities[u] else Identity(None, None)
  }

  function Lookup(m: map<string, int>, key: string): Option<int> {
    if key in m then Some(m[key]) else None
  }

  /** The panel user an account without `rw_id` resolves to. */
  function Resolve(w: Inputs, u: UserId): Found {
    var id := IdentityOf(w, u);
    if id.uuid.None? then Skip
    else
      var legacy, protocol := Lookup(w.panel.byUuid, id.uuid.value), Lookup(w.panel.byVless, id.uuid.value);
      if legacy.Some? && protocol.Some? && legacy != protocol then AmbiguousIds
      else if legacy.Some? then Resolved(legacy.value, ResolveLegacy)
      else if protocol.Some? then Resolved(protocol.value, ResolveProtocol)
      else if id.email.Some? && id.email.value in w.panel.duplicateEmails then AmbiguousEmail
      else if id.email.Some? && id.email.value in w.panel.byEmail then
        Resolved(w.panel.byEmail[id.email.value], ResolveEmail)
      else if u in w.activePaid then Unresolved else Ignored
  }

  predicate PrimaryOf(db: Db, u: UserId, rw: RwId) {
    OwnedBy(db, rw, u) && db.links[rw].primary
  }

  predicate HasPrimary(db: Db, u: UserId) {
    exists rw :: rw in db.links && PrimaryOf(db, u, rw)
  }

  /** No other account is linked to, or projects, the profile. */
  predicate Free(db: Db, rw: RwId, u: UserId) {
    !OwnedByOther(db, rw, u) && !ProjectedByOther(db, rw, u)
  }

  /** The profile an account would get. */
  function Target(db: Db, w: Inputs, u: UserId): Option<RwId>
    requires u in db.accounts
  {
    if db.accounts[u].rw.None? && Resolve(w, u).Resolved? then Some(Resolve(w, u).rw) else None
  }

  /** The step that the audit plans for one account. */
  function Planned(db: Db, w: Inputs, u: UserId): Option<Action>
    requires u in db.accounts
  {
    match db.accounts[u].rw
    case None =>
      var found := Resolve(w, u);
      if found.Resolved? then Some(Action(u, found.rw, found.kind)) else None
    case Some(rw) =>
      if !OwnedBy(db, rw, u) || !HasPrimary(db, u) then Some(Action(u, rw, AttachExisting)) else None
  }

  function PlannedAll(db: Db, w: Inputs, users: seq<UserId>): seq<Action>
    requires forall i :: 0 <= i < |users| ==> users[i] in db.accounts
  {
    if users == [] then []
    else
      var first := Planned(db, w, users[0]);
      (if first.Some? then [first.value] else []) + PlannedAll(db, w, users[1..])
  }

  /** The confirmed repairs that still have to be written. */
  function PlannedRepairs(db: Db, w: Inputs, users: seq<UserId>): seq<Action>
    requires forall i :: 0 <= i < |users| ==> users[i] in db.accounts && users[i] in w.repairs
  {
    if users == [] then []
    else
      (if db.accounts[users[0]].rw == Some(w.repairs[users[0]]) then []
       else [Action(users[0], w.repairs[users[0]], SyncPrimary)])
      + PlannedRepairs(db, w, users[1..])
  }

  // ---- the audit's verdict ----

  /** What the schema guarantees. */
  ghost predicate Schema(db: Db) {
    && (forall rw :: rw in db.links ==> db.links[rw].user in db.accounts)
    && (forall a, b, u :: a in db.links && b in db.links && PrimaryOf(db, u, a) && PrimaryOf(db, u, b) ==> a == b)
    && (forall u, v :: (u in db.accounts && v in db.accounts && db.accounts[u].rw.Some?
                        && db.accounts[u].rw == db.accounts[v].rw) ==> u == v)
  }

  /** Nothing blocks this account on its own. */
  predicate Clear(db: Db, w: Inputs, u: UserId)
    requires u in db.accounts
  {
    match db.accounts[u].rw
    case None =>
      var found := Resolve(w, u);
      !found.AmbiguousIds? && !found.AmbiguousEmail? && !found.Unresolved?
          && (found.Resolved? ==> Free(db, found.rw, u))
    case Some(rw) => Free(db, rw, u)
  }

  /** A projection that differs from the primary is blocked unless the operator confirmed it. */
  ghost predicate MismatchConfirmed(db: Db, w: Inputs, u: UserId)
    requires u in db.accounts
  {
    forall p :: p in db.links && PrimaryOf(db, u, p) && db.accounts[u].rw.Some? && db.accounts[u].rw.value != p
      ==> u in w.repairs
  }

  predicate RepairValid(db: Db, w: Inputs, u: UserId)
    requires u in w.repairs
  {
    u in db.accounts && PrimaryOf(db, u, w.repairs[u])
  }

  /** No two accounts resolve to one profile. */
  ghost predicate TargetsDistinct(db: Db, w: Inputs) {
    forall u, v :: (u in db.accounts && v in db.accounts && Target(db, w, u).Some?
                    && Target(db, w, u) == Target(db, w, v)) ==> u == v
  }

  /** Every owned profile exists on the panel. */
  predicate OnPanel(db: Db, w: Inputs) {
    && (forall rw :: rw in db.links ==> rw in w.panel.ids)
    && (forall u :: u in db.accounts && db.accounts[u].rw.Some? ==> db.accounts[u].rw.value in w.panel.ids)
  }

  predicate PanelUnambiguous(w: Inputs) {
    w.panel.duplicateUuids == {} && w.panel.duplicateVless == {} && w.panel.crossCollisions == {}
  }

  /** The audit reports no blocker. */
  ghost predicate Clean(db: Db, w: Inputs) {
    && (forall u :: u in db.accounts ==> Clear(db, w, u) && MismatchConfirmed(db, w, u))
    && TargetsDistinct(db, w)
    && (forall u :: u in w.repairs ==> RepairValid(db, w, u))
    && OnPanel(db, w)
    && PanelUnambiguous(w)
  }

  /** The audit reports `ready`: no blocker and no action. */
  ghost predicate Ready(db: Db, w: Inputs) {
    && Clean(db, w)
    && (forall u :: u in db.accounts ==> Planned(db, w, u) == None)
    && (forall u :: u in w.repairs ==> db.accounts[u].rw == Some(w.repairs[u]))
  }

  /** Readiness in the terms of the ownership graph: every projection is the account's one
      primary link; the invariant fails only for links of accounts without a projection. */
  lemma ReadyMeaning(db: Db, w: Inputs)
    requires Ready(db, w) && Schema(db) && Tables(db)
    ensures forall u :: u in db.accounts && db.accounts[u].rw.Some? ==> Consistent(db, u)
    ensures OwnershipInv(db) <==> forall rw :: rw in db.links ==> db.accounts[db.links[rw].user].rw.Some?
  {
    forall u | u in db.accounts && db.accounts[u].rw.Some? ensures Consistent(db, u) {
      assert Planned(db, w, u) == None;
      var p :| p in db.links && PrimaryOf(db, u, p);
      assert MismatchConfirmed(db, w, u);
      assert p == db.accounts[u].rw.value by {
        if u in w.repairs {
          assert RepairValid(db, w, u) && PrimaryOf(db, u, w.repairs[u]);
        }
      }
      forall r | r in db.links && db.links[r].user == u ensures db.links[r].primary <==> r == p {
        assert db.links[r].primary ==> PrimaryOf(db, u, r);
      }
    }
    if forall rw :: rw in db.links ==> db.accounts[db.links[rw].user].rw.Some? {
      forall u | u in db.accounts ensures Consistent(db, u) {}
    }
    if OwnershipInv(db) {
      forall rw | rw in db.links ensures db.accounts[db.links[rw].user].rw.Some? {
        assert Consistent(db, db.links[rw].user);
      }
    }
  }

  /** An account with a link and no projection is not seen: with nothing to resolve it by, a graph of one
      account that is linked to profile 10 is ready, and breaks the invariant. */
  lemma ReadyBreaksInvariant(a: Account, db: Db, w: Inputs)
    requires a.rw == None && db == Db(map[1 := a], map[10 := Link(0, 1, true)], 1, map[], map[], map[])
    requires w == Inputs(PanelIndex.Index({10}, map[], {}, map[], {}, {}, map[], {}), map[], {}, map[])
    ensures Schema(db) && Tables(db) && Ready(db, w) && !OwnershipInv(db)
  {
    assert Resolve(w, 1).Skip?;
    assert 10 in db.links && db.links[10].user == 1;
    assert !Consistent(db, 1);
  }

  // ---- the effect of one step ----

  /** The primary profile of an account that has one. */
  ghost function ThePrimary(db: Db, u: UserId): (p: RwId)
    requires HasPrimary(db, u)
    ensures p in db.links && PrimaryOf(db, u, p)
  {
    var p :| p in db.links && PrimaryOf(db, u, p);
    p
  }

  /** What applying one planned attachment does to the tables. */
  ghost function Settled(db: Db, a: Action): Result<Db, Error> {
    match Attached(db, a.user, a.rw, !HasPrimary(db, a.user))
    case Err(e) => Err(e)
    case Ok(attached) =>
      if a.kind != AttachExisting && HasPrimary(db, a.user) && a.user in attached.accounts then
        if ProjectedByOther(attached, ThePrimary(db, a.user), a.user) then Err(IntegrityError)
        else Ok(WithProjection(attached, a.user, Some(ThePrimary(db, a.user))))
      else Ok(attached)
  }

  /** The projection an account has after its planned step. */
  ghost function ProjectionAfter(db: Db, a: Action): Option<RwId>
    requires a.user in db.accounts
  {
    if !HasPrimary(db, a.user) then Some(a.rw)
    else if a.kind != AttachExisting then Some(ThePrimary(db, a.user))
    else db.accounts[a.user].rw
  }

  /** The step row by row: one link is added or kept, one projection is written. */
  ghost predicate StepRows(db: Db, a: Action, after: Db)
    requires a.user in db.accounts
  {
    && after.links.Keys == db.links.Keys + {a.rw}
    && (forall r :: r in db.links && r != a.rw ==> after.links[r] == db.links[r])
    && after.links[a.rw].user == a.user
    && (after.links[a.rw].primary <==> !HasPrimary(db, a.user) || PrimaryOf(db, a.user, a.rw))
    && after.accounts == db.accounts[a.user := db.accounts[a.user].(rw := ProjectionAfter(db, a))]
  }

  lemma PlannedIsFree(db: Db, w: Inputs, u: UserId)
    requires Clean(db, w) && u in db.accounts && Planned(db, w, u).Some?
    ensures Free(db, Planned(db, w, u).value.rw, u)
  {
    assert Clear(db, w, u);
  }

  /** In a clean graph nobody else projects an account's primary. */
  lemma PrimaryIsFree(db: Db, w: Inputs, u: UserId, p: RwId)
    requires Clean(db, w) && PrimaryOf(db, u, p)
    ensures Free(db, p, u)
  {
    forall v | v in db.accounts && v != u ensures db.accounts[v].rw != Some(p) {
      assert Clear(db, w, v);
    }
  }

  /** A planned step cannot raise. */
  lemma StepSucceeds(db: Db, a: Action)
    requires a.user in db.accounts && Free(db, a.rw, a.user)
    requires HasPrimary(db, a.user) ==> !ProjectedByOther(db, ThePrimary(db, a.user), a.user)
    requires a.kind == AttachExisting && HasPrimary(db, a.user) ==> !OwnedBy(db, a.rw, a.user)
    ensures Settled(db, a).Ok? && StepRows(db, a, Settled(db, a).value)
  {
    var u := a.user;
    if HasPrimary(db, u) {
      assert ThePrimary(db, u) in LinksOf(db, u);
    }
    assert Attached(db, u, a.rw, !HasPrimary(db, u)).Ok?;
    AttachedRows(db, u, a.rw, !HasPrimary(db, u));
    forall r | r in db.links && r != a.rw && !HasPrimary(db, u)
      ensures !(db.links[r].user == u && db.links[r].primary)
    {
      assert PrimaryOf(db, u, r) ==> HasPrimary(db, u);
    }
    assert a.rw in db.links && db.links[a.rw].primary ==> PrimaryOf(db, u, a.rw);
  }

  // ---- one step keeps the audit clean and is never planned again ----

  lemma StepKeepsSchema(db: Db, w: Inputs, u: UserId, after: Db)
    requires Schema(db) && Clean(db, w) && u in db.accounts && Planned(db, w, u).Some?
    requires StepRows(db, Planned(db, w, u).value, after)
    ensures Schema(after)
  {
    var a := Planned(db, w, u).value;
    PlannedIsFree(db, w, u);
    forall x, y, v | x in after.links && y in after.links && PrimaryOf(after, v, x) && PrimaryOf(after, v, y)
      ensures x == y
    {
      assert x != a.rw ==> PrimaryOf(db, v, x);
      assert y != a.rw ==> PrimaryOf(db, v, y);
    }
    forall v | v in after.accounts && v != u && after.accounts[v].rw.Some?
      ensures after.accounts[v].rw != after.accounts[u].rw
    {
      assert Clear(db, w, v) && Clear(db, w, u);
    }
  }

  /** Once the step is taken nothing more is planned for the account, and it stays clear. */
  lemma StepSettlesAccount(db: Db, w: Inputs, u: UserId, after: Db)
    requires PanelIndex.Grounded(w.panel)
    requires Schema(db) && Clean(db, w) && u in db.accounts && Planned(db, w, u).Some?
    requires StepRows(db, Planned(db, w, u).value, after)
    ensures Planned(after, w, u) == None
    ensures Clear(after, w, u) && MismatchConfirmed(after, w, u)
    ensures after.accounts[u].rw.value in w.panel.ids
  {
    var a := Planned(db, w, u).value;
    PlannedIsFree(db, w, u);
    assert Clear(db, w, u) && MismatchConfirmed(db, w, u);
    if HasPrimary(db, u) {
      var p := ThePrimary(db, u);
      assert p in after.links && PrimaryOf(after, u, p);
      assert Free(after, p, u) by {
        forall v | v in db.accounts && v != u ensures db.accounts[v].rw != Some(p) {
          assert Clear(db, w, v);
        }
      }
      forall q | q in after.links && PrimaryOf(after, u, q) ensures q == p {
        assert PrimaryOf(db, u, q);
      }
    } else {
      assert PrimaryOf(after, u, a.rw);
      forall q | q in after.links && PrimaryOf(after, u, q) ensures q == a.rw {
        assert q != a.rw ==> PrimaryOf(db, u, q);
      }
    }
  }

  /** The links of other accounts are untouched. */
  lemma OtherLinks(db: Db, a: Action, after: Db, v: UserId)
    requires a.user in db.accounts && Free(db, a.rw, a.user) && StepRows(db, a, after) && v != a.user
    ensures forall r :: OwnedBy(after, r, v) <==> OwnedBy(db, r, v)
    ensures forall r :: PrimaryOf(after, v, r) <==> PrimaryOf(db, v, r)
    ensures HasPrimary(after, v) <==> HasPrimary(db, v)
  {
    forall r
      ensures (OwnedBy(after, r, v) <==> OwnedBy(db, r, v)) && (PrimaryOf(after, v, r) <==> PrimaryOf(db, v, r))
    {
      assert r in after.links <==> r in db.links || r == a.rw;
    }
    if HasPrimary(db, v) { assert PrimaryOf(after, v, ThePrimary(db, v)); }
    if HasPrimary(after, v) { assert PrimaryOf(db, v, ThePrimary(after, v)); }
  }

  /** A profile that was free for another account, and is not the one attached, stays free. */
  lemma OtherStaysFree(db: Db, a: Action, after: Db, v: UserId, rw: RwId)
    requires a.user in db.accounts && Free(db, a.rw, a.user) && StepRows(db, a, after) && v != a.user
    requires Free(db, rw, v) && rw != a.rw
    ensures Free(after, rw, v)
  {
    if HasPrimary(db, a.user) {
      assert OwnedBy(db, ThePrimary(db, a.user), a.user);
    }
    forall x | x in after.accounts && x != v ensures after.accounts[x].rw != Some(rw) {
      assert db.accounts[x].rw != Some(rw);
    }
  }

  /** Whatever another account has or wants is not the profile being attached. */
  lemma OtherWantsAnother(db: Db, w: Inputs, u: UserId, v: UserId)
    requires Clean(db, w) && u in db.accounts && v in db.accounts && u != v && Planned(db, w, u).Some?
    ensures var rw := Planned(db, w, u).value.rw;
            db.accounts[v].rw != Some(rw) && Target(db, w, v) != Some(rw)
  {
    var rw := Planned(db, w, u).value.rw;
    PlannedIsFree(db, w, u);
    assert db.accounts[v].rw != Some(rw);
    assert Target(db, w, u) == Some(rw) || db.accounts[u].rw == Some(rw);
    assert Clear(db, w, v);
    assert Target(db, w, v) == Some(rw) ==> Free(db, rw, v);
  }

  /** The step does not concern anybody else: what is planned for them, and whether anything
      blocks them, is as before. */
  lemma StepKeepsOthers(db: Db, w: Inputs, u: UserId, after: Db, v: UserId)
    requires Clean(db, w) && u in db.accounts && Planned(db, w, u).Some?
    requires StepRows(db, Planned(db, w, u).value, after)
    requires v in db.accounts && v != u
    ensures Planned(after, w, v) == Planned(db, w, v) && Target(after, w, v) == Target(db, w, v)
    ensures Clear(after, w, v) && MismatchConfirmed(after, w, v)
    ensures v in w.repairs ==> RepairValid(after, w, v)
  {
    var a := Planned(db, w, u).value;
    PlannedIsFree(db, w, u);
    assert Clear(db, w, v) && MismatchConfirmed(db, w, v);
    OtherLinks(db, a, after, v);
    OtherWantsAnother(db, w, u, v);
    if db.accounts[v].rw.Some? {
      OtherStaysFree(db, a, after, v, db.accounts[v].rw.value);
    } else if Target(db, w, v).Some? {
      OtherStaysFree(db, a, after, v, Target(db, w, v).value);
    }
    forall p | p in after.links && PrimaryOf(after, v, p) && after.accounts[v].rw.Some?
        && after.accounts[v].rw.value != p
      ensures v in w.repairs
    {
      assert PrimaryOf(db, v, p);
    }
    if v in w.repairs { assert RepairValid(db, w, v) && PrimaryOf(after, v, w.repairs[v]); }
  }

  /** The step leaves nothing that blocks. */
  lemma StepKeepsClean(db: Db, w: Inputs, u: UserId, after: Db)
    requires PanelIndex.Grounded(w.panel)
    requires Schema(db) && Clean(db, w) && u in db.accounts && Planned(db, w, u).Some?
    requires StepRows(db, Planned(db, w, u).value, after)
    ensures Clean(after, w)
  {
    StepSettlesAccount(db, w, u, after);
    RepairedAccountIsPrimary(db, w, u, after);
    StepKeepsOnPanel(db, w, u, after);
    assert Target(after, w, u) == None;
    forall v | v in after.accounts ensures Clear(after, w, v) && MismatchConfirmed(after, w, v) {
      if v != u { StepKeepsOthers(db, w, u, after, v); }
    }
    forall v | v in w.repairs ensures RepairValid(after, w, v) {
      assert RepairValid(db, w, v);
      if v != u { StepKeepsOthers(db, w, u, after, v); }
    }
    forall v, x | (v in after.accounts && x in after.accounts && Target(after, w, v).Some?
                   && Target(after, w, v) == Target(after, w, x)) ensures v == x {
      StepKeepsOthers(db, w, u, after, v);
      StepKeepsOthers(db, w, u, after, x);
      assert Target(db, w, v) == Target(db, w, x);
    }
  }

  lemma StepKeepsOnPanel(db: Db, w: Inputs, u: UserId, after: Db)
    requires PanelIndex.Grounded(w.panel)
    requires OnPanel(db, w) && u in db.accounts && Planned(db, w, u).Some?
    requires StepRows(db, Planned(db, w, u).value, after)
    ensures OnPanel(after, w)
  {
    var a := Planned(db, w, u).value;
    assert a.rw in w.panel.ids;
    forall r | r in after.links ensures r in w.panel.ids {
      assert r in db.links || r == a.rw;
    }
    if HasPrimary(db, u) { assert ThePrimary(db, u) in w.panel.ids; }
  }

  /** The heart of convergence: a planned step succeeds, leaves the audit clean, settles its own
      account and changes no other account's plan. */
  lemma StepConverges(db: Db, w: Inputs, u: UserId)
    requires PanelIndex.Grounded(w.panel)
    requires Schema(db) && Clean(db, w) && u in db.accounts && Planned(db, w, u).Some?
    ensures var r := Settled(db, Planned(db, w, u).value);
            && r.Ok? && Schema(r.value) && Clean(r.value, w)
            && r.value.accounts.Keys == db.accounts.Keys
            && Planned(r.value, w, u) == None
            && (forall v :: v in db.accounts && v != u ==>
                  Planned(r.value, w, v) == Planned(db, w, v) && r.value.accounts[v] == db.accounts[v])
            && (u in w.repairs && db.accounts[u].rw == Some(w.repairs[u]) ==>
                 r.value.accounts[u].rw == Some(w.repairs[u]))
  {
    var a := Planned(db, w, u).value;
    PlannedIsFree(db, w, u);
    if HasPrimary(db, u) { PrimaryIsFree(db, w, u, ThePrimary(db, u)); }
    StepSucceeds(db, a);
    var after := Settled(db, a).value;
    StepKeepsSchema(db, w, u, after);
    StepSettlesAccount(db, w, u, after);
    RepairedAccountIsPrimary(db, w, u, after);
    StepKeepsClean(db, w, u, after);
    forall v | v in db.accounts && v != u
      ensures Planned(after, w, v) == Planned(db, w, v) && after.accounts[v] == db.accounts[v]
    {
      StepKeepsOthers(db, w, u, after, v);
    }
  }

  /** A repair names the primary, so an account with a repair keeps its primary through its step. */
  lemma RepairedAccountIsPrimary(db: Db, w: Inputs, u: UserId, after: Db)
    requires Schema(db) && Clean(db, w) && u in db.accounts && Planned(db, w, u).Some?
    requires StepRows(db, Planned(db, w, u).value, after)
    ensures u in w.repairs ==> RepairValid(after, w, u)
    ensures u in w.repairs && db.accounts[u].rw == Some(w.repairs[u]) ==> after.accounts[u].rw == Some(w.repairs[u])
  {
    if u in w.repairs {
      assert RepairValid(db, w, u);
      assert ThePrimary(db, u) == w.repairs[u];
      assert PrimaryOf(after, u, w.repairs[u]);
    }
  }

  /** Writing a confirmed repair keeps everything settled. */
  lemma SyncConverges(db: Db, w: Inputs, u: UserId)
    requires Schema(db) && Clean(db, w) && u in w.repairs && u in db.accounts
    requires forall v :: v in db.accounts ==> Planned(db, w, v) == None
    ensures var after := WithProjection(db, u, Some(w.repairs[u]));
            && PrimaryOf(db, u, w.repairs[u]) && !ProjectedByOther(db, w.repairs[u], u)
            && Schema(after) && Clean(after, w)
            && (forall v :: v in db.accounts ==> Planned(after, w, v) == None)
  {
    var p := w.repairs[u];
    var after := WithProjection(db, u, Some(p));
    assert RepairValid(db, w, u) && Clear(db, w, u);
    PrimaryIsFree(db, w, u, p);
    assert HasPrimary(after, u) by { assert PrimaryOf(after, u, p); }
    forall v | v in db.accounts
      ensures Planned(after, w, v) == None && Clear(after, w, v) && MismatchConfirmed(after, w, v)
      ensures Target(after, w, v) == None
    {
      assert Clear(db, w, v) && MismatchConfirmed(db, w, v) && Planned(db, w, v) == None;
      SamePrimary(db, after, v);
      if v == u {
        assert Free(after, p, u);
      } else if db.accounts[v].rw.Some? {
        assert Free(after, db.accounts[v].rw.value, v);
      }
    }
    forall v | v in w.repairs ensures RepairValid(after, w, v) {
      assert RepairValid(db, w, v);
      assert PrimaryOf(after, v, w.repairs[v]);
    }
    assert Schema(after) by {
      forall a, b, v | a in after.links && b in after.links && PrimaryOf(after, v, a) && PrimaryOf(after, v, b)
        ensures a == b
      {
        assert PrimaryOf(db, v, a) && PrimaryOf(db, v, b);
      }
    }
  }

  lemma SamePrimary(a: Db, b: Db, u: UserId)
    requires a.links == b.links
    ensures HasPrimary(a, u) <==> HasPrimary(b, u)
    ensures forall rw :: PrimaryOf(a, u, rw) <==> PrimaryOf(b, u, rw)
  {
    if HasPrimary(a, u) { assert PrimaryOf(b, u, ThePrimary(a, u)); }
    if HasPrimary(b, u) { assert PrimaryOf(a, u, ThePrimary(b, u)); }
  }

  // ---- the plan shrinks by its first step ----

  lemma {:induction false} PlannedAllSplit(db: Db, w: Inputs, xs: seq<UserId>, ys: seq<UserId>)
    requires forall i :: 0 <= i < |xs| ==> xs[i] in db.accounts
    requires forall i :: 0 <= i < |ys| ==> ys[i] in db.accounts
    ensures forall i :: 0 <= i < |xs + ys| ==> (xs + ys)[i] in db.accounts
    ensures PlannedAll(db, w, xs + ys) == PlannedAll(db, w, xs) + PlannedAll(db, w, ys)
  {
    if xs == [] {
      assert xs + ys == ys;
    } else {
      PlannedAllSplit(db, w, xs[1..], ys);
      assert (xs + ys)[1..] == xs[1..] + ys;
    }
  }

  lemma {:induction false} PlannedAllSame(a: Db, b: Db, w: Inputs, users: seq<UserId>)
    requires forall i :: 0 <= i < |users| ==> users[i] in a.accounts && users[i] in b.accounts
    requires forall i :: 0 <= i < |users| ==> Planned(a, w, users[i]) == Planned(b, w, users[i])
    ensures PlannedAll(a, w, users) == PlannedAll(b, w, users)
  {
    if users != [] {
      PlannedAllSame(a, b, w, users[1..]);
    }
  }

  /** The first planned action belongs to one of the users; once it settles that user and
      concerns nobody else, what is left is the rest of the plan. */
  lemma {:induction false} PlanShrinks(db: Db, w: Inputs, after: Db, users: seq<UserId>)
    requires forall i :: 0 <= i < |users| ==> users[i] in db.accounts && users[i] in after.accounts
    requires forall i, j :: 0 <= i < j < |users| ==> users[i] != users[j]
    requires PlannedAll(db, w, users) != []
    ensures var a := PlannedAll(db, w, users)[0];
            && a.user in db.accounts && a.user in after.accounts && Planned(db, w, a.user) == Some(a)
            && ((Planned(after, w, a.user) == None
                 && forall v :: v in db.accounts && v in after.accounts && v != a.user ==>
                      Planned(after, w, v) == Planned(db, w, v))
                ==> PlannedAll(after, w, users) == PlannedAll(db, w, users)[1..])
  {
    var a := PlannedAll(db, w, users)[0];
    if Planned(db, w, users[0]) == None {
      PlanShrinks(db, w, after, users[1..]);
      assert PlannedAll(db, w, users) == PlannedAll(db, w, users[1..]);
      assert a.user != users[0];
    } else {
      assert a.user == users[0];
      if Planned(after, w, a.user) == None
         && forall v :: v in db.accounts && v in after.accounts && v != a.user ==>
              Planned(after, w, v) == Planned(db, w, v) {
        PlannedAllSame(db, after, w, users[1..]);
      }
    }
  }

  lemma {:induction false} EmptyPlan(db: Db, w: Inputs, users: seq<UserId>, i: nat)
    requires forall k :: 0 <= k < |users| ==> users[k] in db.accounts
    requires PlannedAll(db, w, users) == [] && i < |users|
    ensures Planned(db, w, users[i]) == None
  {
    if i > 0 {
      EmptyPlan(db, w, users[1..], i - 1);
    }
  }

  // ---- the planned repairs ----

  lemma {:induction false} PlannedRepairsSplit(db: Db, w: Inputs, xs: seq<UserId>, u: UserId)
    requires forall i :: 0 <= i < |xs| ==> xs[i] in db.accounts && xs[i] in w.repairs
    requires u in db.accounts && u in w.repairs
    ensures forall i :: 0 <= i < |xs + [u]| ==> (xs + [u])[i] in db.accounts && (xs + [u])[i] in w.repairs
    ensures PlannedRepairs(db, w, xs + [u])
            == PlannedRepairs(db, w, xs)
               + (if db.accounts[u].rw != Some(w.repairs[u]) then [Action(u, w.repairs[u], SyncPrimary)] else [])
  {
    if xs == [] {
      assert xs + [u] == [u];
    } else {
      PlannedRepairsSplit(db, w, xs[1..], u);
      assert (xs + [u])[1..] == xs[1..] + [u];
    }
  }

  /** A step that writes the confirmed primary of a requested repair. */
  predicate IsRepair(w: Inputs, a: Action) {
    a.user in w.repairs && a.rw == w.repairs[a.user] && a.kind == SyncPrimary
  }

  /** Every requested repair is written already or still to come. */
  ghost predicate Covered(db: Db, w: Inputs, rest: seq<Action>) {
    && (forall i :: 0 <= i < |rest| ==> IsRepair(w, rest[i]))
    && (forall u :: u in w.repairs && u in db.accounts ==>
          db.accounts[u].rw == Some(w.repairs[u]) || exists i :: 0 <= i < |rest| && rest[i].user == u)
  }

  lemma {:induction false} RepairsCovered(db: Db, w: Inputs, users: seq<UserId>)
    requires forall i :: 0 <= i < |users| ==> users[i] in db.accounts && users[i] in w.repairs
    ensures var rest := PlannedRepairs(db, w, users);
            && (forall i :: 0 <= i < |rest| ==> IsRepair(w, rest[i]))
            && (forall i :: 0 <= i < |users| ==>
                  || db.accounts[users[i]].rw == Some(w.repairs[users[i]])
                  || exists k :: 0 <= k < |rest| && rest[k].user == users[i])
  {
    if users != [] {
      RepairsCovered(db, w, users[1..]);
      var rest, tail := PlannedRepairs(db, w, users), PlannedRepairs(db, w, users[1..]);
      var d := |rest| - |tail|;
      assert rest[d..] == tail;
      forall i | 0 <= i < |users|
        ensures db.accounts[users[i]].rw == Some(w.repairs[users[i]])
                || exists k :: 0 <= k < |rest| && rest[k].user == users[i]
      {
        if i == 0 {
          assert d == 1 ==> rest[0].user == users[0];
        } else {
          assert users[i] == users[1..][i - 1];
          if db.accounts[users[i]].rw != Some(w.repairs[users[i]]) {
            var k :| 0 <= k < |tail| && tail[k].user == users[i];
            assert rest[k + d] == tail[k];
          }
        }
      }
    }
  }
}
