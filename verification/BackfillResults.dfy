/** What a back-fill gives every account, in the terms of the panel's users. */
module BackfillResults {
  import opened Wrappers
  import opened Ownership
  import opened Backfill
  import opened PanelIndex

  // ---- what an account still has to get is the same after every step ----

  /** The profiles an account is linked to or is planned to be. */
  function LinksDue(db: Db, w: Inputs, u: UserId): set<RwId>
    requires u in db.accounts
  {
    LinksOf(db, u) + match Planned(db, w, u) case Some(a) => {a.rw} case None => {}
  }

  /** The projection an account has once everything planned for it is done. */
  ghost function ProjectionDue(db: Db, w: Inputs, u: UserId): Option<RwId>
    requires u in db.accounts
  {
    if u in w.repairs then Some(w.repairs[u])
    else match Planned(db, w, u) case Some(a) => ProjectionAfter(db, a) case None => db.accounts[u].rw
  }

  /** Two states of one back-fill: everybody is owed the same, and nothing else differs. */
  ghost predicate SameDue(a: Db, b: Db, w: Inputs) {
    && b.accounts.Keys == a.accounts.Keys && b.pending == a.pending && b.owned == a.owned
    && b.androidRefs == a.androidRefs
    && forall u :: u in a.accounts ==>
         && LinksDue(b, w, u) == LinksDue(a, w, u) && ProjectionDue(b, w, u) == ProjectionDue(a, w, u)
         && b.accounts[u].(rw := None) == a.accounts[u].(rw := None)
  }

  lemma SettledRest(db: Db, a: Action)
    requires Settled(db, a).Ok?
    ensures var after := Settled(db, a).value;
            after.pending == db.pending && after.owned == db.owned && after.androidRefs == db.androidRefs
  {
  }

  lemma LinksAfterStep(db: Db, a: Action, after: Db, v: UserId)
    requires a.user in db.accounts && Free(db, a.rw, a.user) && StepRows(db, a, after)
    ensures LinksOf(after, v) == LinksOf(db, v) + if v == a.user then {a.rw} else {}
  {
    forall r ensures r in LinksOf(after, v) <==> r in LinksOf(db, v) + if v == a.user then {a.rw} else {} {
      assert r in after.links <==> r in db.links || r == a.rw;
    }
  }

  /** Whoever takes the step is owed what the step gave. */
  lemma OwnStepDue(db: Db, w: Inputs, u: UserId, after: Db)
    requires Grounded(w.panel)
    requires Schema(db) && Clean(db, w) && u in db.accounts && Planned(db, w, u).Some?
    requires StepRows(db, Planned(db, w, u).value, after)
    ensures u in after.accounts
    ensures LinksDue(after, w, u) == LinksDue(db, w, u) && ProjectionDue(after, w, u) == ProjectionDue(db, w, u)
  {
    PlannedIsFree(db, w, u);
    StepSettlesAccount(db, w, u, after);
    LinksAfterStep(db, Planned(db, w, u).value, after, u);
  }

  /** Nobody else is owed anything else. */
  lemma OtherStepDue(db: Db, w: Inputs, u: UserId, after: Db, v: UserId)
    requires Schema(db) && Clean(db, w) && u in db.accounts && Planned(db, w, u).Some?
    requires StepRows(db, Planned(db, w, u).value, after)
    requires v in db.accounts && v != u
    ensures v in after.accounts
    ensures LinksDue(after, w, v) == LinksDue(db, w, v) && ProjectionDue(after, w, v) == ProjectionDue(db, w, v)
  {
    var a := Planned(db, w, u).value;
    PlannedIsFree(db, w, u);
    StepKeepsOthers(db, w, u, after, v);
    OtherLinks(db, a, after, v);
    LinksAfterStep(db, a, after, v);
    assert HasPrimary(db, v) ==> ThePrimary(after, v) == ThePrimary(db, v);
  }

  /** A planned step keeps what everybody is owed. */
  lemma StepKeepsDue(db: Db, w: Inputs, u: UserId)
    requires Grounded(w.panel)
    requires Schema(db) && Clean(db, w) && u in db.accounts && Planned(db, w, u).Some?
    ensures Settled(db, Planned(db, w, u).value).Ok?
    ensures SameDue(db, Settled(db, Planned(db, w, u).value).value, w)
  {
    var a := Planned(db, w, u).value;
    PlannedIsFree(db, w, u);
    if HasPrimary(db, u) { PrimaryIsFree(db, w, u, ThePrimary(db, u)); }
    StepSucceeds(db, a);
    SettledRest(db, a);
    StepRowsKeepDue(db, w, u, Settled(db, a).value);
  }

  lemma StepRowsKeepDue(db: Db, w: Inputs, u: UserId, after: Db)
    requires Grounded(w.panel)
    requires Schema(db) && Clean(db, w) && u in db.accounts && Planned(db, w, u).Some?
    requires StepRows(db, Planned(db, w, u).value, after)
    requires after.pending == db.pending && after.owned == db.owned && after.androidRefs == db.androidRefs
    ensures SameDue(db, after, w)
  {
    OwnStepDue(db, w, u, after);
    forall v | v in db.accounts
      ensures LinksDue(after, w, v) == LinksDue(db, w, v) && ProjectionDue(after, w, v) == ProjectionDue(db, w, v)
    {
      if v != u { OtherStepDue(db, w, u, after, v); }
    }
  }

  /** Writing a confirmed repair does, too. */
  lemma SyncKeepsDue(db: Db, w: Inputs, u: UserId)
    requires Schema(db) && Clean(db, w) && u in w.repairs && u in db.accounts
    requires forall v :: v in db.accounts ==> Planned(db, w, v) == None
    ensures SameDue(db, WithProjection(db, u, Some(w.repairs[u])), w)
  {
    SyncConverges(db, w, u);
    var after := WithProjection(db, u, Some(w.repairs[u]));
    forall v | v in db.accounts ensures LinksDue(after, w, v) == LinksDue(db, w, v) {
      assert LinksOf(after, v) == LinksOf(db, v);
    }
  }

  lemma SameDueChains(a: Db, b: Db, c: Db, w: Inputs)
    requires SameDue(a, b, w) && SameDue(b, c, w)
    ensures SameDue(a, c, w)
  {
  }

  // ---- who is found on the panel ----

  ghost predicate HasUuid(items: seq<Item>, rw: RwId, uuid: string) {
    exists i :: 0 <= i < |items| && items[i].id == Some(rw) && items[i].uuid == Some(uuid)
  }

  ghost predicate HasVlessUuid(items: seq<Item>, rw: RwId, uuid: string) {
    exists i :: 0 <= i < |items| && items[i].id == Some(rw) && items[i].vlessUuid == Some(uuid)
  }

  ghost predicate HasEmail(items: seq<Item>, rw: RwId, email: string) {
    exists i :: 0 <= i < |items| && items[i].id == Some(rw) && items[i].email == Some(email)
  }

  ghost predicate NoUuid(items: seq<Item>, uuid: string) {
    forall rw :: !HasUuid(items, rw, uuid) && !HasVlessUuid(items, rw, uuid)
  }

  /** The panel user of an account with a stored uuid: who carries it as panel uuid; failing that, who carries
      it as protocol uuid; failing both, who carries the account's e-mail address. */
  ghost predicate FoundAs(items: seq<Item>, who: Identity, rw: RwId) {
    && who.uuid.Some?
    && var uuid := who.uuid.value;
       || HasUuid(items, rw, uuid)
       || ((forall x :: !HasUuid(items, x, uuid)) && HasVlessUuid(items, rw, uuid))
       || (NoUuid(items, uuid) && who.email.Some? && HasEmail(items, rw, who.email.value))
  }

  ghost predicate TwoByUuid(items: seq<Item>, who: Identity) {
    && who.uuid.Some?
    && exists x, y :: x != y && HasUuid(items, x, who.uuid.value) && HasVlessUuid(items, y, who.uuid.value)
  }

  ghost predicate TwoByEmail(items: seq<Item>, who: Identity) {
    && who.uuid.Some? && who.email.Some? && NoUuid(items, who.uuid.value)
    && exists x, y :: x != y && HasEmail(items, x, who.email.value) && HasEmail(items, y, who.email.value)
  }

  /** It cannot be told which panel user an account is: its uuid names two, or nobody carries the uuid and
      its e-mail address names several, or the account has paid and nobody carries either. */
  ghost predicate Undecided(items: seq<Item>, who: Identity, paid: bool) {
    || TwoByUuid(items, who) || TwoByEmail(items, who)
    || (who.uuid.Some? && paid && forall rw :: !FoundAs(items, who, rw))
  }

  lemma CarriersAre(items: seq<Item>, key: string, rw: RwId)
    ensures Candidate(items, Uuid, key, rw) <==> HasUuid(items, rw, key)
    ensures Candidate(items, Vless, key, rw) <==> HasVlessUuid(items, rw, key)
    ensures Candidate(items, Email, key, rw) <==> HasEmail(items, rw, key)
  {
    forall i: nat | i < |items|
      ensures Carries(items, i, Uuid, key, rw) <==> items[i].id == Some(rw) && items[i].uuid == Some(key)
      ensures Carries(items, i, Vless, key, rw) <==> items[i].id == Some(rw) && items[i].vlessUuid == Some(key)
      ensures Carries(items, i, Email, key, rw) <==> items[i].id == Some(rw) && items[i].email == Some(key)
    {
    }
  }

  /** A column of the index that names nobody twice: who is looked up is who carries the key. */
  lemma LookupIs(items: seq<Item>, c: Column, mapping: map<string, int>, duplicates: set<string>, key: string)
    requires Indexes(items, c, mapping, duplicates) && key !in duplicates
    ensures forall rw :: Lookup(mapping, key) == Some(rw) <==> Candidate(items, c, key, rw)
  {
    forall rw | Candidate(items, c, key, rw) ensures key in mapping && mapping[key] == rw {
      assert forall other :: Candidate(items, c, key, other) ==> other == rw;
    }
  }

  lemma VlessIndexedIff(items: seq<Item>, mapping: map<string, int>, duplicates: set<string>, key: string)
    requires Indexes(items, Vless, mapping, duplicates)
    ensures key in mapping || key in duplicates <==> exists rw :: HasVlessUuid(items, rw, key)
  {
    forall rw { CarriersAre(items, key, rw); }
    if key !in duplicates {
      LookupIs(items, Vless, mapping, duplicates, key);
      assert key in mapping ==> HasVlessUuid(items, mapping[key], key);
    } else {
      var a, b :| a != b && Candidate(items, Vless, key, a) && Candidate(items, Vless, key, b);
      assert HasVlessUuid(items, a, key);
    }
  }

  /** No uuid is carried twice in its column. */
  predicate NoDuplicates(w: Inputs) { w.panel.duplicateUuids == {} && w.panel.duplicateVless == {} }

  lemma UuidLookups(items: seq<Item>, w: Inputs, uuid: string)
    requires IndexOf(items, w.panel) && NoDuplicates(w)
    ensures forall rw :: Lookup(w.panel.byUuid, uuid) == Some(rw) <==> HasUuid(items, rw, uuid)
    ensures forall rw :: Lookup(w.panel.byVless, uuid) == Some(rw) <==> HasVlessUuid(items, rw, uuid)
  {
    LookupIs(items, Uuid, w.panel.byUuid, w.panel.duplicateUuids, uuid);
    LookupIs(items, Vless, w.panel.byVless, w.panel.duplicateVless, uuid);
    forall rw { CarriersAre(items, uuid, rw); }
  }

  lemma EmailLookup(items: seq<Item>, w: Inputs, email: string)
    requires IndexOf(items, w.panel)
    ensures email !in w.panel.duplicateEmails ==>
              forall rw :: Lookup(w.panel.byEmail, email) == Some(rw) <==> HasEmail(items, rw, email)
    ensures email in w.panel.duplicateEmails
            <==> exists x, y :: x != y && HasEmail(items, x, email) && HasEmail(items, y, email)
  {
    if email !in w.panel.duplicateEmails {
      LookupIs(items, Email, w.panel.byEmail, w.panel.duplicateEmails, email);
    }
    forall rw { CarriersAre(items, email, rw); }
    assert email in w.panel.duplicateEmails
      <==> exists a, b :: a != b && Candidate(items, Email, email, a) && Candidate(items, Email, email, b);
  }

  /** Who carries the identifiers of an account, as the index answers. */
  lemma LookupsAre(items: seq<Item>, w: Inputs, who: Identity)
    requires IndexOf(items, w.panel) && NoDuplicates(w) && who.uuid.Some?
    ensures var uuid := who.uuid.value;
            && (forall rw :: Lookup(w.panel.byUuid, uuid) == Some(rw) <==> HasUuid(items, rw, uuid))
            && (forall rw :: Lookup(w.panel.byVless, uuid) == Some(rw) <==> HasVlessUuid(items, rw, uuid))
            && (NoUuid(items, uuid)
                <==> Lookup(w.panel.byUuid, uuid).None? && Lookup(w.panel.byVless, uuid).None?)
    ensures who.email.Some? ==>
              var email := who.email.value;
              && (email in w.panel.duplicateEmails
                  <==> exists x, y :: x != y && HasEmail(items, x, email) && HasEmail(items, y, email))
              && (email !in w.panel.duplicateEmails ==>
                    forall rw :: Lookup(w.panel.byEmail, email) == Some(rw) <==> HasEmail(items, rw, email))
  {
    var uuid := who.uuid.value;
    UuidLookups(items, w, uuid);
    var legacy, protocol := Lookup(w.panel.byUuid, uuid), Lookup(w.panel.byVless, uuid);
    assert legacy.Some? ==> HasUuid(items, legacy.value, uuid);
    assert protocol.Some? ==> HasVlessUuid(items, protocol.value, uuid);
    if who.email.Some? { EmailLookup(items, w, who.email.value); }
  }

  /** The panel user an account resolves to is the one it is found as. */
  lemma ResolveFinds(items: seq<Item>, w: Inputs, u: UserId)
    requires IndexOf(items, w.panel) && NoDuplicates(w)
    requires !Resolve(w, u).AmbiguousIds? && !Resolve(w, u).AmbiguousEmail?
    ensures forall rw :: Resolve(w, u).Resolved? && Resolve(w, u).rw == rw <==> FoundAs(items, WhoIs(w, u), rw)
  {
    var who := WhoIs(w, u);
    if who.uuid.Some? {
      LookupsAre(items, w, who);
    }
  }

  lemma AmbiguousIdsIff(items: seq<Item>, w: Inputs, u: UserId)
    requires IndexOf(items, w.panel) && NoDuplicates(w)
    ensures Resolve(w, u).AmbiguousIds? <==> TwoByUuid(items, WhoIs(w, u))
  {
    if WhoIs(w, u).uuid.Some? { LookupsAre(items, w, WhoIs(w, u)); }
  }

  lemma AmbiguousEmailIff(items: seq<Item>, w: Inputs, u: UserId)
    requires IndexOf(items, w.panel) && NoDuplicates(w)
    ensures Resolve(w, u).AmbiguousEmail? <==> TwoByEmail(items, WhoIs(w, u))
    ensures Resolve(w, u).AmbiguousEmail? ==> exists x :: FoundAs(items, WhoIs(w, u), x)
  {
    var who := WhoIs(w, u);
    if who.uuid.Some? { LookupsAre(items, w, who); }
    if TwoByEmail(items, who) {
      var x, y :| x != y && HasEmail(items, x, who.email.value) && HasEmail(items, y, who.email.value);
      assert FoundAs(items, who, x);
    }
  }

  /** An account is reported as ambiguous or unresolved exactly when it cannot be told who it is. */
  lemma ResolveBlocksIff(items: seq<Item>, w: Inputs, u: UserId)
    requires IndexOf(items, w.panel) && NoDuplicates(w)
    ensures var found := Resolve(w, u);
            found.AmbiguousIds? || found.AmbiguousEmail? || found.Unresolved?
            <==> Undecided(items, WhoIs(w, u), u in w.activePaid)
  {
    AmbiguousIdsIff(items, w, u);
    AmbiguousEmailIff(items, w, u);
    if !Resolve(w, u).AmbiguousIds? && !Resolve(w, u).AmbiguousEmail? {
      ResolveFinds(items, w, u);
      assert Resolve(w, u).Resolved? ==> FoundAs(items, WhoIs(w, u), Resolve(w, u).rw);
    }
  }

  /** The kind of the step says by what the account was found. */
  lemma ResolveKind(items: seq<Item>, w: Inputs, u: UserId)
    requires IndexOf(items, w.panel) && NoDuplicates(w) && Resolve(w, u).Resolved?
    ensures var uuid, found := WhoIs(w, u).uuid.value, Resolve(w, u);
            found.kind == if exists x :: HasUuid(items, x, uuid) then ResolveLegacy
                          else if exists x :: HasVlessUuid(items, x, uuid) then ResolveProtocol
                          else ResolveEmail
  {
    LookupsAre(items, w, WhoIs(w, u));
  }

  function WhoIs(w: Inputs, u: UserId): Identity {
    if u in w.identities then w.identities[u] else Identity(None, None)
  }

  // ---- what a run leaves behind ----

  /** One account after a back-fill that was applied: with a projection, it is linked to the projected
      profile; without, to the one it was found as, if any; to nothing else that is new. Its primary is
      projected if it had one; otherwise what it projected or was found as. Nothing else of it changed. */
  ghost predicate Filled(items: seq<Item>, w: Inputs, db: Db, after: Db, u: UserId)
    requires u in db.accounts
  {
    var who, had := WhoIs(w, u), db.accounts[u].rw;
    && u in after.accounts && after.accounts[u].(rw := None) == db.accounts[u].(rw := None)
    && (had.Some? ==> LinksOf(after, u) == LinksOf(db, u) + {had.value})
    && (had.None? ==> forall rw :: FoundAs(items, who, rw) ==> LinksOf(after, u) == LinksOf(db, u) + {rw})
    && (had.None? && (forall rw :: !FoundAs(items, who, rw)) ==> LinksOf(after, u) == LinksOf(db, u))
    && (forall p :: p in db.links && db.links[p].user == u && db.links[p].primary
                    && (had.Some? || u in w.repairs || exists rw :: FoundAs(items, who, rw)) ==>
          after.accounts[u].rw == Some(p))
    && ((forall p :: p in db.links && db.links[p].user == u ==> !db.links[p].primary) ==>
          && (had.Some? ==> after.accounts[u].rw == had)
          && (had.None? ==> forall rw :: FoundAs(items, who, rw) ==> after.accounts[u].rw == Some(rw)))
    && (had.None? && u !in w.repairs && (forall rw :: !FoundAs(items, who, rw)) ==> after.accounts[u].rw == None)
  }

  ghost predicate EverybodyFilled(items: seq<Item>, w: Inputs, db: Db, after: Db) {
    && after.accounts.Keys == db.accounts.Keys && after.pending == db.pending && after.owned == db.owned
    && after.androidRefs == db.androidRefs
    && forall u :: u in db.accounts ==> Filled(items, w, db, after, u)
  }

  /** An account of a clean graph is blocked by nothing, so it can be told who it is. */
  lemma CleanDecides(items: seq<Item>, w: Inputs, db: Db, u: UserId)
    requires IndexOf(items, w.panel) && Clean(db, w) && u in db.accounts && db.accounts[u].rw.None?
    ensures !Undecided(items, WhoIs(w, u), u in w.activePaid)
    ensures forall rw :: Target(db, w, u) == Some(rw) <==> FoundAs(items, WhoIs(w, u), rw)
  {
    assert Clear(db, w, u);
    ResolveBlocksIff(items, w, u);
    ResolveFinds(items, w, u);
  }

  lemma FinalLinks(w: Inputs, db: Db, after: Db, u: UserId)
    requires Ready(after, w) && SameDue(db, after, w) && u in db.accounts
    ensures LinksOf(after, u) == LinksDue(db, w, u) && after.accounts[u].rw == ProjectionDue(db, w, u)
  {
    assert Planned(after, w, u) == None;
    assert LinksDue(after, w, u) == LinksOf(after, u);
  }

  lemma AccountIsFilled(items: seq<Item>, w: Inputs, db: Db, after: Db, u: UserId)
    requires IndexOf(items, w.panel) && Schema(db) && Clean(db, w) && u in db.accounts
    requires Ready(after, w) && SameDue(db, after, w)
    ensures Filled(items, w, db, after, u)
  {
    FinalLinks(w, db, after, u);
    assert MismatchConfirmed(db, w, u);
    assert u in w.repairs ==> RepairValid(db, w, u);
    if db.accounts[u].rw.None? {
      CleanDecides(items, w, db, u);
    } else {
      var rw := db.accounts[u].rw.value;
      assert Planned(db, w, u) == None ==> rw in LinksOf(db, u);
    }
    forall p | p in db.links && db.links[p].user == u && db.links[p].primary
      ensures HasPrimary(db, u) && ThePrimary(db, u) == p
    {
      assert PrimaryOf(db, u, p);
    }
  }

  /** A clean graph, brought to readiness by its plan. */
  lemma DueIsFilled(items: seq<Item>, w: Inputs, db: Db, after: Db)
    requires IndexOf(items, w.panel) && Schema(db) && Clean(db, w) && Ready(after, w) && SameDue(db, after, w)
    ensures EverybodyFilled(items, w, db, after)
  {
    forall u | u in db.accounts ensures Filled(items, w, db, after, u) {
      AccountIsFilled(items, w, db, after, u);
    }
  }
}
