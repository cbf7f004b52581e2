/** Collapsing two accounts into one: `account_linking.merge`. */
module Merge {
  import opened Wrappers
  import opened Ownership
  import opened AccountStore

  // ---- which profile survives ----

  /** What the merge reads of a panel user: its id, whether it is active, its data limit. */
  datatype Info = Info(rw: Option<RwId>, active: bool, dataLimit: Option<nat>)

  datatype Tier = Pro | Free | Missing

  datatype Code = MergedPro | MergedFree | Linked

  function Classify(info: Option<Info>): Tier {
    match info
    case None => Missing
    case Some(i) => if i.active && i.dataLimit.None? then Pro else Free
  }

  function RwOf(info: Option<Info>): Option<RwId> {
    match info case None => None case Some(i) => i.rw
  }

  /** Python's `x or y` on optional ids: zero counts as absent. */
  function Or(x: Option<RwId>, y: Option<RwId>): Option<RwId> {
    if x.Some? && x.value != 0 then x else y
  }

  /** `_decide`: the profile to project and the result code. */
  function Decide(a: Tier, t: Tier, aRw: Option<RwId>, tRw: Option<RwId>): (Option<RwId>, Code) {
    if a == Pro && t == Pro then (Or(tRw, aRw), MergedPro)
    else if a == Pro && t == Free then (aRw, MergedPro)
    else if t == Pro && a == Free then (tRw, MergedPro)
    else if a == Free && t == Free then (Or(tRw, aRw), MergedFree)
    else if a != Missing && t == Missing then (aRw, Linked)
    else if t != Missing && a == Missing then (tRw, Linked)
    else (None, Linked)
  }

  /** The panel user is active and has no data limit. */
  predicate Paid(info: Option<Info>) {
    info.Some? && info.value.active && info.value.dataLimit == None
  }

  /** The matrix in the terms of its users: whoever is found alone is chosen, a paid profile over a free one,
      and between two of a kind the Telegram side's, unless it is not identified. */
  lemma DecideMeaning(aInfo: Option<Info>, tInfo: Option<Info>)
    ensures var (chosen, code) := Decide(Classify(aInfo), Classify(tInfo), RwOf(aInfo), RwOf(tInfo));
            && (aInfo == None && tInfo == None ==> chosen == None)
            && (aInfo.Some? && (tInfo == None || (Paid(aInfo) && !Paid(tInfo))) ==> chosen == aInfo.value.rw)
            && (tInfo.Some? && (aInfo == None || (Paid(tInfo) && !Paid(aInfo))) ==> chosen == tInfo.value.rw)
            && (aInfo.Some? && tInfo.Some? && (Paid(aInfo) <==> Paid(tInfo)) ==>
                  chosen == if tInfo.value.rw.Some? && tInfo.value.rw != Some(0) then tInfo.value.rw
                            else aInfo.value.rw)
            && (code == Linked <==> aInfo == None || tInfo == None)
            && (code == MergedPro <==> aInfo.Some? && tInfo.Some? && (Paid(aInfo) || Paid(tInfo)))
  {
  }

  // ---- the merge of the rows ----

  function OrText(a: string, b: string): string { if a == "" then b else a }

  function MaxInt(a: int, b: int): int { if a >= b then a else b }

  /** A missing column value reads as the empty string. */
  function TextOf(texts: map<TextField, string>, f: TextField): string {
    if f in texts then texts[f] else ""
  }

  function CopiedTexts(survivor: map<TextField, string>, loser: map<TextField, string>): map<TextField, string> {
    map f | f in survivor.Keys + loser.Keys :: OrText(TextOf(survivor, f), TextOf(loser, f))
  }

  function MergedAccount(survivor: Account, loser: Account, tgId: int, rw: Option<RwId>): Account {
    Account(rw, Some(tgId), OrText(survivor.email, loser.email), OrText(survivor.panelUuid, loser.panelUuid),
            CopiedTexts(survivor.texts, loser.texts), MaxInt(survivor.vip, loser.vip),
            survivor.credits + loser.credits, MaxInt(survivor.onboarding, loser.onboarding))
  }

  predicate PrimaryOf(db: Db, user: UserId, rw: RwId) {
    OwnedBy(db, rw, user) && db.links[rw].primary
  }

  /** The primary of the merged account: the survivor's, else the loser's, else the oldest link. */
  ghost predicate PrimaryChoice(db: Db, s: UserId, l: UserId, p: Option<RwId>) {
    match p
    case None => forall rw :: rw in db.links ==> db.links[rw].user != s && db.links[rw].user != l
    case Some(rw) =>
      || PrimaryOf(db, s, rw)
      || ((forall r :: r in db.links ==> !PrimaryOf(db, s, r)) && PrimaryOf(db, l, rw))
      || (&& (forall r :: r in db.links ==> !PrimaryOf(db, s, r) && !PrimaryOf(db, l, r))
          && rw in LinksOf(db, s) + LinksOf(db, l)
          && forall r :: r in LinksOf(db, s) + LinksOf(db, l) ==> db.links[rw].id <= db.links[r].id)
  }

  function MovedLinks(links: map<RwId, Link>, s: UserId, l: UserId, p: Option<RwId>): map<RwId, Link> {
    map r | r in links ::
      if links[r].user == s || links[r].user == l then Link(links[r].id, s, p == Some(r)) else links[r]
  }

  function Moved(user: UserId, s: UserId, l: UserId): UserId { if user == l then s else user }

  /** `_apply_merge_db`, given the primary it picks. The pending row of an account is keyed by
      the account, so two of them cannot be merged. */
  function Applied(db: Db, s: UserId, l: UserId, tgId: int, chosen: Option<RwId>, p: Option<RwId>): Result<Db, Error>
    requires s in db.accounts && l in db.accounts && s != l
  {
    var rw := if p.Some? then p else if chosen.Some? then chosen else db.accounts[s].rw;
    var account := MergedAccount(db.accounts[s], db.accounts[l], tgId, rw);
    var accounts := db.accounts[s := account] - {l};
    if rw.Some? && ProjectedByOther(db.(accounts := accounts), rw.value, s) then Err(IntegrityError)
    else if s in db.pending && l in db.pending then Err(IntegrityError)
    else
      Ok(db.(
        accounts := accounts,
        links := MovedLinks(db.links, s, l, p),
        pending := if l in db.pending then (db.pending - {l})[s := db.pending[l]] else db.pending,
        owned := map k | k in db.owned :: Moved(db.owned[k], s, l),
        androidRefs := map k | k in db.androidRefs :: Moved(db.androidRefs[k], s, l)))
  }

  /** No row of any table refers to `user`. */
  ghost predicate Gone(db: Db, user: UserId) {
    && user !in db.accounts && user !in db.pending
    && (forall rw :: rw in db.links ==> db.links[rw].user != user)
    && (forall k :: k in db.owned ==> db.owned[k] != user)
    && (forall k :: k in db.androidRefs ==> db.androidRefs[k] != user)
  }

  /** Everything both accounts had is the survivor's afterwards; the loser has disappeared from
      every table; nobody else notices. */
  lemma MergeConserves(db: Db, s: UserId, l: UserId, tgId: int, chosen: Option<RwId>, p: Option<RwId>)
    requires s in db.accounts && l in db.accounts && s != l && PrimaryChoice(db, s, l, p)
    requires Applied(db, s, l, tgId, chosen, p).Ok?
    ensures var after := Applied(db, s, l, tgId, chosen, p).value;
            && Gone(after, l) && s in after.accounts
            && LinksOf(after, s) == LinksOf(db, s) + LinksOf(db, l)
            && after.links.Keys == db.links.Keys
            && after.accounts[s].credits == db.accounts[s].credits + db.accounts[l].credits
            && after.owned.Keys == db.owned.Keys
            && (forall k :: k in db.owned ==> (after.owned[k] == s <==> db.owned[k] == s || db.owned[k] == l))
            && after.androidRefs.Keys == db.androidRefs.Keys
            && (forall k :: k in db.androidRefs ==>
                  after.androidRefs[k] == if db.androidRefs[k] == l then s else db.androidRefs[k])
            && (forall v :: v != s && v != l ==>
                  && LinksOf(after, v) == LinksOf(db, v)
                  && (v in db.accounts <==> v in after.accounts)
                  && (v in db.accounts ==> after.accounts[v] == db.accounts[v])
                  && (v in db.pending <==> v in after.pending)
                  && (forall k :: k in db.owned ==> (after.owned[k] == v <==> db.owned[k] == v)))
            && (s in after.pending <==> s in db.pending || l in db.pending)
  {
    var after := Applied(db, s, l, tgId, chosen, p).value;
    forall rw ensures rw in LinksOf(after, s) <==> rw in LinksOf(db, s) + LinksOf(db, l) {
      assert rw in after.links <==> rw in db.links;
    }
    forall v | v != s && v != l ensures LinksOf(after, v) == LinksOf(db, v) {
      forall rw ensures rw in LinksOf(after, v) <==> rw in LinksOf(db, v) {
        assert rw in after.links <==> rw in db.links;
      }
    }
  }

  /** The columns of the account that is left: every text is the survivor's, or the loser's where the survivor
      has none; the VIP level and the onboarding version are the higher ones. */
  ghost predicate ColumnsMerged(survivor: Account, loser: Account, tgId: int, a: Account) {
    && a.tgId == Some(tgId) && a.credits == survivor.credits + loser.credits
    && a.email == (if |survivor.email| > 0 then survivor.email else loser.email)
    && a.panelUuid == (if |survivor.panelUuid| > 0 then survivor.panelUuid else loser.panelUuid)
    && (forall f :: HasText(survivor, f) ==> HasText(a, f) && a.texts[f] == survivor.texts[f])
    && (forall f :: !HasText(survivor, f) && HasText(loser, f) ==> HasText(a, f) && a.texts[f] == loser.texts[f])
    && (forall f :: !HasText(survivor, f) && !HasText(loser, f) ==> !HasText(a, f))
    && survivor.vip <= a.vip && loser.vip <= a.vip && (a.vip == survivor.vip || a.vip == loser.vip)
    && survivor.onboarding <= a.onboarding && loser.onboarding <= a.onboarding
    && (a.onboarding == survivor.onboarding || a.onboarding == loser.onboarding)
  }

  ghost predicate HasText(a: Account, f: TextField) { f in a.texts && |a.texts[f]| > 0 }

  /** What the columns of the merged row mean. */
  lemma MergedColumns(survivor: Account, loser: Account, tgId: int, rw: Option<RwId>)
    ensures ColumnsMerged(survivor, loser, tgId, MergedAccount(survivor, loser, tgId, rw))
    ensures MergedAccount(survivor, loser, tgId, rw).rw == rw
  {
  }

  /** The one pending row there may be is the survivor's afterwards, value for value; no other is touched. */
  ghost predicate PendingMerged(db: Db, after: Db, s: UserId, l: UserId) {
    && l !in after.pending
    && (s in db.pending ==> s in after.pending && after.pending[s] == db.pending[s])
    && (l in db.pending ==> s in after.pending && after.pending[s] == db.pending[l])
    && (s in after.pending ==> s in db.pending || l in db.pending)
    && forall v :: v != s && v != l ==>
         (v in after.pending <==> v in db.pending) && (v in db.pending ==> after.pending[v] == db.pending[v])
  }

  /** The links of both are the survivor's, in their old rows, one of them primary; no other is touched. */
  ghost predicate LinksMerged(db: Db, after: Db, s: UserId, l: UserId, p: Option<RwId>) {
    && after.links.Keys == db.links.Keys && after.nextId == db.nextId
    && forall r :: r in db.links ==>
         if db.links[r].user == s || db.links[r].user == l
         then && after.links[r].user == s && after.links[r].id == db.links[r].id
              && (after.links[r].primary <==> p == Some(r))
         else after.links[r] == db.links[r]
  }

  /** What is left of two accounts, row by row and column by column. */
  lemma MergedRows(db: Db, s: UserId, l: UserId, tgId: int, chosen: Option<RwId>, p: Option<RwId>)
    requires s in db.accounts && l in db.accounts && s != l
    requires Applied(db, s, l, tgId, chosen, p).Ok?
    ensures var after := Applied(db, s, l, tgId, chosen, p).value;
            && s in after.accounts && ColumnsMerged(db.accounts[s], db.accounts[l], tgId, after.accounts[s])
            && after.accounts[s].rw == (match p case Some(_) => p
                                        case None => if chosen != None then chosen else db.accounts[s].rw)
            && PendingMerged(db, after, s, l) && LinksMerged(db, after, s, l, p)
  {
    MergedColumns(db.accounts[s], db.accounts[l], tgId,
                  if p.Some? then p else if chosen.Some? then chosen else db.accounts[s].rw);
  }

  /** Two states with the same accounts up to their projections, and the same pending rows. */
  ghost predicate SameColumns(a: Db, b: Db) {
    && b.accounts.Keys == a.accounts.Keys && b.pending == a.pending
    && forall v :: v in a.accounts ==> b.accounts[v].(rw := None) == a.accounts[v].(rw := None)
  }

  lemma BackfillKeepsColumns(db: Db, user: UserId, rw: Option<RwId>)
    requires BackfilledOne(db, user, rw).Ok?
    ensures SameColumns(db, BackfilledOne(db, user, rw).value)
  {
  }

  lemma BackfillsKeepColumns(db: Db, s: UserId, sRw: Option<RwId>, l: UserId, lRw: Option<RwId>, survivorFirst: bool)
    requires Backfilled(db, s, sRw, l, lRw, survivorFirst).Ok?
    ensures SameColumns(db, Backfilled(db, s, sRw, l, lRw, survivorFirst).value)
  {
    var (x, xRw, y, yRw) := if survivorFirst then (s, sRw, l, lRw) else (l, lRw, s, sRw);
    BackfillKeepsColumns(db, x, xRw);
    BackfillKeepsColumns(BackfilledOne(db, x, xRw).value, y, yRw);
  }

  /** The same for a whole merge: the back-fills before it change projections and links only. */
  lemma WholeMergeRows(db: Db, s: UserId, sRw: Option<RwId>, l: UserId, lRw: Option<RwId>, survivorFirst: bool,
                       tgId: int, chosen: Option<RwId>, p: Option<RwId>)
    requires s in db.accounts && l in db.accounts && s != l
    requires Merged(db, s, sRw, l, lRw, survivorFirst, tgId, chosen, p).Ok?
    ensures var after := Merged(db, s, sRw, l, lRw, survivorFirst, tgId, chosen, p).value;
            && after.accounts.Keys == db.accounts.Keys - {l}
            && ColumnsMerged(db.accounts[s], db.accounts[l], tgId, after.accounts[s])
            && PendingMerged(db, after, s, l)
            && forall v :: v in after.accounts && v != s ==>
                 after.accounts[v].(rw := None) == db.accounts[v].(rw := None)
  {
    BackfillsKeepColumns(db, s, sRw, l, lRw, survivorFirst);
    var mid := Backfilled(db, s, sRw, l, lRw, survivorFirst).value;
    MergedRows(mid, s, l, tgId, chosen, p);
    var after := Applied(mid, s, l, tgId, chosen, p).value;
    ProjectionsDoNotMatter(mid, db, s, l, tgId, after.accounts[s]);
    assert after.accounts.Keys == mid.accounts.Keys - {l};
  }

  lemma ProjectionsDoNotMatter(a: Db, b: Db, s: UserId, l: UserId, tgId: int, merged: Account)
    requires SameColumns(b, a) && s in a.accounts && l in a.accounts
    requires ColumnsMerged(a.accounts[s], a.accounts[l], tgId, merged)
    ensures ColumnsMerged(b.accounts[s], b.accounts[l], tgId, merged)
  {
    var x, y := a.accounts[s], b.accounts[s];
    assert x.(rw := None) == y.(rw := None);
    assert a.accounts[l].(rw := None) == b.accounts[l].(rw := None);
  }

  /** The survivor's primary stays primary; without one, the loser's takes its place. */
  lemma MergePrimary(db: Db, s: UserId, l: UserId, tgId: int, chosen: Option<RwId>, p: Option<RwId>)
    requires OwnershipInv(db)
    requires s in db.accounts && l in db.accounts && s != l && PrimaryChoice(db, s, l, p)
    ensures p == if db.accounts[s].rw.Some? then db.accounts[s].rw else db.accounts[l].rw
  {
    assert Consistent(db, s) && Consistent(db, l);
    NoLinks(db, s);
    NoLinks(db, l);
    if p.Some? {
      var rw := p.value;
      assert rw in db.links;
      if db.accounts[s].rw.Some? {
        assert PrimaryOf(db, s, db.accounts[s].rw.value);
      } else if db.accounts[l].rw.Some? {
        assert PrimaryOf(db, l, db.accounts[l].rw.value);
        assert forall r :: r in db.links ==> !PrimaryOf(db, s, r);
      }
    } else {
      assert LinksOf(db, s) == {} && LinksOf(db, l) == {};
    }
  }

  /** Merging keeps the ownership invariant exactly when some link survives or nothing was
      chosen: without any link, a chosen profile is projected but not owned. */
  lemma ApplyKeepsIff(db: Db, s: UserId, l: UserId, tgId: int, chosen: Option<RwId>, p: Option<RwId>)
    requires OwnershipInv(db)
    requires s in db.accounts && l in db.accounts && s != l && PrimaryChoice(db, s, l, p)
    requires !(s in db.pending && l in db.pending)
    ensures var r := Applied(db, s, l, tgId, chosen, p);
            (r.Ok? && OwnershipInv(r.value)) <==> LinksOf(db, s) + LinksOf(db, l) != {} || chosen.None?
  {
    MergePrimary(db, s, l, tgId, chosen, p);
    assert Consistent(db, s) && Consistent(db, l);
    NoLinks(db, s);
    NoLinks(db, l);
    var rw := if p.Some? then p else if chosen.Some? then chosen else db.accounts[s].rw;
    var accounts := db.accounts[s := MergedAccount(db.accounts[s], db.accounts[l], tgId, rw)] - {l};
    if p.Some? {
      forall v | v in accounts && v != s ensures accounts[v].rw != Some(p.value) {
        assert Consistent(db, v);
      }
    }
    if Applied(db, s, l, tgId, chosen, p).Ok? {
      MergeConserves(db, s, l, tgId, chosen, p);
      var after := Applied(db, s, l, tgId, chosen, p).value;
      assert after.accounts[s].rw == rw;
      if p.None? && chosen.Some? {
        NoLinksAfter(after, s);
      } else {
        forall v | v in after.accounts ensures Consistent(after, v) {
          if v != s { assert Consistent(db, v); }
        }
      }
    }
  }

  lemma NoLinksAfter(after: Db, s: UserId)
    requires s in after.accounts && after.accounts[s].rw.Some? && LinksOf(after, s) == {}
    ensures !OwnershipInv(after)
  {
    if OwnershipInv(after) {
      assert Consistent(after, s);
      NoLinks(after, s);
    }
  }

  // ---- the two drivers ----

  /** The backfill of one side's profile: a `ValueError` of `attach` is logged and skipped. */
  function BackfilledOne(db: Db, user: UserId, rw: Option<RwId>): Result<Db, Error> {
    if rw.None? then Ok(db)
    else
      match Attached(db, user, rw.value, false)
      case Ok(after) => Ok(after)
      case Err(IntegrityError) => Err(IntegrityError)
      case Err(_) => Ok(db)
  }

  lemma BackfillKeepsAccounts(db: Db, user: UserId, rw: Option<RwId>)
    requires BackfilledOne(db, user, rw).Ok?
    ensures BackfilledOne(db, user, rw).value.accounts.Keys == db.accounts.Keys
  {
  }

  function BackfilledPair(db: Db, first: UserId, firstRw: Option<RwId>, second: UserId, secondRw: Option<RwId>)
    : Result<Db, Error>
  {
    match BackfilledOne(db, first, firstRw)
    case Err(e) => Err(e)
    case Ok(mid) => BackfilledOne(mid, second, secondRw)
  }

  /** Both sides, in the driver's order. */
  function Backfilled(db: Db, s: UserId, sRw: Option<RwId>, l: UserId, lRw: Option<RwId>, survivorFirst: bool)
    : Result<Db, Error>
  {
    if survivorFirst then BackfilledPair(db, s, sRw, l, lRw) else BackfilledPair(db, l, lRw, s, sRw)
  }

  lemma BackfilledOneKeeps(db: Db, user: UserId, rw: Option<RwId>)
    requires OwnershipInv(db) && user in db.accounts
    ensures BackfilledOne(db, user, rw).Ok?
    ensures var after := BackfilledOne(db, user, rw).value;
            && OwnershipInv(after) && after.accounts.Keys == db.accounts.Keys && after.pending == db.pending
            && LinksOf(after, user)
               == LinksOf(db, user) + (if rw.Some? && !OwnedByOther(db, rw.value, user) then {rw.value} else {})
            && (forall v :: v != user ==> LinksOf(after, v) == LinksOf(db, v))
            && (LinksOf(after, user) == {} ==> after == db)
  {
    if rw.Some? {
      AttachKeeps(db, user, rw.value, false);
      if Attached(db, user, rw.value, false).Ok? {
        var after := BackfilledOne(db, user, rw).value;
        forall v | v != user ensures LinksOf(after, v) == LinksOf(db, v) {
          forall r ensures r in LinksOf(after, v) <==> r in LinksOf(db, v) {}
        }
      }
    }
  }

  /** The profile is linked to an account that takes no part in the merge. */
  predicate LinkedToThird(db: Db, rw: Option<RwId>, s: UserId, l: UserId) {
    rw.Some? && rw.value in db.links && db.links[rw.value].user != s && db.links[rw.value].user != l
  }

  /** After the backfill of both sides the merged account has no link at all exactly when
      neither had one and the panel named only profiles of third accounts, if any. */
  lemma BackfilledLinks(db: Db, s: UserId, sRw: Option<RwId>, l: UserId, lRw: Option<RwId>, sFirst: bool)
    requires OwnershipInv(db) && s in db.accounts && l in db.accounts && s != l
    ensures var r := Backfilled(db, s, sRw, l, lRw, sFirst);
            && r.Ok? && OwnershipInv(r.value)
            && r.value.accounts.Keys == db.accounts.Keys && r.value.pending == db.pending
            && (LinksOf(r.value, s) + LinksOf(r.value, l) == {} <==>
                && LinksOf(db, s) == {} && LinksOf(db, l) == {}
                && (sRw.Some? ==> LinkedToThird(db, sRw, s, l)) && (lRw.Some? ==> LinkedToThird(db, lRw, s, l)))
  {
    var (x, xRw, y, yRw) := if sFirst then (s, sRw, l, lRw) else (l, lRw, s, sRw);
    BackfilledOneKeeps(db, x, xRw);
    var mid := BackfilledOne(db, x, xRw).value;
    BackfilledOneKeeps(mid, y, yRw);
    var after := BackfilledOne(mid, y, yRw).value;
    assert LinksOf(after, s) + LinksOf(after, l) == LinksOf(after, x) + LinksOf(after, y);
    assert LinksOf(after, x) == LinksOf(mid, x);
    assert LinksOf(mid, x) == {} ==> forall r :: r in db.links ==> r !in LinksOf(db, x);
    assert LinksOf(after, x) + LinksOf(after, y) == {} <==> LinksOf(after, x) == {} && LinksOf(after, y) == {};
  }

  /** `merge_android_and_tg` and `merge_tg_into_email`, as far as the tables go: back-fill both
      sides in the driver's order, then merge the rows. `p` is the primary of the merged links. */
  function Merged(db: Db, s: UserId, sRw: Option<RwId>, l: UserId, lRw: Option<RwId>, survivorFirst: bool,
                  tgId: int, chosen: Option<RwId>, p: Option<RwId>): Result<Db, Error>
    requires s in db.accounts && l in db.accounts && s != l
  {
    match Backfilled(db, s, sRw, l, lRw, survivorFirst)
    case Err(e) => Err(e)
    case Ok(mid) =>
      if s in mid.accounts && l in mid.accounts then Applied(mid, s, l, tgId, chosen, p) else Err(UserNotFound)
  }

  /** The back-filled tables, from which the primary is chosen. */
  ghost predicate ChosenAfterBackfill(db: Db, s: UserId, sRw: Option<RwId>, l: UserId, lRw: Option<RwId>,
                                      survivorFirst: bool, p: Option<RwId>) {
    match Backfilled(db, s, sRw, l, lRw, survivorFirst)
    case Err(_) => true
    case Ok(mid) => PrimaryChoice(mid, s, l, p)
  }

  /** A profile was chosen although neither account had a link, and the panel look-ups found
      nothing but profiles that third accounts own. */
  predicate Stranded(db: Db, s: UserId, sRw: Option<RwId>, l: UserId, lRw: Option<RwId>, chosen: Option<RwId>) {
    && LinksOf(db, s) == {} && LinksOf(db, l) == {} && chosen.Some?
    && (sRw.Some? ==> LinkedToThird(db, sRw, s, l)) && (lRw.Some? ==> LinkedToThird(db, lRw, s, l))
  }

  /** A merge keeps the ownership invariant unless it is stranded, and only then. */
  lemma MergeKeepsIff(db: Db, s: UserId, sRw: Option<RwId>, l: UserId, lRw: Option<RwId>, survivorFirst: bool,
                      tgId: int, chosen: Option<RwId>, p: Option<RwId>)
    requires OwnershipInv(db) && s in db.accounts && l in db.accounts && s != l
    requires !(s in db.pending && l in db.pending)
    requires ChosenAfterBackfill(db, s, sRw, l, lRw, survivorFirst, p)
    ensures var r := Merged(db, s, sRw, l, lRw, survivorFirst, tgId, chosen, p);
            (r.Ok? && OwnershipInv(r.value)) <==> !Stranded(db, s, sRw, l, lRw, chosen)
  {
    BackfilledLinks(db, s, sRw, l, lRw, survivorFirst);
    var mid := Backfilled(db, s, sRw, l, lRw, survivorFirst).value;
    ApplyKeepsIff(mid, s, l, tgId, chosen, p);
  }

  /** Look-ups that name no profile of a third account can never strand a merge. */
  lemma OwnProfilesNeverStrand(db: Db, s: UserId, sRw: Option<RwId>, l: UserId, lRw: Option<RwId>, chosen: Option<RwId>)
    requires !LinkedToThird(db, sRw, s, l) && !LinkedToThird(db, lRw, s, l)
    requires chosen == sRw || chosen == lRw || chosen.None?
    ensures !Stranded(db, s, sRw, l, lRw, chosen)
  {
  }

  // ---- in place ----

  /** The oldest of the given links. */
  method Oldest(links: map<RwId, Link>, first: RwId, rows: set<RwId>) returns (oldest: RwId)
    requires first in rows && rows <= links.Keys
    ensures oldest in rows && forall r :: r in rows ==> links[oldest].id <= links[r].id
  {
    oldest := first;
    var rest := rows;
    while exists r :: r in rest
      invariant rest <= rows && oldest in rows
      invariant forall r :: r in rows && r !in rest ==> links[oldest].id <= links[r].id
      decreases rest
    {
      var r :| r in rest;
      if links[r].id < links[oldest].id {
        oldest := r;
      }
      rest := rest - {r};
    }
  }

  method PickPrimary(db: Db, s: UserId, l: UserId) returns (p: Option<RwId>)
    ensures PrimaryChoice(db, s, l, p)
  {
    if rw :| rw in db.links && PrimaryOf(db, s, rw) {
      return Some(rw);
    }
    if rw :| rw in db.links && PrimaryOf(db, l, rw) {
      return Some(rw);
    }
    var rows := LinksOf(db, s) + LinksOf(db, l);
    if rw :| rw in rows {
      var oldest := Oldest(db.links, rw, rows);
      return Some(oldest);
    }
    forall rw | rw in db.links ensures db.links[rw].user != s && db.links[rw].user != l {
      assert rw !in rows;
    }
    return None;
  }

  /** The three UPDATEs on `user_subscriptions`. */
  method MoveLinks(store: AccountStore, s: UserId, l: UserId, p: RwId)
    requires p in store.links && (store.links[p].user == s || store.links[p].user == l)
    modifies store`links
    ensures store.links == MovedLinks(old(store.links), s, l, Some(p))
  {
    store.links := map q | q in store.links ::
      if store.links[q].user == s || store.links[q].user == l then store.links[q].(primary := false)
      else store.links[q];
    store.links := map q | q in store.links ::
      if store.links[q].user == l then store.links[q].(user := s) else store.links[q];
    store.links := store.links[p := store.links[p].(primary := true)];
  }

  /** The rows of the other tables that name the loser are given to the survivor; a second
      pending row for the survivor violates its primary key. */
  method Reparent(store: AccountStore, s: UserId, l: UserId) returns (ok: bool)
    requires s != l
    modifies store`pending, store`owned, store`androidRefs
    ensures ok <==> !(s in old(store.pending) && l in old(store.pending))
    ensures ok ==>
              store.pending == if l in old(store.pending) then (old(store.pending) - {l})[s := old(store.pending)[l]]
                               else old(store.pending)
    ensures ok ==> store.owned == map k | k in old(store.owned) :: Moved(old(store.owned)[k], s, l)
    ensures ok ==> store.androidRefs == map k | k in old(store.androidRefs) :: Moved(old(store.androidRefs)[k], s, l)
  {
    if l in store.pending {
      if s in store.pending {
        return false;
      }
      store.pending := (store.pending - {l})[s := store.pending[l]];
    }
    store.owned := map k | k in store.owned :: if store.owned[k] == l then s else store.owned[k];
    store.androidRefs := map k | k in store.androidRefs ::
      if store.androidRefs[k] == l then s else store.androidRefs[k];
    return true;
  }

  lemma NothingToMove(db: Db, s: UserId, l: UserId)
    requires PrimaryChoice(db, s, l, None)
    ensures MovedLinks(db.links, s, l, None) == db.links
  {
    var moved := MovedLinks(db.links, s, l, None);
    assert moved.Keys == db.links.Keys;
    assert forall q :: q in db.links ==> moved[q] == db.links[q];
  }

  /** The survivor's row, column by column. */
  method MergeColumns(survivor: Account, loser: Account, tgId: int, rw: Option<RwId>) returns (merged: Account)
    ensures merged == MergedAccount(survivor, loser, tgId, if rw.Some? then rw else survivor.rw)
  {
    merged := survivor;
    if merged.email == "" && loser.email != "" {
      merged := merged.(email := loser.email);
    }
    if merged.panelUuid == "" && loser.panelUuid != "" {
      merged := merged.(panelUuid := loser.panelUuid);
    }
    merged := merged.(texts := CopiedTexts(merged.texts, loser.texts));
    merged := merged.(vip := MaxInt(merged.vip, loser.vip), credits := merged.credits + loser.credits);
    merged := merged.(onboarding := MaxInt(merged.onboarding, loser.onboarding), tgId := Some(tgId));
    if rw.Some? {
      merged := merged.(rw := rw);
    }
  }

  /** `_apply_merge_db`: the steps in the order the code takes them. */
  method ApplyMergeDb(store: AccountStore, s: UserId, l: UserId, tgId: int, chosen: Option<RwId>)
    returns (p: Option<RwId>, r: Result<UserId, Error>)
    requires s in store.accounts && l in store.accounts && s != l
    modifies store
    ensures PrimaryChoice(old(store.Snapshot()), s, l, p)
    ensures match Applied(old(store.Snapshot()), s, l, tgId, chosen, p)
            case Ok(after) => store.Snapshot() == after && r == Ok(s)
            case Err(e) => store.Snapshot() == old(store.Snapshot()) && r == Err(e)
  {
    var before := store.Snapshot();
    var survivor, loser := store.accounts[s], store.accounts[l];
    // the unique columns of the loser are released before the survivor takes them
    store.accounts := store.accounts[l := loser.(email := "", rw := None, panelUuid := "")];
    p := PickPrimary(before, s, l);
    if p.Some? {
      MoveLinks(store, s, l, p.value);
    } else {
      NothingToMove(before, s, l);
    }
    var merged := MergeColumns(survivor, loser, tgId, if p.Some? then p else chosen);
    store.accounts := store.accounts[s := merged] - {l};
    assert store.accounts == before.accounts[s := merged] - {l};
    if merged.rw.Some? && ProjectedByOther(store.Snapshot(), merged.rw.value, s) {
      store.Rollback(before);
      return p, Err(IntegrityError);
    }
    var ok := Reparent(store, s, l);
    if !ok {
      store.Rollback(before);
      return p, Err(IntegrityError);
    }
    return p, Ok(s);
  }

  /** Back-fill one side; only an integrity error stops the merge. */
  method BackfillSide(store: AccountStore, user: UserId, rw: Option<RwId>) returns (aborted: bool)
    modifies store
    ensures match BackfilledOne(old(store.Snapshot()), user, rw)
            case Ok(after) => store.Snapshot() == after && !aborted
            case Err(e) => store.Snapshot() == old(store.Snapshot()) && aborted && e == IntegrityError
  {
    aborted := false;
    if rw.Some? {
      var linked := store.Attach(user, rw.value, false);
      aborted := linked == Err(IntegrityError);
    }
  }

  /** The result of a driver: the survivor's projected profile and the result code. */
  datatype Outcome = Outcome(survivor: UserId, loser: UserId, rw: Option<RwId>, code: Code)

  /** `merge_android_and_tg`; the panel's answers are given. The Telegram row survives. */
  method MergeAndroidAndTg(store: AccountStore, android: UserId, tg: UserId, tgId: int,
                           aInfo: Option<Info>, tInfo: Option<Info>)
    returns (r: Result<Outcome, Error>, ghost p: Option<RwId>)
    requires android != tg
    modifies store
    ensures android in old(store.accounts) && tg in old(store.accounts) ==>
              var (chosen, code) := Decide(Classify(aInfo), Classify(tInfo), RwOf(aInfo), RwOf(tInfo));
              && ChosenAfterBackfill(old(store.Snapshot()), tg, RwOf(tInfo), android, RwOf(aInfo), false, p)
              && match Merged(old(store.Snapshot()), tg, RwOf(tInfo), android, RwOf(aInfo), false, tgId, chosen, p)
                 case Ok(after) => && store.Snapshot() == after && tg in after.accounts
                                   && r == Ok(Outcome(tg, android, after.accounts[tg].rw, code))
                 case Err(e) => store.Snapshot() == old(store.Snapshot()) && r == Err(e)
    ensures !(android in old(store.accounts) && tg in old(store.accounts)) ==>
              r == Err(UserNotFound) && store.Snapshot() == old(store.Snapshot())
  {
    p := None;
    var before := store.Snapshot();
    if android !in store.accounts || tg !in store.accounts {
      return Err(UserNotFound), p;
    }
    var (chosen, code) := Decide(Classify(aInfo), Classify(tInfo), RwOf(aInfo), RwOf(tInfo));
    var merged, q := MergeInto(store, tg, RwOf(tInfo), android, RwOf(aInfo), false, tgId, chosen);
    p := q;
    match merged
    case Err(e) => return Err(e), p;
    case Ok(_) => return Ok(Outcome(tg, android, store.accounts[tg].rw, code)), p;
  }

  /** `merge_tg_into_email`; the e-mail row survives and may not be the Telegram row. */
  method MergeTgIntoEmail(store: AccountStore, email: UserId, tg: UserId, tgId: int,
                          aInfo: Option<Info>, tInfo: Option<Info>)
    returns (r: Result<Outcome, Error>, ghost p: Option<RwId>)
    modifies store
    ensures email in old(store.accounts) && tg in old(store.accounts) && email != tg ==>
              var chosen := Or(RwOf(aInfo), RwOf(tInfo));
              && ChosenAfterBackfill(old(store.Snapshot()), email, RwOf(aInfo), tg, RwOf(tInfo), true, p)
              && match Merged(old(store.Snapshot()), email, RwOf(aInfo), tg, RwOf(tInfo), true, tgId, chosen, p)
                 case Ok(after) =>
                   && store.Snapshot() == after && email in after.accounts
                   && r == Ok(Outcome(email, tg, after.accounts[email].rw,
                                      if Paid(aInfo) || Paid(tInfo) then MergedPro
                                      else if aInfo.Some? || tInfo.Some? then MergedFree else Linked))
                 case Err(e) => store.Snapshot() == old(store.Snapshot()) && r == Err(e)
    ensures !(email in old(store.accounts) && tg in old(store.accounts) && email != tg) ==>
              r == Err(UserNotFound) && store.Snapshot() == old(store.Snapshot())
  {
    p := None;
    if email !in store.accounts || tg !in store.accounts || email == tg {
      return Err(UserNotFound), p;
    }
    var a, t := Classify(aInfo), Classify(tInfo);
    var code := if a == Pro || t == Pro then MergedPro else if a == Free || t == Free then MergedFree else Linked;
    var merged, q := MergeInto(store, email, RwOf(aInfo), tg, RwOf(tInfo), true, tgId, Or(RwOf(aInfo), RwOf(tInfo)));
    p := q;
    match merged
    case Err(e) => return Err(e), p;
    case Ok(_) => return Ok(Outcome(email, tg, store.accounts[email].rw, code)), p;
  }

  /** What both drivers do to the tables, in one transaction. */
  method MergeInto(store: AccountStore, s: UserId, sRw: Option<RwId>, l: UserId, lRw: Option<RwId>,
                   survivorFirst: bool, tgId: int, chosen: Option<RwId>)
    returns (r: Result<UserId, Error>, ghost p: Option<RwId>)
    requires s in store.accounts && l in store.accounts && s != l
    modifies store
    ensures ChosenAfterBackfill(old(store.Snapshot()), s, sRw, l, lRw, survivorFirst, p)
    ensures match Merged(old(store.Snapshot()), s, sRw, l, lRw, survivorFirst, tgId, chosen, p)
            case Ok(after) => store.Snapshot() == after && s in after.accounts && r == Ok(s)
            case Err(e) => store.Snapshot() == old(store.Snapshot()) && r == Err(e)
  {
    p := None;
    var before := store.Snapshot();
    var (first, firstRw, second, secondRw) := if survivorFirst then (s, sRw, l, lRw) else (l, lRw, s, sRw);
    var aborted := BackfillSide(store, first, firstRw);
    if aborted {
      return Err(IntegrityError), p;
    }
    BackfillKeepsAccounts(before, first, firstRw);
    ghost var half := store.Snapshot();
    aborted := BackfillSide(store, second, secondRw);
    if aborted {
      store.Rollback(before);
      return Err(IntegrityError), p;
    }
    BackfillKeepsAccounts(half, second, secondRw);
    assert Backfilled(before, s, sRw, l, lRw, survivorFirst) == Ok(store.Snapshot());
    var primary, merged := ApplyMergeDb(store, s, l, tgId, chosen);
    p := primary;
    if merged.Err? {
      store.Rollback(before);
    }
    return merged, p;
  }
}
