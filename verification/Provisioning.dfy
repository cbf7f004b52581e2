/** How a delivery finds or creates the buyer's profile: the loop over candidate usernames, and
    what it leaves behind for the next attempt whatever the panel does to it. */
module Provisioning {
  import opened Wrappers
  import opened Ownership
  import opened Markers
  import opened Panel

  // ---- what an attempt may find ----

  /** Nothing was delivered for the order. */
  ghost predicate Untouched(o: Order, v: View) {
    v.granted == [] && forall id :: id in v.profiles ==> !Marked(o, v.profiles[id])
  }

  /** The order's days went to `p`, once, and `p` alone is marked. */
  ghost predicate OnlyMarked(o: Order, v: View, p: RwId) {
    v.granted == [p] && p in v.profiles && forall id :: id in v.profiles ==> (Marked(o, v.profiles[id]) <==> id == p)
  }

  /** A scan of the candidates from `i` meets `p` before any free name. */
  ghost predicate ScanMeets(names: seq<string>, v: View, p: RwId, i: nat)
    requires p in v.profiles
  {
    exists k :: i <= k < |names| && names[k] == v.profiles[p].username
                && forall j :: i <= j < k ==> Used(v.profiles, names[j])
  }

  /** Before the profile is attached: nothing was delivered, or the scan will recognise it. */
  ghost predicate Recoverable(o: Order, names: seq<string>, v: View, i: nat) {
    || Untouched(o, v)
    || (&& |v.granted| == 1 && OnlyMarked(o, v, v.granted[0])
        && Provisioned(o, v.profiles[v.granted[0]]) && ScanMeets(names, v, v.granted[0], i))
  }

  ghost predicate AllUsed(names: seq<string>, v: View, n: nat)
    requires n <= |names|
  {
    forall j :: 0 <= j < n ==> Used(v.profiles, names[j])
  }

  // ---- what others cannot spoil ----

  lemma RelyKeepsUntouched(o: Order, names: seq<string>, a: View, b: View)
    requires Untouched(o, a) && Rely(o, names, a, b)
    ensures Untouched(o, b)
  {
  }

  lemma RelyKeepsOnlyMarked(o: Order, names: seq<string>, a: View, b: View, p: RwId)
    requires OnlyMarked(o, a, p) && Rely(o, names, a, b)
    ensures OnlyMarked(o, b, p) && b.profiles[p].username == a.profiles[p].username
    ensures b.profiles[p].description == a.profiles[p].description
  {
  }

  lemma RelyKeepsRecoverable(o: Order, names: seq<string>, a: View, b: View, i: nat)
    requires Recoverable(o, names, a, i) && Rely(o, names, a, b)
    ensures Recoverable(o, names, b, i)
  {
    if Untouched(o, a) {
      RelyKeepsUntouched(o, names, a, b);
    } else {
      var p := a.granted[0];
      RelyKeepsOnlyMarked(o, names, a, b, p);
      var k :| i <= k < |names| && names[k] == a.profiles[p].username
               && forall j :: i <= j < k ==> Used(a.profiles, names[j]);
      assert names[k] == b.profiles[p].username;
    }
  }

  lemma RelyKeepsUsed(o: Order, names: seq<string>, a: View, b: View, n: nat)
    requires n <= |names| && AllUsed(names, a, n) && Rely(o, names, a, b)
    ensures AllUsed(names, b, n)
  {
  }

  /** A recoverable state in which every name below `i` is taken is recoverable from the start. */
  lemma RecoverableFromStart(o: Order, names: seq<string>, v: View, i: nat)
    requires i <= |names| && AllUsed(names, v, i) && Recoverable(o, names, v, i)
    ensures Recoverable(o, names, v, 0)
  {
    if !Untouched(o, v) {
      var p := v.granted[0];
      var k :| i <= k < |names| && names[k] == v.profiles[p].username
               && forall j :: i <= j < k ==> Used(v.profiles, names[j]);
      assert forall j :: 0 <= j < k ==> Used(v.profiles, names[j]);
    }
  }

  lemma MeetsOnlyTakenNames(names: seq<string>, v: View, p: RwId, i: nat)
    requires i < |names| && p in v.profiles
    ensures ScanMeets(names, v, p, i) ==> Used(v.profiles, names[i])
  {
    if ScanMeets(names, v, p, i) {
      var k :| i <= k < |names| && names[k] == v.profiles[p].username
               && forall j :: i <= j < k ==> Used(v.profiles, names[j]);
      assert Used(v.profiles, names[k]);
    }
  }

  /** A free candidate means that nothing was delivered yet. */
  lemma FreeNameMeansUntouched(o: Order, names: seq<string>, v: View, i: nat)
    requires i < |names| && Recoverable(o, names, v, i) && !Used(v.profiles, names[i])
    ensures Untouched(o, v)
  {
    if |v.granted| == 1 && v.granted[0] in v.profiles {
      MeetsOnlyTakenNames(names, v, v.granted[0], i);
    }
  }

  /** Passing a name that is taken by an unmarked profile loses nothing. */
  lemma SkippingKeepsRecoverable(o: Order, names: seq<string>, v: View, i: nat, id: RwId)
    requires i < |names| && Recoverable(o, names, v, i) && Wf(v)
    requires id in v.profiles && v.profiles[id].username == names[i] && !Provisioned(o, v.profiles[id])
    ensures Recoverable(o, names, v, i + 1) && Used(v.profiles, names[i])
  {
    if !Untouched(o, v) {
      var p := v.granted[0];
      var k :| i <= k < |names| && names[k] == v.profiles[p].username
               && forall j :: i <= j < k ==> Used(v.profiles, names[j]);
      assert k != i;
    }
  }

  /** Creating under a free candidate delivers once, to a profile the scan will recognise. */
  lemma CreationIsRecoverable(o: Order, names: seq<string>, v: View, i: nat, description: string, expire: real,
                              limit: Option<nat>)
    requires i < |names| && Wf(v) && AllUsed(names, v, i) && Untouched(o, v) && !Used(v.profiles, names[i])
    requires Contains(description, ProvisioningMarker(o.tx))
    ensures var after := Created(v, names[i], description, expire, limit);
            && Wf(after) && OnlyMarked(o, after, v.nextId) && Provisioned(o, after.profiles[v.nextId])
            && AllUsed(names, after, i) && Recoverable(o, names, after, i)
  {
    var after := Created(v, names[i], description, expire, limit);
    assert after.profiles[v.nextId].username == names[i];
    forall j | 0 <= j < i ensures Used(after.profiles, names[j]) {
      var id := Holder(v.profiles, names[j]);
      assert id in after.profiles && after.profiles[id] == v.profiles[id];
    }
  }

  // ---- the scan on a panel that does not fail ----

  datatype ScanResult = Adopt(id: RwId) | CreateAt(k: nat) | Exhausted

  ghost function Holder(profiles: map<RwId, Profile>, name: string): (id: RwId)
    requires Used(profiles, name)
    ensures id in profiles && profiles[id].username == name
  {
    var id :| id in profiles && profiles[id].username == name;
    id
  }

  /** Where the loop ends when nothing interferes. */
  ghost function Scan(o: Order, profiles: map<RwId, Profile>, names: seq<string>, i: nat): ScanResult
    requires i <= |names|
    decreases |names| - i
  {
    if i == |names| then Exhausted
    else if !Used(profiles, names[i]) then CreateAt(i)
    else if Provisioned(o, profiles[Holder(profiles, names[i])]) then Adopt(Holder(profiles, names[i]))
    else Scan(o, profiles, names, i + 1)
  }

  /** A retry adopts the profile that an earlier attempt created exactly when its candidates still
      include the profile's name and every candidate below it is still taken. Otherwise it adopts
      nothing: the loop creates a second profile, or runs out of names. */
  lemma {:induction false} RetryAdoptsIff(o: Order, v: View, names: seq<string>, p: RwId, i: nat)
    requires Wf(v) && OnlyMarked(o, v, p) && Provisioned(o, v.profiles[p]) && i <= |names|
    ensures Scan(o, v.profiles, names, i) == Adopt(p) <==> ScanMeets(names, v, p, i)
    ensures Scan(o, v.profiles, names, i).Adopt? ==> Scan(o, v.profiles, names, i) == Adopt(p)
    decreases |names| - i
  {
    if i < |names| {
      MeetsOnlyTakenNames(names, v, p, i);
      if Used(v.profiles, names[i]) && !Provisioned(o, v.profiles[Holder(v.profiles, names[i])]) {
        RetryAdoptsIff(o, v, names, p, i + 1);
        MeetsFromNext(names, v, p, i);
      }
    }
  }

  /** A scan passes a taken name that is not the profile's. */
  lemma MeetsFromNext(names: seq<string>, v: View, p: RwId, i: nat)
    requires i < |names| && p in v.profiles && Used(v.profiles, names[i]) && names[i] != v.profiles[p].username
    ensures ScanMeets(names, v, p, i) <==> ScanMeets(names, v, p, i + 1)
  {
    if ScanMeets(names, v, p, i + 1) {
      var k :| i + 1 <= k < |names| && names[k] == v.profiles[p].username
               && forall j :: i + 1 <= j < k ==> Used(v.profiles, names[j]);
      assert forall j :: i <= j < k ==> Used(v.profiles, names[j]);
    }
  }

  // ---- the loop ----

  datatype Reason =
    | LocalUserNotFound | BadTariff | TargetOwnerConflict | ReadError | CreateError | ApplyError
    | VerificationFailed | ReturnedNone | AllocationFailed | MissingRwId

  datatype Provision = Adopted(info: Info) | CreatedNow(info: Info) | Stop(reason: Reason, retryable: bool)

  datatype Turn = Continue | Finish(p: Provision)

  /** The profile in hand is the one marked profile; only a creation reply may lack its id. */
  ghost predicate InHand(o: Order, v: View, r: Provision)
    requires !r.Stop?
  {
    && |v.granted| == 1 && OnlyMarked(o, v, v.granted[0]) && Provisioned(o, v.profiles[v.granted[0]])
    && Contains(r.info.description, ProvisioningMarker(o.tx))
    && (r.info.rw == Some(v.granted[0]) || (r.CreatedNow? && r.info.rw.None?))
  }

  lemma RelyKeepsInHand(o: Order, names: seq<string>, a: View, b: View, r: Provision)
    requires !r.Stop? && InHand(o, a, r) && Rely(o, names, a, b)
    ensures InHand(o, b, r)
  {
    RelyKeepsOnlyMarked(o, names, a, b, a.granted[0]);
  }

  /** A marked profile that was read is the one in hand. */
  lemma ReadMarked(o: Order, v: View, id: RwId, names: seq<string>, i: nat)
    requires Recoverable(o, names, v, i) && id in v.profiles && Provisioned(o, v.profiles[id])
    ensures InHand(o, v, Adopted(InfoOf(id, v.profiles[id]))) && InHand(o, v, CreatedNow(InfoOf(id, v.profiles[id])))
  {
  }

  function CreationLimit(o: Order): Option<nat> { LimitAfter(None, o.trafficLimit) }

  /** After the create request: read the name back and decide what happened. */
  method AfterCreate(panel: Panel, o: Order, names: seq<string>, i: nat, w: Write)
    returns (turn: Turn)
    requires i < |names| && Wf(panel.ViewOf(o.tx))
    requires AllUsed(names, panel.ViewOf(o.tx), i) && Recoverable(o, names, panel.ViewOf(o.tx), i)
    requires w.Replied? && w.info.Some? ==> InHand(o, panel.ViewOf(o.tx), CreatedNow(w.info.value))
    modifies panel`profiles, panel`nextId, panel`clock
    ensures Rely(o, names, old(panel.ViewOf(o.tx)), panel.ViewOf(o.tx)) && panel.clock >= old(panel.clock)
    ensures turn.Continue? ==>
              AllUsed(names, panel.ViewOf(o.tx), i + 1) && Recoverable(o, names, panel.ViewOf(o.tx), i + 1)
    ensures turn.Finish? ==> Recoverable(o, names, panel.ViewOf(o.tx), 0)
    ensures turn.Finish? && !turn.p.Stop? ==> InHand(o, panel.ViewOf(o.tx), turn.p)
    ensures !panel.faulty ==> panel.ViewOf(o.tx) == old(panel.ViewOf(o.tx)) && panel.clock == old(panel.clock)
    ensures !panel.faulty && w.Replied? && w.info.Some?
              && (exists id :: id in panel.profiles && panel.profiles[id].username == names[i]
                                                              && Provisioned(o, panel.profiles[id])) ==>
              turn.Finish? && turn.p.CreatedNow? && turn.p.info.rw == Some(panel.ViewOf(o.tx).granted[0])
  {
    ghost var before := panel.ViewOf(o.tx);
    var appeared := panel.ReadByUsername(o, names, names[i]);
    ghost var now := panel.ViewOf(o.tx);
    RelyKeepsRecoverable(o, names, before, now, i);
    RelyKeepsUsed(o, names, before, now, i);
    RecoverableFromStart(o, names, now, i);
    if w.Replied? && w.info.Some? {
      RelyKeepsInHand(o, names, before, now, CreatedNow(w.info.value));
    }
    if w.Raised? {
      if appeared.ReadFailed? {
        return Finish(Stop(VerificationFailed, w.retryable || appeared.retryable));
      }
      if appeared.info.None? {
        return Finish(Stop(CreateError, w.retryable));
      }
    } else if appeared.ReadFailed? || appeared.info.None? {
      // a successful reply identifies the profile even when it cannot be read back
      if w.info.Some? {
        return Finish(CreatedNow(w.info.value));
      }
      return Finish(Stop(ReturnedNone, true));
    }
    var info := appeared.info.value;
    if Contains(info.description, ProvisioningMarker(o.tx)) {
      ReadMarked(o, now, info.rw.value, names, i);
      return Finish(if w.Replied? && w.info.Some? then CreatedNow(info) else Adopted(info));
    }
    // somebody else has the name: never attach it
    SkippingKeepsRecoverable(o, names, now, i, info.rw.value);
    return Continue;
  }

  /** One turn of the loop: probe the candidate, create under it when it is free. */
  method TryCandidate(panel: Panel, o: Order, names: seq<string>, i: nat, description: string)
    returns (turn: Turn)
    requires i < |names| && Wf(panel.ViewOf(o.tx)) && Contains(description, ProvisioningMarker(o.tx))
    requires AllUsed(names, panel.ViewOf(o.tx), i) && Recoverable(o, names, panel.ViewOf(o.tx), i)
    modifies panel
    ensures Wf(panel.ViewOf(o.tx)) && panel.nextId >= old(panel.nextId) && panel.clock >= old(panel.clock)
    ensures Grows(old(panel.ViewOf(o.tx)), panel.ViewOf(o.tx))
              && GrantsNewOnly(old(panel.ViewOf(o.tx)), panel.ViewOf(o.tx))
    ensures turn.Continue? ==>
              AllUsed(names, panel.ViewOf(o.tx), i + 1) && Recoverable(o, names, panel.ViewOf(o.tx), i + 1)
    ensures turn.Finish? ==> Recoverable(o, names, panel.ViewOf(o.tx), 0)
    ensures turn.Finish? && !turn.p.Stop? ==> InHand(o, panel.ViewOf(o.tx), turn.p)
    ensures !panel.faulty && turn.Continue? ==> panel.clock == old(panel.clock)
    ensures !panel.faulty ==> FaultFreeTurn(o, names, i, description, old(panel.ViewOf(o.tx)), old(panel.clock),
                                            panel.ViewOf(o.tx), turn)
  {
    ghost var v0 := panel.ViewOf(o.tx);
    var occupied := panel.ReadByUsername(o, names, names[i]);
    ghost var v1 := panel.ViewOf(o.tx);
    RelyKeepsRecoverable(o, names, v0, v1, i);
    RelyKeepsUsed(o, names, v0, v1, i);
    RecoverableFromStart(o, names, v1, i);
    if occupied.ReadFailed? {
      return Finish(Stop(ReadError, occupied.retryable));
    }
    if occupied.info.Some? {
      var info := occupied.info.value;
      if Contains(info.description, ProvisioningMarker(o.tx)) {
        ReadMarked(o, v1, info.rw.value, names, i);
        return Finish(Adopted(info));
      }
      SkippingKeepsRecoverable(o, names, v1, i, info.rw.value);
      return Continue;
    }
    turn := TryCreate(panel, o, names, i, description);
  }

  /** The request to create under a name that was free, and what follows it. */
  method TryCreate(panel: Panel, o: Order, names: seq<string>, i: nat, description: string) returns (turn: Turn)
    requires i < |names| && Wf(panel.ViewOf(o.tx)) && Contains(description, ProvisioningMarker(o.tx))
    requires AllUsed(names, panel.ViewOf(o.tx), i) && Recoverable(o, names, panel.ViewOf(o.tx), i)
    modifies panel
    ensures Wf(panel.ViewOf(o.tx)) && panel.nextId >= old(panel.nextId) && panel.clock >= old(panel.clock)
    ensures Grows(old(panel.ViewOf(o.tx)), panel.ViewOf(o.tx))
    ensures GrantsNewOnly(old(panel.ViewOf(o.tx)), panel.ViewOf(o.tx))
    ensures turn.Continue? ==>
              AllUsed(names, panel.ViewOf(o.tx), i + 1) && Recoverable(o, names, panel.ViewOf(o.tx), i + 1)
    ensures turn.Finish? ==> Recoverable(o, names, panel.ViewOf(o.tx), 0)
    ensures turn.Finish? && !turn.p.Stop? ==> InHand(o, panel.ViewOf(o.tx), turn.p)
    ensures !panel.faulty && !Used(old(panel.profiles), names[i]) ==>
              FaultFreeTurn(o, names, i, description, old(panel.ViewOf(o.tx)), old(panel.clock), panel.ViewOf(o.tx),
                            turn)
  {
    ghost var v1 := panel.ViewOf(o.tx);
    var w, mid, took := panel.Create(o, names, names[i], description, o.days, CreationLimit(o));
    RelyKeepsRecoverable(o, names, v1, mid, i);
    RelyKeepsUsed(o, names, v1, mid, i);
    if took {
      FreeNameMeansUntouched(o, names, mid, i);
      CreationIsRecoverable(o, names, mid, i, description, CreatedExpiry(o.days, panel.clock), CreationLimit(o));
    }
    turn := AfterCreate(panel, o, names, i, w);
  }

  /** Ids only grow, so what was missing and below the counter stays missing; and what was granted
      stays granted. */
  ghost predicate Grows(before: View, after: View) {
    && before.granted <= after.granted && before.nextId <= after.nextId
    && forall id :: id in after.profiles ==> id in before.profiles || before.nextId <= id
  }

  /** Every grant made between the two views went to a profile that did not exist before them. */
  ghost predicate GrantsNewOnly(before: View, after: View) {
    forall k :: |before.granted| <= k < |after.granted| ==> after.granted[k] >= before.nextId
  }

  /** A turn without faults: skip a foreign name, adopt our profile, or create it. */
  ghost predicate FaultFreeTurn(o: Order, names: seq<string>, i: nat, description: string, before: View, clock: real,
                                after: View, turn: Turn)
    requires i < |names|
  {
    if !Used(before.profiles, names[i]) then
      && after == Created(before, names[i], description, CreatedExpiry(o.days, clock), CreationLimit(o))
      && turn.Finish? && turn.p.CreatedNow? && turn.p.info.rw == Some(before.nextId)
    else
      var id := Holder(before.profiles, names[i]);
      && after == before
      && turn == if Provisioned(o, before.profiles[id]) then Finish(Adopted(InfoOf(id, before.profiles[id])))
           else Continue
  }

  /** What the loop does on a reliable panel. */
  ghost predicate FaultFreeProvision(o: Order, names: seq<string>, description: string, before: View, clock: real,
                                     after: View, r: Provision) {
    match Scan(o, before.profiles, names, 0)
    case Adopt(id) => after == before && id in before.profiles && r == Adopted(InfoOf(id, before.profiles[id]))
    case CreateAt(k) =>
      && k < |names| && after == Created(before, names[k], description, CreatedExpiry(o.days, clock), CreationLimit(o))
      && r.CreatedNow? && r.info.rw == Some(before.nextId)
    case Exhausted => after == before && r == Stop(AllocationFailed, false)
  }

  /** The loop over the candidate names. Whatever the panel does, at the end either nothing was
      delivered, or one profile was, which the next scan will recognise; a profile that is
      returned is that one. */
  method FindOrCreate(panel: Panel, o: Order, names: seq<string>, description: string)
    returns (r: Provision)
    requires Wf(panel.ViewOf(o.tx)) && Contains(description, ProvisioningMarker(o.tx))
    requires Recoverable(o, names, panel.ViewOf(o.tx), 0)
    modifies panel
    ensures Wf(panel.ViewOf(o.tx)) && panel.clock >= old(panel.clock)
    ensures Grows(old(panel.ViewOf(o.tx)), panel.ViewOf(o.tx))
              && GrantsNewOnly(old(panel.ViewOf(o.tx)), panel.ViewOf(o.tx))
    ensures Recoverable(o, names, panel.ViewOf(o.tx), 0)
    ensures !r.Stop? ==> InHand(o, panel.ViewOf(o.tx), r)
    ensures !panel.faulty ==> FaultFreeProvision(o, names, description, old(panel.ViewOf(o.tx)), old(panel.clock),
                                                 panel.ViewOf(o.tx), r)
  {
    ghost var before := panel.ViewOf(o.tx);
    for i := 0 to |names|
      invariant Wf(panel.ViewOf(o.tx)) && panel.clock >= old(panel.clock) && Grows(before, panel.ViewOf(o.tx))
      invariant GrantsNewOnly(before, panel.ViewOf(o.tx))
      invariant AllUsed(names, panel.ViewOf(o.tx), i) && Recoverable(o, names, panel.ViewOf(o.tx), i)
      invariant !panel.faulty ==> panel.ViewOf(o.tx) == before && panel.clock == old(panel.clock)
      invariant !panel.faulty ==> Scan(o, before.profiles, names, 0) == Scan(o, before.profiles, names, i)
    {
      var turn := TryCandidate(panel, o, names, i, description);
      if turn.Finish? {
        return turn.p;
      }
    }
    RecoverableFromStart(o, names, panel.ViewOf(o.tx), |names|);
    return Stop(AllocationFailed, false);
  }
}
