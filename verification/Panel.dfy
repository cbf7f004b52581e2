/** The remote panel as one delivery sees it. Between any two of its calls anybody else may
    change the panel (`Foreign`); a call may fail before it takes effect, or take effect and
    lose its reply. `Panel.faulty` switches all of that on. */
module Panel {
  import opened Wrappers
  import opened Ownership
  import opened Markers
  import Renewal

  datatype Status = Active | Disabled | Limited | Expired

  datatype Profile = Profile(username: string, description: string, expire: real, status: Status, limit: Option<nat>)

  /** A paid order, with its delivery target already resolved. */
  datatype Order = Order(
    tx: string, user: UserId, days: nat, tgId: Option<int>, tgUsername: Option<string>, source: string,
    squads: seq<string>, externalSquad: string, description: string, hasTarget: bool, trafficLimit: Option<nat>)

  /** What a client is told about a profile; a reply may lack the id. */
  datatype Info = Info(rw: Option<RwId>, username: string, description: string, expire: Option<int>,
                       active: bool, limited: bool)

  function InfoOf(id: RwId, p: Profile): Info {
    Info(Some(id), p.username, p.description, Some(p.expire.Floor), p.status == Active, p.limit.Some?)
  }

  datatype Read = ReadFailed(retryable: bool) | Got(info: Option<Info>)

  datatype Write = Raised(retryable: bool) | Replied(info: Option<Info>)

  // ---- the state of the panel, for one order ----

  /** The profiles, the next id, and the profiles that were given this order's days, in order. */
  datatype View = View(profiles: map<RwId, Profile>, nextId: RwId, granted: seq<RwId>)

  predicate Used(profiles: map<RwId, Profile>, name: string) {
    exists id | id in profiles :: profiles[id].username == name
  }

  predicate UniqueNames(profiles: map<RwId, Profile>) {
    forall a, b | a in profiles && b in profiles :: profiles[a].username == profiles[b].username ==> a == b
  }

  predicate Provisioned(o: Order, p: Profile) { Contains(p.description, ProvisioningMarker(o.tx)) }

  /** The profile carries a marker of the order. */
  predicate Marked(o: Order, p: Profile) {
    Provisioned(o, p) || Contains(p.description, DeliveryMarker(o.tx))
  }

  predicate Wf(v: View) {
    UniqueNames(v.profiles) && forall id | id in v.profiles :: id < v.nextId
  }

  /** What others may do while the order is open: anything, except that they keep the name and the
      description of a profile marked for it, mark none themselves, free none of its candidate
      names, and that the panel never reuses an id. */
  predicate Rely(o: Order, names: seq<string>, before: View, after: View) {
    && Wf(after) && before.nextId <= after.nextId && after.granted == before.granted
    && (forall id | id in before.profiles :: Marked(o, before.profiles[id]) ==>
          && id in after.profiles && after.profiles[id].username == before.profiles[id].username
          && after.profiles[id].description == before.profiles[id].description)
    && (forall id | id in after.profiles :: Marked(o, after.profiles[id]) ==>
          id in before.profiles && Marked(o, before.profiles[id]))
    && (forall i | 0 <= i < |names| :: Used(before.profiles, names[i]) ==> Used(after.profiles, names[i]))
    && (forall id | id in after.profiles :: id in before.profiles || before.nextId <= id)
  }

  lemma RelyReflexive(o: Order, names: seq<string>, v: View)
    requires Wf(v)
    ensures Rely(o, names, v, v)
  {
  }

  // ---- effects ----

  function Created(v: View, name: string, description: string, expire: real, limit: Option<nat>): View {
    View(v.profiles[v.nextId := Profile(name, description, expire, Active, limit)], v.nextId + 1,
        v.granted + [v.nextId])
  }

  /** The traffic limit after an update: an explicit zero lifts it. */
  function LimitAfter(kept: Option<nat>, sent: Option<nat>): Option<nat> {
    if sent.None? then kept else if sent.value == 0 then None else sent
  }

  function Renewed(v: View, id: RwId, username: string, description: string, expire: Option<real>, sent: Option<nat>)
    : View
    requires id in v.profiles
  {
    var p := v.profiles[id];
    v.(profiles := v.profiles[id := Profile(if username == "" then p.username else username, description,
                                            if expire.None? then p.expire else expire.value, Active,
                                            LimitAfter(p.limit, sent))],
       granted := v.granted + [id])
  }

  /** The expiry of a request is absolute, so writing it again changes no profile. */
  lemma WritingAgainChangesNothing(v: View, id: RwId, username: string, description: string, expire: Option<real>,
                                   sent: Option<nat>)
    requires id in v.profiles
    ensures var once := Renewed(v, id, username, description, expire, sent);
            Renewed(once, id, username, description, expire, sent).profiles == once.profiles
  {
    var once := Renewed(v, id, username, description, expire, sent);
    assert Renewed(once, id, username, description, expire, sent).profiles[id] == once.profiles[id];
  }

  class Panel {
    var profiles: map<RwId, Profile>
    var nextId: RwId
    var clock: real
    const faulty: bool
    /** For each order, the profiles that received its days. */
    ghost var grants: map<string, seq<RwId>>

    ghost function Granted(tx: string): seq<RwId>
      reads this
    {
      if tx in grants then grants[tx] else []
    }

    /** The panel from the point of view of one order. */
    ghost function ViewOf(tx: string): View
      reads this
    {
      View(profiles, nextId, Granted(tx))
    }

    /** Somebody else's changes, and the passing of time. */
    method Foreign(o: Order, names: seq<string>)
      requires Wf(ViewOf(o.tx))
      modifies this`profiles, this`nextId, this`clock
      ensures Rely(o, names, old(ViewOf(o.tx)), ViewOf(o.tx)) && clock >= old(clock)
      ensures !faulty ==> ViewOf(o.tx) == old(ViewOf(o.tx)) && clock == old(clock)
    {
      RelyReflexive(o, names, ViewOf(o.tx));
      if faulty {
        var others: map<RwId, Profile> := *;
        var id: RwId := *;
        if Rely(o, names, View(profiles, nextId, []), View(others, id, [])) {
          profiles, nextId := others, id;
        }
        var later: real := *;
        if later > clock {
          clock := later;
        }
      }
    }

    /** Whether the adversary strikes now; never on a reliable panel. */
    method Fault() returns (strikes: bool, retryable: bool)
      ensures !faulty ==> !strikes
    {
      strikes, retryable := false, false;
      if faulty {
        strikes, retryable := *, *;
      }
    }

    /** `get_user_by_id`, strict: a missing profile is not an error. */
    method ReadById(o: Order, names: seq<string>, id: RwId) returns (r: Read)
      requires Wf(ViewOf(o.tx))
      modifies this`profiles, this`nextId, this`clock
      ensures Rely(o, names, old(ViewOf(o.tx)), ViewOf(o.tx)) && clock >= old(clock)
      ensures r.Got? ==> r.info == if id in profiles then Some(InfoOf(id, profiles[id])) else None
      ensures !faulty ==> r.Got? && ViewOf(o.tx) == old(ViewOf(o.tx)) && clock == old(clock)
    {
      Foreign(o, names);
      var strikes, retryable := Fault();
      if strikes {
        return ReadFailed(retryable);
      }
      return Got(if id in profiles then Some(InfoOf(id, profiles[id])) else None);
    }

    /** `get_user_by_username`, strict. */
    method ReadByUsername(o: Order, names: seq<string>, name: string) returns (r: Read)
      requires Wf(ViewOf(o.tx))
      modifies this`profiles, this`nextId, this`clock
      ensures Rely(o, names, old(ViewOf(o.tx)), ViewOf(o.tx)) && clock >= old(clock)
      ensures r.Got? && r.info.None? ==> !Used(profiles, name)
      ensures r.Got? && r.info.Some? ==>
                && r.info.value.rw.Some? && r.info.value.rw.value in profiles
                && r.info.value == InfoOf(r.info.value.rw.value, profiles[r.info.value.rw.value])
                && r.info.value.username == name
      ensures !faulty ==> r.Got? && ViewOf(o.tx) == old(ViewOf(o.tx)) && clock == old(clock)
    {
      Foreign(o, names);
      var strikes, retryable := Fault();
      if strikes {
        return ReadFailed(retryable);
      }
      if id :| id in profiles && profiles[id].username == name {
        return Got(Some(InfoOf(id, profiles[id])));
      }
      return Got(None);
    }

    ghost method RecordGrant(tx: string, id: RwId)
      modifies this`grants
      ensures grants == old(grants)[tx := old(Granted(tx)) + [id]]
    {
      grants := grants[tx := Granted(tx) + [id]];
    }

    /** `create_user`: `mid` is the panel at the moment the request arrives. */
    method Create(o: Order, names: seq<string>, name: string, description: string, days: int, limit: Option<nat>)
      returns (w: Write, ghost mid: View, ghost took: bool)
      requires Wf(ViewOf(o.tx))
      modifies this
      ensures Rely(o, names, old(ViewOf(o.tx)), mid) && clock >= old(clock)
      ensures !took ==> ViewOf(o.tx) == mid && (w.Raised? || w.info.None?)
      ensures took ==> !Used(mid.profiles, name)
                       && ViewOf(o.tx) == Created(mid, name, description, CreatedExpiry(days, clock), limit)
                       && (w.Replied? && w.info.Some? ==>
                             && (w.info.value.rw == None || w.info.value.rw == Some(mid.nextId))
                             && w.info.value.(rw := None) == Info(None, name, description, None, true, false))
      ensures !faulty ==> mid == old(ViewOf(o.tx)) && clock == old(clock)
      ensures !faulty && !Used(mid.profiles, name) ==>
                took && w == Replied(Some(Info(Some(mid.nextId), name, description, None, true, false)))
    {
      Foreign(o, names);
      mid, took := ViewOf(o.tx), false;
      if Used(profiles, name) {
        return Raised(false), mid, took;
      }
      var strikes, retryable := Fault();
      if strikes {
        var silent, _ := Fault();
        return if silent then Replied(None) else Raised(retryable), mid, took;
      }
      took := true;
      var id := nextId;
      profiles := profiles[id := Profile(name, description, CreatedExpiry(days, clock), Active, limit)];
      nextId := nextId + 1;
      RecordGrant(o.tx, id);
      strikes, retryable := Fault();
      if strikes {
        var silent, _ := Fault();
        return if silent then Replied(None) else Raised(retryable), mid, took;
      }
      strikes, retryable := Fault();
      return Replied(Some(Info(if strikes then None else Some(id), name, description, None, true, false))), mid, took;
    }

    /** `update_user_by_id`: the expiry is computed from the day count when the request is built. */
    method Update(o: Order, names: seq<string>, id: RwId, username: string, description: string, days: int,
                  sent: Option<nat>)
      returns (w: Write, ghost mid: View, ghost took: bool)
      requires Wf(ViewOf(o.tx))
      modifies this
      ensures Rely(o, names, old(ViewOf(o.tx)), mid) && clock >= old(clock)
      ensures !took ==> ViewOf(o.tx) == mid && (w.Raised? || w.info.None?)
      ensures took ==> && id in mid.profiles
                       && (username == "" || !Used(mid.profiles - {id}, username))
                       && ViewOf(o.tx) == Renewed(mid, id, username, description, UpdatedExpiry(days, clock), sent)
      ensures !faulty ==> mid == old(ViewOf(o.tx)) && clock == old(clock)
      ensures !faulty && id in mid.profiles && (username == "" || username == mid.profiles[id].username) ==>
                took && w.Replied? && w.info.Some?
    {
      Foreign(o, names);
      mid, took := ViewOf(o.tx), false;
      if id !in profiles || (username != "" && Used(profiles - {id}, username)) {
        if username != "" && id in profiles && username == profiles[id].username {
          NameIsOwn(profiles, id);
        }
        return Raised(false), mid, took;
      }
      var strikes, retryable := Fault();
      if strikes {
        var silent, _ := Fault();
        return if silent then Replied(None) else Raised(retryable), mid, took;
      }
      took := true;
      var p := profiles[id];
      var expire := UpdatedExpiry(days, clock);
      profiles := profiles[id := Profile(if username == "" then p.username else username, description,
                                         if expire.None? then p.expire else expire.value, Active,
                                         LimitAfter(p.limit, sent))];
      RecordGrant(o.tx, id);
      strikes, retryable := Fault();
      if strikes {
        var silent, _ := Fault();
        return if silent then Replied(None) else Raised(retryable), mid, took;
      }
      return Replied(Some(InfoOf(id, profiles[id]))), mid, took;
    }
  }

  function CreatedExpiry(days: int, clock: real): real {
    clock + Renewal.DAY * Renewal.CoerceDays(days, clock) as real
  }

  /** A zero day count leaves the expiry alone. */
  function UpdatedExpiry(days: int, clock: real): Option<real> {
    if Renewal.CoerceDays(days, clock) == 0 then None else Some(CreatedExpiry(days, clock))
  }

  lemma NameIsOwn(profiles: map<RwId, Profile>, id: RwId)
    requires UniqueNames(profiles) && id in profiles
    ensures !Used(profiles - {id}, profiles[id].username)
  {
  }
}
