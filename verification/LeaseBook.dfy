/** Device leases of the registry: the value-level meaning of every `LeaseBook` operation. */
module Leases {
  import opened Common

  type DeviceId = Name
  type PeerId = Name

  /** A job id is the hash of the submission's idempotency key; the hash is taken to be injective. */
  datatype JobId = JobId(key: Name)

  /** Lease ids are the numbers the registry counts up; 0 stands for any text that was never issued. */
  datatype Lease = Lease(id: nat, device: DeviceId, client: PeerId, expiresAt: nat)

  datatype Waiter = Waiter(device: DeviceId, client: PeerId, lifetime: nat)

  datatype Grant = Grant(device: DeviceId, client: PeerId)

  /** `grants` is a history variable: the k-th lease ever issued went to `grants[k - 1]`. */
  datatype Book = Book(
    nextId: nat,
    active: map<DeviceId, Lease>,
    waiting: seq<Waiter>,
    writers: map<DeviceId, JobId>,
    pendingRelease: set<DeviceId>,
    pendingDetach: set<DeviceId>,
    grants: seq<Grant>)

  const EMPTY_BOOK := Book(0, map[], [], map[], {}, {}, [])

  // ---------------------------------------------------------------- operations

  function Insert(b: Book, device: DeviceId, client: PeerId, lifetime: nat, now: nat): Book {
    b.(nextId := b.nextId + 1,
       active := b.active[device := Lease(b.nextId + 1, device, client, SatAdd(now, lifetime))],
       grants := b.grants + [Grant(device, client)])
  }

  /** Position of the earliest waiter for `device`, or the queue's length. */
  function FirstFor(queue: seq<Waiter>, device: DeviceId): (i: nat)
    ensures i <= |queue|
    ensures i < |queue| ==> queue[i].device == device
    ensures forall j | 0 <= j < i :: queue[j].device != device
  {
    if queue == [] || queue[0].device == device then 0 else 1 + FirstFor(queue[1..], device)
  }

  function Without<T>(s: seq<T>, i: nat): seq<T>
    requires i < |s|
  {
    s[..i] + s[i + 1..]
  }

  function ReleaseNow(b: Book, device: DeviceId, now: nat): Book {
    var freed := b.(active := b.active - {device});
    var i := FirstFor(b.waiting, device);
    if i == |b.waiting| then freed
    else
      var w := b.waiting[i];
      Insert(freed.(waiting := Without(b.waiting, i)), w.device, w.client, w.lifetime, now)
  }

  function Release(b: Book, device: DeviceId, now: nat): Book {
    if device in b.writers then b.(pendingRelease := b.pendingRelease + {device})
    else ReleaseNow(b, device, now)
  }

  function ForceRelease(b: Book, device: DeviceId, now: nat): Book {
    ReleaseNow(
      b.(writers := b.writers - {device},
         pendingRelease := b.pendingRelease - {device},
         pendingDetach := b.pendingDetach - {device}),
      device, now)
  }

  function DetachInventory(b: Book, device: DeviceId, now: nat): Book {
    Release(if device in b.writers then b.(pendingDetach := b.pendingDetach + {device}) else b, device, now)
  }

  function ReleaseAll(b: Book, order: seq<DeviceId>, now: nat): Book
    decreases |order|
  {
    if order == [] then b else ReleaseAll(Release(b, order[0], now), order[1..], now)
  }

  function Expired(b: Book, now: nat): set<DeviceId> {
    set d | d in b.active && now >= b.active[d].expiresAt
  }

  /** `order` is a possible iteration order of `expire` on `b`. */
  predicate ExpiryOrder(b: Book, order: seq<DeviceId>, now: nat) {
    IsOrderOf(order, Expired(b, now))
  }

  // ---------------------------------------------------------------- lease requests

  datatype LeaseRequest =
    | Acquire(device: DeviceId, lifetime: nat)
    | Queue(device: DeviceId, lifetime: nat)
    | Renew(lease: nat, lifetime: nat)
    | ReleaseLease(lease: nat)
    | Revoke(lease: nat)
    | Validate(lease: nat, device: DeviceId, client: PeerId)
    | Disconnect
    | AgentDetach(device: DeviceId)

  datatype LeaseReply =
    | Denied(code: string)
    | Status(status: string)
    | Granted(lease: Lease, status: string)

  ghost predicate Holds(b: Book, device: DeviceId, id: nat, client: PeerId) {
    device in b.active && b.active[device].id == id && b.active[device].client == client
  }

  /** The devices `client` holds. */
  function HeldBy(b: Book, client: PeerId): set<DeviceId> {
    set d | d in b.active && b.active[d].client == client
  }

  function QueueWithout(queue: seq<Waiter>, client: PeerId): (r: seq<Waiter>)
    ensures forall w :: w in r <==> w in queue && w.client != client
  {
    if queue == [] then []
    else if queue[0].client == client then QueueWithout(queue[1..], client)
    else [queue[0]] + QueueWithout(queue[1..], client)
  }

  type Served = (Book, LeaseReply)

  function ServeAcquire(b: Book, peer: PeerId, device: DeviceId, lifetime: nat, now: nat): Served {
    if device in b.active then (b, Denied("device_already_leased"))
    else
      var b' := Insert(b, device, peer, lifetime, now);
      (b', Granted(b'.active[device], "acquired"))
  }

  function ServeQueue(b: Book, peer: PeerId, device: DeviceId, lifetime: nat, now: nat): Served {
    if device !in b.active then
      var b' := Insert(b, device, peer, lifetime, now);
      (b', Granted(b'.active[device], "acquired"))
    else if b.active[device].client == peer then (b, Granted(b.active[device], "acquired"))
    else if exists w | w in b.waiting :: w.device == device && w.client == peer then (b, Status("queued"))
    else (b.(waiting := b.waiting + [Waiter(device, peer, lifetime)]), Status("queued"))
  }

  ghost function ServeRenew(b: Book, peer: PeerId, lease: nat, lifetime: nat, now: nat): Served {
    if d :| Holds(b, d, lease, peer) then
      var renewed := b.active[d].(expiresAt := SatAdd(now, lifetime));
      (b.(active := b.active[d := renewed]), Granted(renewed, "renewed"))
    else (b, Denied("lease_inactive"))
  }

  ghost function ServeRelease(b: Book, peer: PeerId, lease: nat, status: string, now: nat): Served {
    if d :| Holds(b, d, lease, peer) then (Release(b, d, now), Status(status))
    else (b, Denied("lease_inactive"))
  }

  function ServeDisconnect(b: Book, peer: PeerId, order: seq<DeviceId>, now: nat): Served {
    (ReleaseAll(b.(waiting := QueueWithout(b.waiting, peer)), order, now), Status("disconnected"))
  }

  /** An agent speaks for a device exactly when its own inventory reported it last. */
  predicate SpeaksFor(devicePeers: map<DeviceId, PeerId>, isAgent: bool, peer: PeerId, device: DeviceId) {
    isAgent && device in devicePeers && devicePeers[device] == peer
  }

  /** Result of a lease request on the already expired book `b`; `order` is the order in which
      `Disconnect` visits the client's devices. */
  ghost function Serve(b: Book, devicePeers: map<DeviceId, PeerId>, peer: PeerId, isAgent: bool,
                       request: LeaseRequest, order: seq<DeviceId>, now: nat): Served
  {
    match request
    case Acquire(device, lifetime) => ServeAcquire(b, peer, device, lifetime, now)
    case Queue(device, lifetime) => ServeQueue(b, peer, device, lifetime, now)
    case Renew(lease, lifetime) => ServeRenew(b, peer, lease, lifetime, now)
    case ReleaseLease(lease) => ServeRelease(b, peer, lease, "released", now)
    case Revoke(lease) => ServeRelease(b, peer, lease, "revoked", now)
    case Validate(lease, device, client) =>
      if !SpeaksFor(devicePeers, isAgent, peer, device) then (b, Denied("lease_validation_access_denied"))
      else if Holds(b, device, lease, client) then (b, Status("active"))
      else (b, Denied("lease_inactive"))
    case Disconnect => ServeDisconnect(b, peer, order, now)
    case AgentDetach(device) =>
      if !SpeaksFor(devicePeers, isAgent, peer, device) then (b, Denied("agent_detach_access_denied"))
      else (ForceRelease(b, device, now), Status("detached"))
  }

  // ---------------------------------------------------------------- the invariant

  ghost predicate LeasesNumbered(b: Book) {
    && |b.grants| == b.nextId
    && (forall d | d in b.active ::
          && b.active[d].device == d
          && 1 <= b.active[d].id <= b.nextId
          && b.grants[b.active[d].id - 1] == Grant(d, b.active[d].client))
  }

  ghost predicate FencesLeased(b: Book) {
    && b.writers.Keys <= b.active.Keys
    && b.pendingRelease <= b.writers.Keys
    && b.pendingDetach <= b.writers.Keys
  }

  ghost predicate QueueBlocked(b: Book) {
    && (forall w | w in b.waiting :: w.device in b.active && b.active[w.device].client != w.client)
    && DistinctEntries(b.waiting)
  }

  ghost predicate SameEntry(v: Waiter, w: Waiter) {
    v.device == w.device && v.client == w.client
  }

  ghost predicate DistinctEntries(queue: seq<Waiter>) {
    forall i, j | 0 <= i < j < |queue| :: !SameEntry(queue[i], queue[j])
  }

  /** What every lease request, expiry, detach, dispatch and reconciliation keeps. */
  ghost predicate BookInv(b: Book) {
    LeasesNumbered(b) && FencesLeased(b) && QueueBlocked(b)
  }

  /** Lease ids are unique although nothing compares them. */
  lemma LeaseIdsUnique(b: Book, d: DeviceId, e: DeviceId)
    requires BookInv(b) && d in b.active && e in b.active && b.active[d].id == b.active[e].id
    ensures d == e
  {
    assert b.grants[b.active[d].id - 1].device == d;
  }

  lemma InsertInv(b: Book, device: DeviceId, client: PeerId, lifetime: nat, now: nat)
    requires BookInv(b) && device !in b.active
    ensures BookInv(Insert(b, device, client, lifetime, now))
  {
  }

  lemma WithoutDistinct(queue: seq<Waiter>, i: nat)
    requires i < |queue| && DistinctEntries(queue)
    ensures DistinctEntries(Without(queue, i))
    ensures forall w | w in Without(queue, i) :: w in queue && !SameEntry(w, queue[i])
  {
    var rest := Without(queue, i);
    assert forall k | 0 <= k < |rest| :: rest[k] == queue[if k < i then k else k + 1];
  }

  lemma ReleaseNowInv(b: Book, device: DeviceId, now: nat)
    requires BookInv(b) && device !in b.writers
    ensures BookInv(ReleaseNow(b, device, now))
  {
    var i, r := FirstFor(b.waiting, device), ReleaseNow(b, device, now);
    if i < |b.waiting| {
      WithoutDistinct(b.waiting, i);
      assert QueueBlocked(r);
    } else {
      assert forall w | w in b.waiting :: w.device != device;
      assert QueueBlocked(r);
    }
  }

  lemma ReleaseInv(b: Book, device: DeviceId, now: nat)
    requires BookInv(b)
    ensures BookInv(Release(b, device, now))
  {
    if device !in b.writers { ReleaseNowInv(b, device, now); }
  }

  lemma ForceReleaseInv(b: Book, device: DeviceId, now: nat)
    requires BookInv(b)
    ensures BookInv(ForceRelease(b, device, now))
  {
    var b1 := b.(writers := b.writers - {device},
                 pendingRelease := b.pendingRelease - {device},
                 pendingDetach := b.pendingDetach - {device});
    assert BookInv(b1);
    ReleaseNowInv(b1, device, now);
  }

  lemma DetachInventoryInv(b: Book, device: DeviceId, now: nat)
    requires BookInv(b)
    ensures BookInv(DetachInventory(b, device, now))
  {
    ReleaseInv(if device in b.writers then b.(pendingDetach := b.pendingDetach + {device}) else b, device, now);
  }

  lemma {:induction false} ReleaseAllInv(b: Book, order: seq<DeviceId>, now: nat)
    requires BookInv(b)
    ensures BookInv(ReleaseAll(b, order, now))
    decreases |order|
  {
    if order != [] {
      ReleaseInv(b, order[0], now);
      ReleaseAllInv(Release(b, order[0], now), order[1..], now);
    }
  }

  lemma {:induction false} QueueWithoutDistinct(queue: seq<Waiter>, client: PeerId)
    requires DistinctEntries(queue)
    ensures DistinctEntries(QueueWithout(queue, client))
  {
    if queue != [] {
      var rest := queue[1..];
      QueueWithoutDistinct(rest, client);
      forall w | w in rest ensures !SameEntry(queue[0], w) {
        var k :| 0 <= k < |rest| && rest[k] == w;
        assert queue[k + 1] == w;
      }
      var tail := QueueWithout(rest, client);
      forall j | 0 <= j < |tail| ensures !SameEntry(queue[0], tail[j]) { assert tail[j] in rest; }
    }
  }

  /** A granted lease is the one the book now holds for that peer, so the final lookup of `lease`
      finds it. */
  ghost predicate GrantIsHeld(served: Served, peer: PeerId) {
    served.1.Granted? ==>
      && Holds(served.0, served.1.lease.device, served.1.lease.id, peer)
      && served.0.active[served.1.lease.device] == served.1.lease
  }

  lemma ServeAcquireInv(b: Book, peer: PeerId, device: DeviceId, lifetime: nat, now: nat)
    requires BookInv(b)
    ensures BookInv(ServeAcquire(b, peer, device, lifetime, now).0)
    ensures GrantIsHeld(ServeAcquire(b, peer, device, lifetime, now), peer)
  {
    if device !in b.active {
      InsertInv(b, device, peer, lifetime, now);
      hide BookInv;
    }
  }

  lemma ServeRenewInv(b: Book, peer: PeerId, lease: nat, lifetime: nat, now: nat)
    requires BookInv(b)
    ensures BookInv(ServeRenew(b, peer, lease, lifetime, now).0)
    ensures GrantIsHeld(ServeRenew(b, peer, lease, lifetime, now), peer)
  {
  }

  lemma ServeQueueInv(b: Book, peer: PeerId, device: DeviceId, lifetime: nat, now: nat)
    requires BookInv(b)
    ensures BookInv(ServeQueue(b, peer, device, lifetime, now).0)
    ensures GrantIsHeld(ServeQueue(b, peer, device, lifetime, now), peer)
  {
    if device !in b.active { InsertInv(b, device, peer, lifetime, now); }
    else { assert QueueBlocked(ServeQueue(b, peer, device, lifetime, now).0); }
  }

  lemma ServeReleaseInv(b: Book, peer: PeerId, lease: nat, status: string, now: nat)
    requires BookInv(b)
    ensures BookInv(ServeRelease(b, peer, lease, status, now).0)
  {
    forall d | Holds(b, d, lease, peer) ensures BookInv(Release(b, d, now)) { ReleaseInv(b, d, now); }
  }

  lemma ServeDisconnectInv(b: Book, peer: PeerId, order: seq<DeviceId>, now: nat)
    requires BookInv(b)
    ensures BookInv(ServeDisconnect(b, peer, order, now).0)
  {
    var b1 := b.(waiting := QueueWithout(b.waiting, peer));
    QueueWithoutDistinct(b.waiting, peer);
    assert QueueBlocked(b1);
    ReleaseAllInv(b1, order, now);
  }

  lemma ReleaseGrantsNothing(b: Book, peer: PeerId, lease: nat, status: string, now: nat)
    requires BookInv(b)
    ensures BookInv(ServeRelease(b, peer, lease, status, now).0)
    ensures GrantIsHeld(ServeRelease(b, peer, lease, status, now), peer)
  {
    ServeReleaseInv(b, peer, lease, status, now);
    hide BookInv;
  }

  lemma DisconnectGrantsNothing(b: Book, peer: PeerId, order: seq<DeviceId>, now: nat)
    requires BookInv(b)
    ensures BookInv(ServeDisconnect(b, peer, order, now).0)
    ensures GrantIsHeld(ServeDisconnect(b, peer, order, now), peer)
  {
    ServeDisconnectInv(b, peer, order, now);
    hide BookInv;
  }

  /** Every lease request keeps the book's invariant. */
  lemma ServeInv(b: Book, devicePeers: map<DeviceId, PeerId>, peer: PeerId, isAgent: bool,
                 request: LeaseRequest, order: seq<DeviceId>, now: nat)
    requires BookInv(b)
    ensures BookInv(Serve(b, devicePeers, peer, isAgent, request, order, now).0)
    ensures GrantIsHeld(Serve(b, devicePeers, peer, isAgent, request, order, now), peer)
  {
    hide BookInv, ServeAcquire, ServeQueue, ServeRenew, ServeRelease, ServeDisconnect, ForceRelease;
    match request
    case Acquire(device, lifetime) => ServeAcquireInv(b, peer, device, lifetime, now);
    case Queue(device, lifetime) => ServeQueueInv(b, peer, device, lifetime, now);
    case Renew(lease, lifetime) => ServeRenewInv(b, peer, lease, lifetime, now);
    case ReleaseLease(lease) => ReleaseGrantsNothing(b, peer, lease, "released", now);
    case Revoke(lease) => ReleaseGrantsNothing(b, peer, lease, "revoked", now);
    case Validate(_, _, _) =>
    case Disconnect => DisconnectGrantsNothing(b, peer, order, now);
    case AgentDetach(device) => ForceReleaseInv(b, device, now);
  }

  // ---------------------------------------------------------------- expiry in any order

  /** The queue after the earliest waiter of every device in `s` has left. */
  function Survivors(queue: seq<Waiter>, s: set<DeviceId>): seq<Waiter> {
    if queue == [] then []
    else if queue[0].device in s then Survivors(queue[1..], s - {queue[0].device})
    else [queue[0]] + Survivors(queue[1..], s)
  }

  lemma {:induction false} SurvivorsOfNone(queue: seq<Waiter>)
    ensures Survivors(queue, {}) == queue
  {
    if queue != [] { SurvivorsOfNone(queue[1..]); }
  }

  /** A device nobody waits for makes no difference. */
  lemma {:induction false} SurvivorsIdle(queue: seq<Waiter>, s: set<DeviceId>, d: DeviceId)
    requires FirstFor(queue, d) == |queue|
    ensures Survivors(queue, s) == Survivors(queue, s - {d})
  {
    if queue != [] {
      SurvivorsIdle(queue[1..], s, d);
      SurvivorsIdle(queue[1..], s - {queue[0].device}, d);
      assert s - {queue[0].device} - {d} == s - {d} - {queue[0].device};
    }
  }

  /** Taking one device's earliest waiter first changes neither the others' nor the final queue. */
  lemma {:induction false} SurvivorsStep(queue: seq<Waiter>, s: set<DeviceId>, d: DeviceId)
    requires d in s && FirstFor(queue, d) < |queue|
    ensures Survivors(queue, s) == Survivors(Without(queue, FirstFor(queue, d)), s - {d})
  {
    var i := FirstFor(queue, d);
    if i == 0 {
      assert Without(queue, 0) == queue[1..];
    } else {
      var head := queue[0];
      var rest := Without(queue, i);
      assert rest[0] == head && rest[1..] == Without(queue[1..], i - 1);
      if head.device in s {
        SurvivorsStep(queue[1..], s - {head.device}, d);
        assert s - {head.device} - {d} == s - {d} - {head.device};
      } else {
        SurvivorsStep(queue[1..], s, d);
      }
    }
  }

  /** The earliest waiter for `d`, if any. */
  function Next(queue: seq<Waiter>, d: DeviceId): Option<Waiter> {
    var i := FirstFor(queue, d);
    if i == |queue| then None else Some(queue[i])
  }

  /** Removing one waiter does not disturb the earliest waiter of another device. */
  lemma {:induction false} NextWithout(queue: seq<Waiter>, d: DeviceId, e: DeviceId)
    requires d != e && FirstFor(queue, d) < |queue|
    ensures Next(Without(queue, FirstFor(queue, d)), e) == Next(queue, e)
  {
    hide Without, Next;
    var i := FirstFor(queue, d);
    if i == 0 {
      WithoutHead(queue);
      NextBehind(queue, e);
    } else {
      var rest := Without(queue[1..], i - 1);
      WithoutBehind(queue, i);
      NextBehind(queue, e);
      NextBehind([queue[0]] + rest, e);
      assert ([queue[0]] + rest)[1..] == rest;
      if queue[0].device != e { NextWithout(queue[1..], d, e); }
    }
  }

  lemma WithoutHead<T>(queue: seq<T>)
    requires queue != []
    ensures Without(queue, 0) == queue[1..]
  {
  }

  lemma WithoutBehind<T>(queue: seq<T>, i: nat)
    requires 0 < i < |queue|
    ensures Without(queue, i) == [queue[0]] + Without(queue[1..], i - 1)
  {
  }

  lemma NextBehind(queue: seq<Waiter>, e: DeviceId)
    requires queue != []
    ensures Next(queue, e) == if queue[0].device == e then Some(queue[0]) else Next(queue[1..], e)
  {
  }

  /** The lease device `d` ends up with when it is released, apart from the lease id. */
  ghost predicate Promoted(b: Book, r: Book, d: DeviceId, now: nat) {
    match Next(b.waiting, d)
    case None => d !in r.active
    case Some(w) =>
      && d in r.active && r.active[d].device == d
      && r.active[d].client == w.client
      && r.active[d].expiresAt == SatAdd(now, w.lifetime)
      && r.active[d].id > b.nextId
  }

  /** Order-free meaning of releasing every device of `s`. */
  ghost predicate ReleasedAll(b: Book, r: Book, s: set<DeviceId>, now: nat) {
    && r.writers == b.writers && r.pendingDetach == b.pendingDetach
    && r.pendingRelease == b.pendingRelease + (s * b.writers.Keys)
    && r.waiting == Survivors(b.waiting, s - b.writers.Keys)
    && b.nextId <= r.nextId
    && (forall d | d !in s || d in b.writers ::
          (d in r.active <==> d in b.active) && (d in b.active ==> r.active[d] == b.active[d]))
    && (forall d | d in s && d !in b.writers :: Promoted(b, r, d, now))
  }

  /** A deferred release followed by the release of all others. */
  lemma DeferredStep(b: Book, d: DeviceId, t: set<DeviceId>, r: Book, now: nat)
    requires d !in t && d in b.writers && ReleasedAll(Release(b, d, now), r, t, now)
    ensures ReleasedAll(b, r, t + {d}, now)
  {
    var s, fenced := t + {d}, b.writers.Keys;
    assert s - fenced == t - fenced && s * fenced == t * fenced + {d};
    forall e | e in s && e !in fenced ensures Promoted(b, r, e, now) {
      assert Promoted(Release(b, d, now), r, e, now);
    }
  }

  /** The queue after releasing `d` and then the others. */
  lemma ReleasedQueue(b: Book, d: DeviceId, s: set<DeviceId>, now: nat)
    requires d in s
    ensures Survivors(b.waiting, s) == Survivors(ReleaseNow(b, d, now).waiting, s - {d})
  {
    hide Survivors;
    if Next(b.waiting, d) == None { SurvivorsIdle(b.waiting, s, d); } else { SurvivorsStep(b.waiting, s, d); }
  }

  lemma PromotedLater(b: Book, d: DeviceId, e: DeviceId, r: Book, now: nat)
    requires d != e && d !in b.writers && Promoted(Release(b, d, now), r, e, now)
    ensures Promoted(b, r, e, now)
  {
    if Next(b.waiting, d) != None { NextWithout(b.waiting, d, e); }
  }

  lemma PromotedNow(b: Book, d: DeviceId, t: set<DeviceId>, r: Book, now: nat)
    requires d !in t && d !in b.writers && ReleasedAll(Release(b, d, now), r, t, now)
    ensures Promoted(b, r, d, now) && b.nextId <= r.nextId
  {
  }

  /** A release carried out at once, followed by the release of all others. */
  lemma ReleasedNowStep(b: Book, d: DeviceId, t: set<DeviceId>, r: Book, now: nat)
    requires d !in t && d !in b.writers && ReleasedAll(Release(b, d, now), r, t, now)
    ensures ReleasedAll(b, r, t + {d}, now)
  {
    hide Survivors, Promoted, FirstFor;
    var s, fenced := t + {d}, b.writers.Keys;
    assert t - fenced == s - fenced - {d} && s * fenced == t * fenced;
    ReleasedQueue(b, d, s - fenced, now);
    PromotedNow(b, d, t, r, now);
    forall e | e in t && e !in fenced ensures Promoted(b, r, e, now) { PromotedLater(b, d, e, r, now); }
  }

  /** One release followed by the release of all others. */
  lemma ReleasedStep(b: Book, d: DeviceId, t: set<DeviceId>, r: Book, now: nat)
    requires d !in t && ReleasedAll(Release(b, d, now), r, t, now)
    ensures ReleasedAll(b, r, t + {d}, now)
  {
    hide ReleasedAll, Release;
    if d in b.writers { DeferredStep(b, d, t, r, now); } else { ReleasedNowStep(b, d, t, r, now); }
  }

  lemma {:induction false} ReleaseAllMeaning(b: Book, order: seq<DeviceId>, s: set<DeviceId>, now: nat)
    requires IsOrderOf(order, s)
    ensures ReleasedAll(b, ReleaseAll(b, order, now), s, now)
    decreases |order|
  {
    if order == [] {
      assert forall x | x in s :: x in order;
      assert s == {} && s - b.writers.Keys == {};
      SurvivorsOfNone(b.waiting);
    } else {
      OrderTail(order, s);
      var t := s - {order[0]};
      ReleaseAllMeaning(Release(b, order[0], now), order[1..], t, now);
      assert t + {order[0]} == s;
      ReleasedStep(b, order[0], t, ReleaseAll(b, order, now), now);
    }
  }

  /** Whatever order the hash map is visited in, expiry ends with the same queue, fences and leases;
      only the fresh lease numbers can differ. */
  lemma ExpiryOrderIrrelevant(b: Book, o1: seq<DeviceId>, o2: seq<DeviceId>, now: nat)
    requires ExpiryOrder(b, o1, now) && ExpiryOrder(b, o2, now)
    ensures var r1, r2 := ReleaseAll(b, o1, now), ReleaseAll(b, o2, now);
            && r1.waiting == r2.waiting && r1.writers == r2.writers
            && r1.pendingRelease == r2.pendingRelease && r1.pendingDetach == r2.pendingDetach
            && r1.active.Keys == r2.active.Keys
            && (forall d | d in r1.active ::
                  && r1.active[d].client == r2.active[d].client
                  && r1.active[d].expiresAt == r2.active[d].expiresAt)
  {
    ReleaseAllMeaning(b, o1, Expired(b, now), now);
    ReleaseAllMeaning(b, o2, Expired(b, now), now);
    var r1, r2 := ReleaseAll(b, o1, now), ReleaseAll(b, o2, now);
    forall d ensures d in r1.active <==> d in r2.active {
      if d in Expired(b, now) && d !in b.writers {
        assert Promoted(b, r1, d, now) && Promoted(b, r2, d, now);
      }
    }
    forall d | d in r1.active
      ensures r1.active[d].client == r2.active[d].client && r1.active[d].expiresAt == r2.active[d].expiresAt
    {
      if d in Expired(b, now) && d !in b.writers {
        assert Promoted(b, r1, d, now) && Promoted(b, r2, d, now);
      }
    }
  }

  /** After expiry no unfenced device holds an expired lease, unexpired and fenced leases are untouched.
      A zero lifetime in the queue is the one way to stay expired. */
  lemma ExpireClears(b: Book, order: seq<DeviceId>, now: nat)
    requires BookInv(b) && ExpiryOrder(b, order, now) && now < U64_MAX
    ensures var r := ReleaseAll(b, order, now);
            && (forall d | d in b.active && (now < b.active[d].expiresAt || d in b.writers) ::
                  d in r.active && r.active[d] == b.active[d])
            && (forall d | d in r.active && d !in r.writers && d !in Expired(b, now) ::
                  now < r.active[d].expiresAt)
            && (forall d | d in r.active && d !in r.writers && d in Expired(b, now) ::
                  && Next(b.waiting, d).Some?
                  && (now < r.active[d].expiresAt <==> Next(b.waiting, d).value.lifetime > 0))
  {
    ReleaseAllMeaning(b, order, Expired(b, now), now);
    var r := ReleaseAll(b, order, now);
    forall d | d in r.active && d !in r.writers && d in Expired(b, now)
      ensures Next(b.waiting, d).Some?
      ensures now < r.active[d].expiresAt <==> Next(b.waiting, d).value.lifetime > 0
    {
      assert Promoted(b, r, d, now);
    }
  }
}
