/** What lease requests are answered and what they do, told of the leases, the queue and the fences alone. */
module LeaseAnswers {
  import opened Common
  import opened Leases

  // ---------------------------------------------------------------- leases given and given up

  /** A lease runs for its lifetime, or for as long as clocks can tell. */
  predicate RunsFor(lease: Lease, now: nat, lifetime: nat) {
    lease.expiresAt == now + lifetime || now + lifetime > U64_MAX == lease.expiresAt
  }

  /** `client` gets `device` under a lease number that nobody had before, and nothing else changes. */
  ghost predicate Issued(b: Book, r: Book, device: DeviceId, client: PeerId, lifetime: nat, now: nat) {
    && device in r.active && r.active[device].device == device && r.active[device].client == client
    && r.active[device].id == b.nextId + 1 && RunsFor(r.active[device], now, lifetime)
    && r == b.(nextId := b.nextId + 1, active := b.active[device := r.active[device]],
               grants := b.grants + [Grant(device, client)])
  }

  /** The waiter at position `i` is the earliest for `device`. */
  ghost predicate Earliest(queue: seq<Waiter>, device: DeviceId, i: nat) {
    && i < |queue| && queue[i].device == device
    && forall j | 0 <= j < i :: queue[j].device != device
  }

  /** `device` is issued to its earliest waiter, who leaves the queue, or is free if nobody waited for it. */
  ghost predicate PassedOn(b: Book, r: Book, device: DeviceId, now: nat) {
    var free := b.(active := b.active - {device});
    if forall w | w in b.waiting :: w.device != device then r == free
    else
      exists i: nat :: Earliest(b.waiting, device, i)
                       && Issued(free.(waiting := b.waiting[..i] + b.waiting[i + 1..]), r, device,
                                 b.waiting[i].client, b.waiting[i].lifetime, now)
  }

  /** The holder of `device` gives it up: at once, or when the job that writes to it ends. */
  ghost predicate GivenUp(b: Book, r: Book, device: DeviceId, now: nat) {
    if device in b.writers then r == b.(pendingRelease := b.pendingRelease + {device})
    else PassedOn(b, r, device, now)
  }

  lemma ReleaseNowPasses(b: Book, device: DeviceId, now: nat)
    ensures PassedOn(b, ReleaseNow(b, device, now), device, now)
  {
    var i := FirstFor(b.waiting, device);
    if i < |b.waiting| {
      assert b.waiting[i] in b.waiting;
      assert Earliest(b.waiting, device, i);
    }
  }

  lemma ReleaseGivesUp(b: Book, device: DeviceId, now: nat)
    ensures GivenUp(b, Release(b, device, now), device, now)
  {
    if device !in b.writers { ReleaseNowPasses(b, device, now); }
    hide ReleaseNow;
  }

  /** A lease number that was given up is dead: it names no lease any more, and never will again. */
  lemma DeadNumber(b: Book, r: Book, device: DeviceId, now: nat)
    requires BookInv(b) && device in b.active && PassedOn(b, r, device, now)
    ensures forall d | d in r.active :: r.active[d].id != b.active[device].id
    ensures b.active[device].id <= r.nextId
  {
    forall d | d in r.active && d != device ensures r.active[d].id != b.active[device].id {
      if b.active[d].id == b.active[device].id { LeaseIdsUnique(b, d, device); }
    }
  }

  // ---------------------------------------------------------------- the answers

  /** `peer` holds `device` under lease number `lease`. */
  ghost predicate Under(b: Book, device: DeviceId, lease: nat, peer: PeerId) {
    device in b.active && b.active[device].id == lease && b.active[device].client == peer
  }

  /** `peer` speaks for `device`: it is the agent whose inventory reported the device last. */
  predicate ReportedBy(peers: map<DeviceId, PeerId>, isAgent: bool, peer: PeerId, device: DeviceId) {
    isAgent && device in peers && peers[device] == peer
  }

  ghost predicate AcquireTells(b: Book, r: Book, peer: PeerId, device: DeviceId, lifetime: nat, now: nat,
                               reply: LeaseReply)
  {
    if device in b.active then r == b && reply == Denied("device_already_leased")
    else Issued(b, r, device, peer, lifetime, now) && reply == Granted(r.active[device], "acquired")
  }

  /** Free: acquired. Held by the peer: its lease. Held by another: the peer waits, once and at the end. */
  ghost predicate QueueTells(b: Book, r: Book, peer: PeerId, device: DeviceId, lifetime: nat, now: nat,
                             reply: LeaseReply)
  {
    if device !in b.active then
      Issued(b, r, device, peer, lifetime, now) && reply == Granted(r.active[device], "acquired")
    else if b.active[device].client == peer then r == b && reply == Granted(b.active[device], "acquired")
    else
      && reply == Status("queued")
      && r == b.(waiting := if exists w | w in b.waiting :: w.device == device && w.client == peer then b.waiting
                            else b.waiting + [Waiter(device, peer, lifetime)])
  }

  /** Only the lease on `device` changes, and in nothing but its end. */
  ghost predicate Renewed(b: Book, r: Book, device: DeviceId, lifetime: nat, now: nat)
    requires device in b.active
  {
    && device in r.active && RunsFor(r.active[device], now, lifetime)
    && r == b.(active := b.active[device := b.active[device].(expiresAt := r.active[device].expiresAt)])
  }

  ghost predicate RenewTells(b: Book, r: Book, peer: PeerId, lease: nat, lifetime: nat, now: nat, reply: LeaseReply) {
    if forall d :: !Under(b, d, lease, peer) then r == b && reply == Denied("lease_inactive")
    else
      exists d :: && Under(b, d, lease, peer) && Renewed(b, r, d, lifetime, now)
                  && reply == Granted(r.active[d], "renewed")
  }

  /** The device held under that number is given up, and unless that is deferred the number is dead. */
  ghost predicate ReleaseTells(b: Book, r: Book, peer: PeerId, lease: nat, now: nat, status: string,
                               reply: LeaseReply)
  {
    if forall d :: !Under(b, d, lease, peer) then r == b && reply == Denied("lease_inactive")
    else
      && reply == Status(status)
      && exists d :: && Under(b, d, lease, peer) && GivenUp(b, r, d, now)
                     && (d !in b.writers ==> forall e | e in r.active :: r.active[e].id != lease)
  }

  ghost predicate ValidateTells(b: Book, r: Book, peers: map<DeviceId, PeerId>, peer: PeerId, isAgent: bool,
                                lease: nat, device: DeviceId, client: PeerId, reply: LeaseReply)
  {
    && r == b
    && reply == if !ReportedBy(peers, isAgent, peer, device) then Denied("lease_validation_access_denied")
                else if Under(b, device, lease, client) then Status("active")
                else Denied("lease_inactive")
  }

  /** The peer waits for nothing any more. What it holds is passed on to those still waiting, in turn; fenced
      devices stay with it until their jobs end. What others hold stays with them. */
  ghost predicate DisconnectTells(b: Book, r: Book, peer: PeerId, now: nat, reply: LeaseReply) {
    && reply == Status("disconnected")
    && exists queue: seq<Waiter> ::
         && Subsequence(queue, b.waiting)
         && (forall w :: w in queue <==> w in b.waiting && w.client != peer)
         && ReleasedAll(b.(waiting := queue), r, (set d | d in b.active && b.active[d].client == peer), now)
  }

  /** The fence and what was deferred on it go, and the device is passed on at once. */
  ghost predicate DetachTells(b: Book, r: Book, peers: map<DeviceId, PeerId>, peer: PeerId, isAgent: bool,
                              device: DeviceId, now: nat, reply: LeaseReply)
  {
    if !ReportedBy(peers, isAgent, peer, device) then r == b && reply == Denied("agent_detach_access_denied")
    else
      && reply == Status("detached")
      && PassedOn(b.(writers := b.writers - {device}, pendingRelease := b.pendingRelease - {device},
                     pendingDetach := b.pendingDetach - {device}), r, device, now)
  }

  /** What a request does to the book `b` and what it is answered. */
  ghost predicate Answers(b: Book, r: Book, peers: map<DeviceId, PeerId>, peer: PeerId, isAgent: bool,
                          request: LeaseRequest, now: nat, reply: LeaseReply)
  {
    match request
    case Acquire(device, lifetime) => AcquireTells(b, r, peer, device, lifetime, now, reply)
    case Queue(device, lifetime) => QueueTells(b, r, peer, device, lifetime, now, reply)
    case Renew(lease, lifetime) => RenewTells(b, r, peer, lease, lifetime, now, reply)
    case ReleaseLease(lease) => ReleaseTells(b, r, peer, lease, now, "released", reply)
    case Revoke(lease) => ReleaseTells(b, r, peer, lease, now, "revoked", reply)
    case Validate(lease, device, client) => ValidateTells(b, r, peers, peer, isAgent, lease, device, client, reply)
    case Disconnect => DisconnectTells(b, r, peer, now, reply)
    case AgentDetach(device) => DetachTells(b, r, peers, peer, isAgent, device, now, reply)
  }

  lemma {:induction false} QueueWithoutInOrder(queue: seq<Waiter>, client: PeerId)
    ensures Subsequence(QueueWithout(queue, client), queue)
  {
    if queue != [] { QueueWithoutInOrder(queue[1..], client); }
  }

  // ---------------------------------------------------------------- requests are answered so

  lemma RenewAnswers(b: Book, peer: PeerId, lease: nat, lifetime: nat, now: nat)
    ensures var (r, reply) := ServeRenew(b, peer, lease, lifetime, now);
            RenewTells(b, r, peer, lease, lifetime, now, reply)
  {
    forall d | Holds(b, d, lease, peer)
      ensures var renewed := b.active[d].(expiresAt := SatAdd(now, lifetime));
              Under(b, d, lease, peer) && Renewed(b, b.(active := b.active[d := renewed]), d, lifetime, now)
    {
    }
  }

  lemma ReleaseAnswers(b: Book, peer: PeerId, lease: nat, status: string, now: nat)
    requires BookInv(b)
    ensures var (r, reply) := ServeRelease(b, peer, lease, status, now);
            ReleaseTells(b, r, peer, lease, now, status, reply)
  {
    hide Release, PassedOn, BookInv;
    forall d | Holds(b, d, lease, peer)
      ensures Under(b, d, lease, peer) && GivenUp(b, Release(b, d, now), d, now)
      ensures d !in b.writers ==> forall e | e in Release(b, d, now).active :: Release(b, d, now).active[e].id != lease
    {
      ReleaseGivesUp(b, d, now);
      if d !in b.writers { DeadNumber(b, Release(b, d, now), d, now); }
    }
  }

  lemma DisconnectAnswers(b: Book, peer: PeerId, order: seq<DeviceId>, now: nat)
    requires IsOrderOf(order, set d | d in b.active && b.active[d].client == peer)
    ensures var (r, reply) := ServeDisconnect(b, peer, order, now);
            DisconnectTells(b, r, peer, now, reply)
  {
    var queue := QueueWithout(b.waiting, peer);
    QueueWithoutInOrder(b.waiting, peer);
    ReleaseAllMeaning(b.(waiting := queue), order, (set d | d in b.active && b.active[d].client == peer), now);
    hide ReleasedAll, Subsequence, QueueWithout;
  }

  /** Every lease request is answered, and changes the book, as its kind demands. */
  lemma ServeAnswers(b: Book, peers: map<DeviceId, PeerId>, peer: PeerId, isAgent: bool,
                     request: LeaseRequest, order: seq<DeviceId>, now: nat)
    requires BookInv(b)
    requires request.Disconnect? ==> IsOrderOf(order, set d | d in b.active && b.active[d].client == peer)
    ensures var (r, reply) := Serve(b, peers, peer, isAgent, request, order, now);
            Answers(b, r, peers, peer, isAgent, request, now, reply)
  {
    hide BookInv, ServeRenew, ServeRelease, ServeDisconnect, RenewTells, ReleaseTells, DisconnectTells, PassedOn,
         ReleaseNow;
    match request
    case Renew(lease, lifetime) => RenewAnswers(b, peer, lease, lifetime, now);
    case ReleaseLease(lease) => ReleaseAnswers(b, peer, lease, "released", now);
    case Revoke(lease) => ReleaseAnswers(b, peer, lease, "revoked", now);
    case Disconnect => DisconnectAnswers(b, peer, order, now);
    case AgentDetach(device) =>
      ReleaseNowPasses(b.(writers := b.writers - {device}, pendingRelease := b.pendingRelease - {device},
                          pendingDetach := b.pendingDetach - {device}), device, now);
    case _ =>
  }
}
