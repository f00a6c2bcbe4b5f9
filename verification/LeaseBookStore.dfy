/** The lease book as the registry keeps it: an object updated in place, method by method equal to the
    operations of module `Leases`. Hash maps are visited in an order the caller cannot choose; each
    method that does so reports the order it took. */
module LeaseBookStore {
  import opened Common
  import opened Leases
  import opened LeaseAnswers

  class LeaseBook {
    var nextId: nat
    var active: map<DeviceId, Lease>
    var waiting: seq<Waiter>
    var writers: map<DeviceId, JobId>
    var pendingRelease: set<DeviceId>
    var pendingDetach: set<DeviceId>
    ghost var grants: seq<Grant>

    ghost function View(): Book
      reads this
    {
      Book(nextId, active, waiting, writers, pendingRelease, pendingDetach, grants)
    }

    /** A book read back from its file. */
    constructor (saved: Book)
      ensures View() == saved
    {
      nextId, active, waiting, writers := saved.nextId, saved.active, saved.waiting, saved.writers;
      pendingRelease, pendingDetach, grants := saved.pendingRelease, saved.pendingDetach, saved.grants;
    }

    method Insert(device: DeviceId, client: PeerId, lifetime: nat, now: nat) returns (id: nat)
      modifies this
      ensures View() == Leases.Insert(old(View()), device, client, lifetime, now)
      ensures id == nextId && active[device].id == id
    {
      nextId := nextId + 1;
      id := nextId;
      active := active[device := Lease(id, device, client, SatAdd(now, lifetime))];
      grants := grants + [Grant(device, client)];
    }

    method Position(device: DeviceId) returns (i: nat)
      ensures i == FirstFor(waiting, device)
    {
      i := 0;
      while i < |waiting| && waiting[i].device != device
        invariant i <= |waiting| && FirstFor(waiting, device) == i + FirstFor(waiting[i..], device)
      {
        assert waiting[i..][1..] == waiting[i + 1..];
        i := i + 1;
      }
    }

    method ReleaseDeviceNow(device: DeviceId, now: nat)
      modifies this
      ensures View() == ReleaseNow(old(View()), device, now)
    {
      active := active - {device};
      var i := Position(device);
      if i < |waiting| {
        var w := waiting[i];
        waiting := Without(waiting, i);
        var _ := Insert(w.device, w.client, w.lifetime, now);
      }
    }

    method ReleaseDevice(device: DeviceId, now: nat)
      modifies this
      ensures View() == Release(old(View()), device, now)
    {
      if device in writers {
        pendingRelease := pendingRelease + {device};
        return;
      }
      ReleaseDeviceNow(device, now);
    }

    method ForceReleaseDevice(device: DeviceId, now: nat)
      modifies this
      ensures View() == ForceRelease(old(View()), device, now)
    {
      writers := writers - {device};
      pendingRelease := pendingRelease - {device};
      pendingDetach := pendingDetach - {device};
      ReleaseDeviceNow(device, now);
    }

    method DetachDevice(device: DeviceId, now: nat)
      modifies this
      ensures View() == DetachInventory(old(View()), device, now)
    {
      if device in writers {
        pendingDetach := pendingDetach + {device};
      }
      ReleaseDevice(device, now);
    }

    /** Releases every device of `devices`. */
    method ReleaseEach(devices: set<DeviceId>, now: nat) returns (ghost order: seq<DeviceId>)
      modifies this
      ensures IsOrderOf(order, devices) && View() == ReleaseAll(old(View()), order, now)
    {
      order := [];
      var left := devices;
      while left != {}
        invariant left <= devices && IsOrderOf(order, devices - left)
        invariant View() == ReleaseAll(old(View()), order, now)
      {
        var device :| device in left;
        ReleaseDevice(device, now);
        ReleaseAllSnoc(old(View()), order, device, now);
        OrderSnoc(order, devices - left, device);
        left := left - {device};
        order := order + [device];
        assert devices - left == devices - (left + {device}) + {device};
      }
      assert devices - left == devices;
    }

    method Expire(now: nat) returns (ghost order: seq<DeviceId>)
      modifies this
      ensures ExpiryOrder(old(View()), order, now) && View() == ReleaseAll(old(View()), order, now)
    {
      var expired := set d | d in active && now >= active[d].expiresAt;
      order := ReleaseEach(expired, now);
    }

    /** The device a client's lease id is active on: a scan of the map's values. */
    method FindLease(id: nat, client: PeerId) returns (device: Option<DeviceId>)
      ensures device.Some? ==> Holds(View(), device.value, id, client)
      ensures device.None? ==> forall d :: !Holds(View(), d, id, client)
    {
      var left := active.Keys;
      while left != {}
        invariant left <= active.Keys
        invariant forall d | d in active && d !in left :: !Holds(View(), d, id, client)
      {
        var d :| d in left;
        if active[d].id == id && active[d].client == client {
          return Some(d);
        }
        left := left - {d};
      }
      return None;
    }

    /** The waiting queue without the entries of `client`. */
    method LeaveQueue(client: PeerId)
      modifies this`waiting
      ensures waiting == QueueWithout(old(waiting), client)
    {
      var kept, i := [], 0;
      while i < |waiting|
        invariant i <= |waiting| && waiting == old(waiting)
        invariant QueueWithout(waiting, client) == kept + QueueWithout(waiting[i..], client)
      {
        assert waiting[i..][1..] == waiting[i + 1..];
        if waiting[i].client != client { kept := kept + [waiting[i]]; }
        i := i + 1;
      }
      waiting := kept;
    }

    /** All lease requests, after the book has been expired. */
    method Serve(devicePeers: map<DeviceId, PeerId>, peer: PeerId, isAgent: bool, request: LeaseRequest, now: nat)
      returns (reply: LeaseReply, peers: map<DeviceId, PeerId>, ghost order: seq<DeviceId>)
      requires BookInv(View())
      modifies this
      ensures IsOrderOf(order, HeldBy(old(View()), peer))
      ensures (View(), reply) == Leases.Serve(old(View()), devicePeers, peer, isAgent, request, order, now)
      ensures peers == if request.AgentDetach? && SpeaksFor(devicePeers, isAgent, peer, request.device)
                       then devicePeers - {request.device} else devicePeers
      ensures BookInv(View()) && Answers(old(View()), View(), devicePeers, peer, isAgent, request, now, reply)
    {
      hide Answers, BookInv, ServeAcquire, ServeQueue, ServeRenew, ServeRelease, ServeDisconnect, ForceRelease;
      order := SomeOrder(HeldBy(View(), peer));
      peers := devicePeers;
      match request {
        case Acquire(device, lifetime) => reply := ServeAcquireInPlace(peer, device, lifetime, now);
        case Queue(device, lifetime) => reply := ServeQueueInPlace(peer, device, lifetime, now);
        case Renew(lease, lifetime) => reply := ServeRenewInPlace(peer, lease, lifetime, now);
        case ReleaseLease(lease) => reply := ServeReleaseInPlace(peer, lease, "released", now);
        case Revoke(lease) => reply := ServeReleaseInPlace(peer, lease, "revoked", now);
        case Validate(lease, device, client) =>
          if !SpeaksFor(devicePeers, isAgent, peer, device) { reply := Denied("lease_validation_access_denied"); }
          else if device in active && active[device].id == lease && active[device].client == client {
            reply := Status("active");
          } else { reply := Denied("lease_inactive"); }
        case Disconnect => reply, order := ServeDisconnectInPlace(peer, now);
        case AgentDetach(device) =>
          if !SpeaksFor(devicePeers, isAgent, peer, device) { reply := Denied("agent_detach_access_denied"); }
          else {
            ForceReleaseDevice(device, now);
            peers := devicePeers - {device};
            reply := Status("detached");
          }
      }
      ServeInv(old(View()), devicePeers, peer, isAgent, request, order, now);
      ServeAnswers(old(View()), devicePeers, peer, isAgent, request, order, now);
    }

    method ServeAcquireInPlace(peer: PeerId, device: DeviceId, lifetime: nat, now: nat) returns (reply: LeaseReply)
      modifies this
      ensures (View(), reply) == ServeAcquire(old(View()), peer, device, lifetime, now)
    {
      if device in active { return Denied("device_already_leased"); }
      var id := Insert(device, peer, lifetime, now);
      return Granted(active[device], "acquired");
    }

    method ServeDisconnectInPlace(peer: PeerId, now: nat) returns (reply: LeaseReply, ghost order: seq<DeviceId>)
      modifies this
      ensures IsOrderOf(order, HeldBy(old(View()), peer))
      ensures (View(), reply) == ServeDisconnect(old(View()), peer, order, now)
    {
      var devices := set d | d in active && active[d].client == peer;
      LeaveQueue(peer);
      order := ReleaseEach(devices, now);
      reply := Status("disconnected");
    }

    method ServeQueueInPlace(peer: PeerId, device: DeviceId, lifetime: nat, now: nat) returns (reply: LeaseReply)
      modifies this
      ensures (View(), reply) == ServeQueue(old(View()), peer, device, lifetime, now)
    {
      if device in active {
        if active[device].client == peer { return Granted(active[device], "acquired"); }
        var i := 0;
        while i < |waiting|
          invariant i <= |waiting|
          invariant forall k | 0 <= k < i :: !(waiting[k].device == device && waiting[k].client == peer)
        {
          if waiting[i].device == device && waiting[i].client == peer { return Status("queued"); }
          i := i + 1;
        }
        waiting := waiting + [Waiter(device, peer, lifetime)];
        return Status("queued");
      }
      var id := Insert(device, peer, lifetime, now);
      return Granted(active[device], "acquired");
    }

    method ServeRenewInPlace(peer: PeerId, lease: nat, lifetime: nat, now: nat) returns (reply: LeaseReply)
      requires BookInv(View())
      modifies this
      ensures (View(), reply) == ServeRenew(old(View()), peer, lease, lifetime, now)
    {
      var device := FindLease(lease, peer);
      if device.None? { return Denied("lease_inactive"); }
      HoldsUnique(View(), device.value, lease, peer);
      var renewed := active[device.value].(expiresAt := SatAdd(now, lifetime));
      active := active[device.value := renewed];
      return Granted(renewed, "renewed");
    }

    method ServeReleaseInPlace(peer: PeerId, lease: nat, status: string, now: nat) returns (reply: LeaseReply)
      requires BookInv(View())
      modifies this
      ensures (View(), reply) == ServeRelease(old(View()), peer, lease, status, now)
    {
      var device := FindLease(lease, peer);
      if device.None? { return Denied("lease_inactive"); }
      HoldsUnique(View(), device.value, lease, peer);
      ReleaseDevice(device.value, now);
      return Status(status);
    }
  }

  lemma {:induction false} ReleaseAllSnoc(b: Book, order: seq<DeviceId>, d: DeviceId, now: nat)
    ensures ReleaseAll(b, order + [d], now) == Release(ReleaseAll(b, order, now), d, now)
    decreases |order|
  {
    if order != [] {
      assert (order + [d])[1..] == order[1..] + [d];
      ReleaseAllSnoc(Release(b, order[0], now), order[1..], d, now);
    } else {
      assert (order + [d])[1..] == [];
    }
  }

  /** A lease id is active on one device at most, so whichever match a scan finds is the one. */
  lemma HoldsUnique(b: Book, d: DeviceId, id: nat, client: PeerId)
    requires BookInv(b) && Holds(b, d, id, client)
    ensures forall e | Holds(b, e, id, client) :: e == d
  {
    forall e | Holds(b, e, id, client) ensures e == d { LeaseIdsUnique(b, d, e); }
  }

  /** Every finite set can be visited in some order. */
  ghost function SomeOrder<T(!new)>(s: set<T>): (order: seq<T>)
    ensures IsOrderOf(order, s)
  {
    if s == {} then []
    else
      var x :| x in s;
      OrderSnoc(SomeOrder(s - {x}), s - {x}, x);
      assert s - {x} + {x} == s;
      SomeOrder(s - {x}) + [x]
  }
}
