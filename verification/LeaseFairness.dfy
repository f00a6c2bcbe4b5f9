/** First come, first served: nobody overtakes a waiting client, whatever requests arrive. */
module LeaseFairness {
  import opened Common
  import opened Leases

  /** Two clients competing for one device, watched from the grant number `since` on. */
  datatype Rivals = Rivals(device: DeviceId, first: PeerId, second: PeerId, since: nat)

  ghost predicate IsGrant(b: Book, k: nat, device: DeviceId, client: PeerId) {
    k < |b.grants| && b.grants[k] == Grant(device, client)
  }

  /** `first` has been granted the device since the watch began. */
  ghost predicate GotIt(b: Book, r: Rivals) {
    exists k | r.since <= k :: IsGrant(b, k, r.device, r.first)
  }

  /** `first` waits for the device at some position and `second` at none before it. */
  ghost predicate AheadAt(queue: seq<Waiter>, r: Rivals, i: nat) {
    && i < |queue| && queue[i].device == r.device && queue[i].client == r.first
    && (forall j | 0 <= j < i :: !(queue[j].device == r.device && queue[j].client == r.second))
  }

  ghost predicate Ahead(b: Book, r: Rivals) {
    exists i :: AheadAt(b.waiting, r, i)
  }

  /** Every grant to `second` came after a grant to `first`. */
  ghost predicate InTurn(b: Book, r: Rivals) {
    forall k | r.since <= k && IsGrant(b, k, r.device, r.second) ::
      exists j | r.since <= j < k :: IsGrant(b, j, r.device, r.first)
  }

  ghost predicate NoBarging(b: Book, r: Rivals) {
    r.since <= |b.grants| && InTurn(b, r) && (GotIt(b, r) || Ahead(b, r))
  }

  /** The step may add grants and reorder nothing. */
  lemma GrantsKeep(b: Book, b': Book, r: Rivals)
    requires NoBarging(b, r) && b.grants <= b'.grants
    requires forall k | |b.grants| <= k < |b'.grants| && b'.grants[k] == Grant(r.device, r.second) :: GotIt(b, r)
    ensures InTurn(b', r) && r.since <= |b'.grants| && (GotIt(b, r) ==> GotIt(b', r))
  {
    assert forall k, d, c | IsGrant(b, k, d, c) :: IsGrant(b', k, d, c);
    forall k | r.since <= k && IsGrant(b', k, r.device, r.second)
      ensures exists j | r.since <= j < k :: IsGrant(b', j, r.device, r.first)
    {
      if k < |b.grants| { assert IsGrant(b, k, r.device, r.second); }
    }
  }

  lemma InsertFair(b: Book, device: DeviceId, client: PeerId, lifetime: nat, now: nat, r: Rivals)
    requires NoBarging(b, r) && BookInv(b) && device !in b.active
    ensures NoBarging(Insert(b, device, client, lifetime, now), r)
  {
    var b' := Insert(b, device, client, lifetime, now);
    if !GotIt(b, r) {
      var i: nat :| AheadAt(b.waiting, r, i);
      assert b.waiting[i] in b.waiting;
      assert AheadAt(b'.waiting, r, i);
    }
    GrantsKeep(b, b', r);
  }

  lemma WithoutAhead(queue: seq<Waiter>, r: Rivals, i: nat, gone: nat)
    requires AheadAt(queue, r, i) && gone < |queue| && gone != i
    ensures AheadAt(Without(queue, gone), r, if gone < i then i - 1 else i)
  {
  }

  lemma ReleaseNowFair(b: Book, device: DeviceId, now: nat, r: Rivals)
    requires NoBarging(b, r) && r.first != r.second
    ensures NoBarging(ReleaseNow(b, device, now), r)
  {
    var b' := ReleaseNow(b, device, now);
    var gone := FirstFor(b.waiting, device);
    if gone == |b.waiting| {
      GrantsKeep(b, b', r);
      if i: nat :| AheadAt(b.waiting, r, i) { assert AheadAt(b'.waiting, r, i); }
    } else if GotIt(b, r) {
      GrantsKeep(b, b', r);
    } else {
      var i: nat :| AheadAt(b.waiting, r, i);
      GrantsKeep(b, b', r);
      if gone == i { assert IsGrant(b', |b.grants|, r.device, r.first); }
      else { WithoutAhead(b.waiting, r, i, gone); }
    }
  }

  /** Steps that leave the queue and the history alone. */
  lemma SameQueueFair(b: Book, b': Book, r: Rivals)
    requires NoBarging(b, r) && b'.grants == b.grants && b'.waiting == b.waiting
    ensures NoBarging(b', r)
  {
    GrantsKeep(b, b', r);
    if i: nat :| AheadAt(b.waiting, r, i) { assert AheadAt(b'.waiting, r, i); }
  }

  lemma ReleaseFair(b: Book, device: DeviceId, now: nat, r: Rivals)
    requires NoBarging(b, r) && r.first != r.second
    ensures NoBarging(Release(b, device, now), r)
  {
    if device in b.writers { SameQueueFair(b, Release(b, device, now), r); }
    else { ReleaseNowFair(b, device, now, r); }
  }

  lemma {:induction false} ReleaseAllFair(b: Book, order: seq<DeviceId>, now: nat, r: Rivals)
    requires NoBarging(b, r) && r.first != r.second
    ensures NoBarging(ReleaseAll(b, order, now), r)
    decreases |order|
  {
    if order != [] {
      ReleaseFair(b, order[0], now, r);
      ReleaseAllFair(Release(b, order[0], now), order[1..], now, r);
    }
  }

  /** Somebody else's disconnect leaves `first` ahead of `second`. */
  lemma {:induction false} QueueWithoutAhead(queue: seq<Waiter>, r: Rivals, i: nat, peer: PeerId)
    requires AheadAt(queue, r, i) && peer != r.first
    ensures exists k :: AheadAt(QueueWithout(queue, peer), r, k)
  {
    if i == 0 {
      assert AheadAt(QueueWithout(queue, peer), r, 0);
    } else {
      hide AheadAt;
      AheadBehind(queue, r, i);
      QueueWithoutAhead(queue[1..], r, i - 1, peer);
      var k: nat :| AheadAt(QueueWithout(queue[1..], peer), r, k);
      if queue[0].client != peer { AheadAfter(queue[0], QueueWithout(queue[1..], peer), r, k); }
      assert AheadAt(QueueWithout(queue, peer), r, if queue[0].client == peer then k else k + 1);
    }
  }

  /** The head of the queue is not `second` waiting for the device. */
  lemma AheadBehind(queue: seq<Waiter>, r: Rivals, i: nat)
    requires AheadAt(queue, r, i) && i > 0
    ensures AheadAt(queue[1..], r, i - 1) && !(queue[0].device == r.device && queue[0].client == r.second)
  {
  }

  lemma AheadAfter(head: Waiter, queue: seq<Waiter>, r: Rivals, k: nat)
    requires AheadAt(queue, r, k) && !(head.device == r.device && head.client == r.second)
    ensures AheadAt([head] + queue, r, k + 1)
  {
  }

  lemma DisconnectFair(b: Book, peer: PeerId, order: seq<DeviceId>, now: nat, r: Rivals)
    requires NoBarging(b, r) && r.first != r.second && (peer == r.first ==> GotIt(b, r))
    ensures NoBarging(ServeDisconnect(b, peer, order, now).0, r)
  {
    var b1 := b.(waiting := QueueWithout(b.waiting, peer));
    GrantsKeep(b, b1, r);
    if !GotIt(b, r) {
      var i: nat :| AheadAt(b.waiting, r, i);
      QueueWithoutAhead(b.waiting, r, i, peer);
      assert Ahead(b1, r);
    }
    ReleaseAllFair(b1, order, now, r);
  }

  lemma QueueFair(b: Book, peer: PeerId, device: DeviceId, lifetime: nat, now: nat, r: Rivals)
    requires NoBarging(b, r) && BookInv(b)
    ensures NoBarging(ServeQueue(b, peer, device, lifetime, now).0, r)
  {
    var b' := ServeQueue(b, peer, device, lifetime, now).0;
    if device !in b.active { InsertFair(b, device, peer, lifetime, now, r); }
    else {
      GrantsKeep(b, b', r);
      if i: nat :| AheadAt(b.waiting, r, i) { assert AheadAt(b'.waiting, r, i); }
    }
  }

  /** No lease request lets `second` overtake `first`; only `first` leaving the queue itself can. */
  lemma ServeFair(b: Book, devicePeers: map<DeviceId, PeerId>, peer: PeerId, isAgent: bool,
                  request: LeaseRequest, order: seq<DeviceId>, now: nat, r: Rivals)
    requires BookInv(b) && NoBarging(b, r) && r.first != r.second
    requires request.Disconnect? && peer == r.first ==> GotIt(b, r)
    ensures NoBarging(Serve(b, devicePeers, peer, isAgent, request, order, now).0, r)
  {
    var b' := Serve(b, devicePeers, peer, isAgent, request, order, now).0;
    match request
    case Acquire(device, lifetime) =>
      if device !in b.active { InsertFair(b, device, peer, lifetime, now, r); }
    case Queue(device, lifetime) => QueueFair(b, peer, device, lifetime, now, r);
    case Renew(lease, lifetime) => SameQueueFair(b, b', r);
    case ReleaseLease(lease) =>
      forall d | Holds(b, d, lease, peer) ensures NoBarging(Release(b, d, now), r) { ReleaseFair(b, d, now, r); }
    case Revoke(lease) =>
      forall d | Holds(b, d, lease, peer) ensures NoBarging(Release(b, d, now), r) { ReleaseFair(b, d, now, r); }
    case Validate(_, _, _) =>
    case Disconnect => DisconnectFair(b, peer, order, now, r);
    case AgentDetach(device) =>
      var b1 := b.(writers := b.writers - {device},
                   pendingRelease := b.pendingRelease - {device},
                   pendingDetach := b.pendingDetach - {device});
      SameQueueFair(b, b1, r);
      ReleaseNowFair(b1, device, now, r);
  }
}
