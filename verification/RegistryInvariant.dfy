/** What every critical section of the registry keeps, in memory and on disk. */
module RegistryInvariant {
  import opened Common
  import opened AppleProtocol
  import opened Leases
  import opened Persistence
  import opened RegistryState

  // ---------------------------------------------------------------- the invariant

  /** Device `d`'s fence names a known device-mutating job whose request names exactly the lease that
      is active on `d`, held by the client that submitted the job. */
  ghost predicate FenceNamed(b: Book, d: DeviceId, jobs: Jobs)
    requires d in b.writers
  {
    var job := b.writers[d];
    && d in b.active
    && job.key in jobs.operations && job in jobs.clients
    && jobs.operations[job.key].operation.MutatesDevice()
    && jobs.operations[job.key].device == Some(d)
    && jobs.operations[job.key].lease == Some(b.active[d].id)
    && jobs.clients[job] == b.active[d].client
  }

  ghost predicate FencesNamed(b: Book, jobs: Jobs) {
    forall d | d in b.writers :: FenceNamed(b, d, jobs)
  }

  /** The job maps agree on which jobs exist: one for each idempotency key that was submitted. */
  ghost predicate JobsAgree(requests: map<Name, JobId>, operations: map<Name, AppleRequest>,
                            clients: map<JobId, PeerId>, hosts: map<JobId, HostId>)
  {
    && (forall k | k in requests ::
          requests[k] == JobId(k) && k in operations && operations[k].key == k && JobId(k) in clients)
    && (forall k | k in operations :: k in requests)
    && (forall job | job in clients :: job.key in requests)
    && hosts.Keys == clients.Keys
  }

  /** A pending job is pending with the request it was made for; and nothing is kept of unknown jobs. */
  ghost predicate JobsInv(jobs: Jobs) {
    && JobsAgree(jobs.requests, jobs.operations, jobs.clients, jobs.hosts)
    && (forall job | job in jobs.pending ::
          job in jobs.clients && job.key in jobs.operations && jobs.pending[job] == jobs.operations[job.key])
    && (forall job | job in jobs.agents :: job in jobs.clients)
    && (forall job | job in jobs.events :: job in jobs.clients)
  }

  /** The request names a lease that was really issued, for that device, to that client. */
  ghost predicate NamesGrant(request: AppleRequest, client: PeerId, grants: seq<Grant>) {
    request.operation.MutatesDevice() ==>
      && request.device.Some? && request.lease.Some?
      && 1 <= request.lease.value <= |grants|
      && grants[request.lease.value - 1] == Grant(request.device.value, client)
  }

  ghost predicate LeasesNamed(jobs: Jobs, grants: seq<Grant>) {
    forall k | k in jobs.operations && JobId(k) in jobs.clients ::
      NamesGrant(jobs.operations[k], jobs.clients[JobId(k)], grants)
  }

  ghost predicate AdmittedNamed(admitted: set<Submission>, grants: seq<Grant>) {
    forall a | a in admitted :: NamesGrant(a.request, a.peer, grants)
  }

  /** Everything the durable job maps know about who submitted what, and for which host, is still so in memory. */
  ghost predicate JobsWithin(old_: Jobs, new_: Jobs) {
    && (forall k | k in old_.operations :: k in new_.operations && new_.operations[k] == old_.operations[k])
    && (forall job | job in old_.clients :: job in new_.clients && new_.clients[job] == old_.clients[job])
    && (forall job | job in old_.hosts :: job in new_.hosts && new_.hosts[job] == old_.hosts[job])
  }

  /** What memory keeps to by itself, whatever becomes of the files. */
  ghost predicate LifeInv(s: Node) {
    BookInv(s.book) && JobsInv(s.jobs) && FencesNamed(s.book, s.jobs)
  }

  /** What a start would find fits what is in memory. */
  ghost predicate DiskInv(s: Node) {
    && BookInv(Held(s.bookCopy))
    && JobsInv(Held(s.jobsCopy)) && JobsWithin(Held(s.jobsCopy), s.jobs)
    && FencesNamed(Held(s.bookCopy), s.jobs)
    && Held(s.bookCopy).grants <= s.book.grants
    && AllNamed(s)
  }

  /** All submissions name issued leases, as far as the lease file on disk knows. */
  ghost predicate AllNamed(s: Node) {
    LeasesNamed(s.jobs, Held(s.bookCopy).grants) && AdmittedNamed(s.admitted, Held(s.bookCopy).grants)
  }

  ghost predicate NodeInv(s: Node) {
    LifeInv(s) && DiskInv(s)
  }

  // ---------------------------------------------------------------- how the book moves

  ghost predicate SameHold(b: Book, b': Book, d: DeviceId) {
    && d in b.writers && d in b'.writers && b'.writers[d] == b.writers[d]
    && d in b.active && d in b'.active
    && b'.active[d].id == b.active[d].id && b'.active[d].client == b.active[d].client
  }

  /** From `b` to `b'` the book stays well formed, no fence outside `except` moves or loses its lease,
      and any fence that appears names a pending job and its own lease. */
  ghost predicate Keeps(jobs: Jobs, b: Book, b': Book, except: set<DeviceId>) {
    && BookInv(b')
    && b.grants <= b'.grants
    && (forall d | d in b.writers && d !in except :: SameHold(b, b', d))
    && (forall d | d in b'.writers ::
          SameHold(b, b', d) || (b'.writers[d] in jobs.pending && FenceNamed(b', d, jobs)))
  }

  lemma KeepsCompose(jobs: Jobs, a: Book, b: Book, c: Book, e1: set<DeviceId>, e2: set<DeviceId>)
    requires Keeps(jobs, a, b, e1) && Keeps(jobs, b, c, e2)
    ensures Keeps(jobs, a, c, e1 + e2)
  {
    forall d | d in c.writers
      ensures SameHold(a, c, d) || (c.writers[d] in jobs.pending && FenceNamed(c, d, jobs))
    {
      if SameHold(b, c, d) && !SameHold(a, b, d) { assert FenceNamed(b, d, jobs); }
    }
  }

  lemma ReleaseKeeps(jobs: Jobs, b: Book, d: DeviceId, now: nat)
    requires BookInv(b)
    ensures Keeps(jobs, b, Release(b, d, now), {})
  {
    ReleaseInv(b, d, now);
  }

  lemma {:induction false} ReleaseAllKeeps(jobs: Jobs, b: Book, order: seq<DeviceId>, now: nat)
    requires BookInv(b)
    ensures Keeps(jobs, b, ReleaseAll(b, order, now), {})
    decreases |order|
  {
    if order != [] {
      var b1 := Release(b, order[0], now);
      ReleaseKeeps(jobs, b, order[0], now);
      ReleaseAllKeeps(jobs, b1, order[1..], now);
      KeepsCompose(jobs, b, b1, ReleaseAll(b, order, now), {}, {});
    }
  }

  lemma DetachKeeps(jobs: Jobs, b: Book, d: DeviceId, now: nat)
    requires BookInv(b)
    ensures Keeps(jobs, b, DetachInventory(b, d, now), {})
  {
    DetachInventoryInv(b, d, now);
  }

  lemma {:induction false} DetachAllKeeps(jobs: Jobs, l: Ledger, order: seq<DeviceId>, now: nat)
    requires BookInv(l.book)
    ensures Keeps(jobs, l.book, DetachAll(l, order, now).book, {})
    decreases |order|
  {
    if order != [] {
      var l1 := DetachOne(l, order[0], now);
      DetachKeeps(jobs, l.book, order[0], now);
      DetachAllKeeps(jobs, l1, order[1..], now);
      KeepsCompose(jobs, l.book, l1.book, DetachAll(l, order, now).book, {}, {});
    }
  }

  /** `b` with every trace of device `d`'s fence removed. */
  function Bare(b: Book, d: DeviceId): Book {
    b.(writers := b.writers - {d}, pendingRelease := b.pendingRelease - {d}, pendingDetach := b.pendingDetach - {d})
  }

  /** Unfencing releases the lease exactly when a release had been deferred. */
  lemma UnfenceMeaning(l: Ledger, d: DeviceId, now: nat)
    ensures Unfence(l, d, now).book ==
            if d in l.book.pendingRelease then ReleaseNow(Bare(l.book, d), d, now) else Bare(l.book, d)
  {
    var b1 := l.book.(writers := l.book.writers - {d});
    assert d !in b1.pendingRelease ==> b1.pendingRelease == b1.pendingRelease - {d};
    assert d !in b1.pendingDetach ==> b1.pendingDetach == b1.pendingDetach - {d};
  }

  lemma ReleaseNowKeeps(jobs: Jobs, b: Book, d: DeviceId, now: nat)
    requires BookInv(b) && d !in b.writers
    ensures Keeps(jobs, b, ReleaseNow(b, d, now), {})
  {
    ReleaseNowInv(b, d, now);
  }

  lemma BareKeeps(jobs: Jobs, b: Book, d: DeviceId)
    requires BookInv(b)
    ensures Keeps(jobs, b, Bare(b, d), {d})
  {
  }

  lemma UnfenceKeeps(jobs: Jobs, l: Ledger, d: DeviceId, now: nat)
    requires BookInv(l.book)
    ensures Keeps(jobs, l.book, Unfence(l, d, now).book, {d})
    ensures Unfence(l, d, now).book.writers == l.book.writers - {d}
  {
    UnfenceMeaning(l, d, now);
    var bare := Bare(l.book, d);
    BareKeeps(jobs, l.book, d);
    if d in l.book.pendingRelease {
      ReleaseNowKeeps(jobs, bare, d, now);
      KeepsCompose(jobs, l.book, bare, ReleaseNow(bare, d, now), {d}, {});
    }
  }

  lemma {:induction false} UnfenceAllKeeps(jobs: Jobs, l: Ledger, order: seq<DeviceId>, s: set<DeviceId>, now: nat)
    requires BookInv(l.book) && IsOrderOf(order, s)
    ensures Keeps(jobs, l.book, UnfenceAll(l, order, now).book, s)
    decreases |order|
  {
    if order == [] {
      assert forall x | x in s :: x in order;
      assert s == {};
    } else {
      OrderTail(order, s);
      var d, l1 := order[0], Unfence(l, order[0], now);
      UnfenceKeeps(jobs, l, d, now);
      UnfenceAllKeeps(jobs, l1, order[1..], s - {d}, now);
      KeepsCompose(jobs, l.book, l1.book, UnfenceAll(l, order, now).book, {d}, s - {d});
      assert {d} + (s - {d}) == s;
    }
  }

  lemma {:induction false} UnfenceAllWriters(l: Ledger, order: seq<DeviceId>, s: set<DeviceId>, now: nat)
    requires IsOrderOf(order, s)
    ensures UnfenceAll(l, order, now).book.writers == l.book.writers - s
    decreases |order|
  {
    if order == [] {
      assert forall x | x in s :: x in order;
      assert s == {};
    } else {
      OrderTail(order, s);
      var l1 := Unfence(l, order[0], now);
      UnfenceMeaning(l, order[0], now);
      UnfenceAllWriters(l1, order[1..], s - {order[0]}, now);
      assert l.book.writers - {order[0]} - (s - {order[0]}) == l.book.writers - s;
    }
  }

  /** The only device whose fence a lease request may end. */
  function DetachedBy(request: LeaseRequest, peers: map<DeviceId, PeerId>, isAgent: bool, peer: PeerId): set<DeviceId> {
    if request.AgentDetach? && SpeaksFor(peers, isAgent, peer, request.device) then {request.device} else {}
  }

  lemma DisconnectKeeps(jobs: Jobs, b: Book, peer: PeerId, order: seq<DeviceId>, now: nat)
    requires BookInv(b)
    ensures Keeps(jobs, b, ServeDisconnect(b, peer, order, now).0, {})
  {
    var b1 := b.(waiting := QueueWithout(b.waiting, peer));
    ServeDisconnectInv(b, peer, [], now);
    ReleaseAllKeeps(jobs, b1, order, now);
    KeepsCompose(jobs, b, b1, ReleaseAll(b1, order, now), {}, {});
  }

  lemma ForceReleaseKeeps(jobs: Jobs, b: Book, d: DeviceId, now: nat)
    requires BookInv(b)
    ensures Keeps(jobs, b, ForceRelease(b, d, now), {d})
  {
    BareKeeps(jobs, b, d);
    ReleaseNowKeeps(jobs, Bare(b, d), d, now);
    KeepsCompose(jobs, b, Bare(b, d), ForceRelease(b, d, now), {d}, {});
  }

  lemma ServeQueueKeeps(jobs: Jobs, b: Book, peer: PeerId, device: DeviceId, lifetime: nat, now: nat)
    requires BookInv(b)
    ensures Keeps(jobs, b, ServeQueue(b, peer, device, lifetime, now).0, {})
  {
    ServeQueueInv(b, peer, device, lifetime, now);
  }

  lemma ServeRenewKeeps(jobs: Jobs, b: Book, peer: PeerId, lease: nat, lifetime: nat, now: nat)
    requires BookInv(b)
    ensures Keeps(jobs, b, ServeRenew(b, peer, lease, lifetime, now).0, {})
  {
    ServeInv(b, map[], peer, false, Renew(lease, lifetime), [], now);
  }

  lemma ServeReleaseKeeps(jobs: Jobs, b: Book, peer: PeerId, lease: nat, status: string, now: nat)
    requires BookInv(b)
    ensures Keeps(jobs, b, ServeRelease(b, peer, lease, status, now).0, {})
  {
    forall d | Holds(b, d, lease, peer) ensures Keeps(jobs, b, Release(b, d, now), {}) {
      ReleaseKeeps(jobs, b, d, now);
    }
  }

  lemma ServeAcquireKeeps(jobs: Jobs, b: Book, peer: PeerId, device: DeviceId, lifetime: nat, now: nat)
    requires BookInv(b)
    ensures Keeps(jobs, b, ServeAcquire(b, peer, device, lifetime, now).0, {})
  {
    ServeAcquireInv(b, peer, device, lifetime, now);
  }

  lemma AgentDetachKeeps(jobs: Jobs, b: Book, peers: map<DeviceId, PeerId>, peer: PeerId, isAgent: bool,
                         device: DeviceId, now: nat)
    requires BookInv(b)
    ensures Keeps(jobs, b, Serve(b, peers, peer, isAgent, AgentDetach(device), [], now).0,
                  DetachedBy(AgentDetach(device), peers, isAgent, peer))
  {
    KeepsSame(jobs, b, b);
    ForceReleaseKeeps(jobs, b, device, now);
    hide Keeps, ForceRelease;
  }

  lemma ServeKeeps(jobs: Jobs, b: Book, peers: map<DeviceId, PeerId>, peer: PeerId, isAgent: bool,
                   request: LeaseRequest, order: seq<DeviceId>, now: nat)
    requires BookInv(b)
    ensures Keeps(jobs, b, Serve(b, peers, peer, isAgent, request, order, now).0,
                  DetachedBy(request, peers, isAgent, peer))
  {
    if request.Validate? {
      KeepsSame(jobs, b, b);
    }
    hide BookInv, Keeps, ServeAcquire, ServeQueue, ServeRenew, ServeRelease, ServeDisconnect, ForceRelease;
    match request
    case Acquire(device, lifetime) => ServeAcquireKeeps(jobs, b, peer, device, lifetime, now);
    case Queue(device, lifetime) => ServeQueueKeeps(jobs, b, peer, device, lifetime, now);
    case Renew(lease, lifetime) => ServeRenewKeeps(jobs, b, peer, lease, lifetime, now);
    case ReleaseLease(lease) => ServeReleaseKeeps(jobs, b, peer, lease, "released", now);
    case Revoke(lease) => ServeReleaseKeeps(jobs, b, peer, lease, "revoked", now);
    case Validate(_, _, _) =>
    case Disconnect => DisconnectKeeps(jobs, b, peer, order, now);
    case AgentDetach(device) => AgentDetachKeeps(jobs, b, peers, peer, isAgent, device, now);
  }

  // ---------------------------------------------------------------- how the job maps move

  /** Job maps only ever grow: who submitted what never changes, stored events are never rewritten, a job
      becomes pending only when it is new, and an acknowledged, dispatched job stays pending unless it
      is one of `done`. */
  ghost predicate Grow(j: Jobs, j': Jobs, done: set<JobId>) {
    JobsInv(j') && JobsWithin(j, j') && ReportsGrow(j, j') && MarksGrow(j, j') && PendingShrinks(j, j', done)
  }

  ghost predicate ReportsGrow(j: Jobs, j': Jobs) {
    && (forall job | job in j.agents :: job in j'.agents && j'.agents[job] == j.agents[job])
    && (forall job | job in j.events :: job in j'.events && j.events[job] <= j'.events[job])
  }

  ghost predicate MarksGrow(j: Jobs, j': Jobs) {
    && j.acknowledged <= j'.acknowledged
    && j.dispatched * j.acknowledged <= j'.dispatched
    && (forall job | job in j'.cancelled :: job in j.cancelled || job in j.pending || job !in j.clients)
  }

  ghost predicate PendingShrinks(j: Jobs, j': Jobs, done: set<JobId>) {
    && (forall job | job in j'.pending :: job in j.pending || job !in j.clients)
    && (forall job | job in j.pending && job in j.acknowledged && job in j.dispatched && job !in done ::
          job in j'.pending)
  }

  lemma GrowSame(j: Jobs, j': Jobs)
    requires JobsInv(j) && j' == j.(hostPeers := j'.hostPeers, devicePeers := j'.devicePeers)
    ensures Grow(j, j', {})
  {
  }

  lemma ReportsCompose(a: Jobs, b: Jobs, c: Jobs)
    requires ReportsGrow(a, b) && ReportsGrow(b, c)
    ensures ReportsGrow(a, c)
  {
    forall job | job in a.events ensures job in c.events && a.events[job] <= c.events[job] {
      assert a.events[job] <= b.events[job] && b.events[job] <= c.events[job];
    }
  }

  lemma PendingCompose(a: Jobs, b: Jobs, c: Jobs, e1: set<JobId>, e2: set<JobId>)
    requires a.clients.Keys <= b.clients.Keys
    requires MarksGrow(a, b) && MarksGrow(b, c) && PendingShrinks(a, b, e1) && PendingShrinks(b, c, e2)
    ensures MarksGrow(a, c) && PendingShrinks(a, c, e1 + e2)
  {
  }

  lemma WithinCompose(a: Jobs, b: Jobs, c: Jobs)
    requires JobsWithin(a, b) && JobsWithin(b, c)
    ensures JobsWithin(a, c)
  {
  }

  lemma GrowCompose(a: Jobs, b: Jobs, c: Jobs, e1: set<JobId>, e2: set<JobId>)
    requires Grow(a, b, e1) && Grow(b, c, e2)
    ensures Grow(a, c, e1 + e2)
  {
    WithinCompose(a, b, c);
    ReportsCompose(a, b, c);
    PendingCompose(a, b, c, e1, e2);
  }

  lemma MarkGrows(j: Jobs, job: JobId)
    requires JobsInv(j) && job in j.pending
    ensures Grow(j, MarkDispatched(j, job), {})
  {
    hide JobsAgree;
  }

  lemma UnmarkGrows(j: Jobs, job: JobId)
    requires JobsInv(j) && job !in j.acknowledged
    ensures Grow(j, j.(dispatched := j.dispatched - {job}), {})
  {
    hide JobsAgree;
  }

  /** Rejection and cancellation of a job no agent is known to run. */
  lemma WithdrawGrows(j: Jobs, job: JobId, event: Event)
    requires JobsInv(j) && job in j.pending && !(job in j.acknowledged && job in j.dispatched)
    ensures Grow(j, PushEvent(j.(pending := j.pending - {job}), job, event), {})
  {
    hide JobsAgree;
  }

  lemma NewKeyAgrees(j: Jobs, peer: PeerId, request: AppleRequest, target: HostId)
    requires JobsAgree(j.requests, j.operations, j.clients, j.hosts)
    ensures var job := JobId(request.key);
            JobsAgree(j.requests[request.key := job], j.operations[request.key := request], j.clients[job := peer],
                      j.hosts[job := target])
  {
  }

  lemma NewKeyPending(operations: map<Name, AppleRequest>, pending: map<JobId, AppleRequest>, request: AppleRequest)
    requires forall job | job in pending :: job.key in operations && pending[job] == operations[job.key]
    ensures var pending' := pending[JobId(request.key) := request];
            var operations' := operations[request.key := request];
            forall job | job in pending' :: job.key in operations' && pending'[job] == operations'[job.key]
  {
    forall job: JobId | job.key == request.key ensures job == JobId(request.key) {
    }
  }

  lemma NewJobInv(j: Jobs, peer: PeerId, request: AppleRequest, target: HostId)
    requires JobsInv(j)
    ensures JobsInv(NewJob(j, peer, request, target))
  {
    NewKeyAgrees(j, peer, request, target);
    NewKeyPending(j.operations, j.pending, request);
    hide JobsAgree;
  }

  lemma NewJobGrows(j: Jobs, peer: PeerId, request: AppleRequest, target: HostId)
    requires JobsInv(j) && request.key !in j.requests
    ensures Grow(j, NewJob(j, peer, request, target), {})
  {
    NewJobInv(j, peer, request, target);
    NewJobApart(j, peer, request, target);
  }

  lemma NewJobApart(j: Jobs, peer: PeerId, request: AppleRequest, target: HostId)
    requires request.key !in j.operations && JobId(request.key) !in j.clients && JobId(request.key) !in j.hosts
    requires (forall job | job in j.agents :: job in j.clients) && (forall job | job in j.events :: job in j.clients)
    ensures var j' := NewJob(j, peer, request, target);
            JobsWithin(j, j') && ReportsGrow(j, j') && MarksGrow(j, j') && PendingShrinks(j, j', {})
  {
  }

  lemma AcknowledgeGrows(j: Jobs, job: JobId, batch: seq<Event>)
    requires JobsInv(j) && job.key in j.requests
    ensures Grow(j, Acknowledge(j, job, batch), {})
  {
    assert job in j.clients;
    hide JobsAgree, AddEvents;
  }

  lemma FinishGrows(j: Jobs, job: JobId, batch: seq<Event>, peers: map<DeviceId, PeerId>)
    requires JobsInv(j) && job.key in j.requests
    ensures Grow(j, Finish(j, job, batch, peers), {job})
  {
    assert job in j.clients;
    hide JobsAgree, AddEvents;
  }

  lemma CancelJobGrows(j: Jobs, job: JobId)
    requires JobsInv(j) && job in j.pending
    ensures Grow(j, CancelJob(j, job), {})
  {
    hide JobsAgree;
  }

  // ---------------------------------------------------------------- steps of a running registry

  /** The job whose terminal report the step is. */
  function DoneBy(s: Node, step: Step): set<JobId> {
    if step.Progress? && step.terminal && step.job in s.jobs.agents && s.jobs.agents[step.job] == step.peer
    then {step.job} else {}
  }

  /** The devices whose fence the step may end: those of a terminally reported job, a device its agent
      detaches, and, when saving a heartbeat fails, fences of jobs nobody has acknowledged. */
  function Ended(s: Node, step: Step): set<DeviceId> {
    match step
    case Progress(_, job, _, _, _, _, _, _, _) => if DoneBy(s, step) == {} then {} else FencedBy(s.book, job)
    case LeaseOp(peer, isAgent, request, _, _, _, _, _) => DetachedBy(request, s.jobs.devicePeers, isAgent, peer)
    case Dispatch(_, pick, _, _, _, _, saveJobs, _) =>
      if pick.None? || saveJobs.Complete? then {} else Orphans(s.jobs, s.book)
    case _ => {}
  }

  /** How a step moves memory, and, as long as saves are careful, what a start would find. */
  ghost predicate Advance(s: Node, s': Node, done: set<JobId>, ended: set<DeviceId>) {
    && Grow(s.jobs, s'.jobs, done) && Keeps(s.jobs, s.book, s'.book, ended)
    && SavedJobsMove(s, s', done) && SavedBookMoves(s, s', ended)
  }

  ghost predicate SavedJobsMove(s: Node, s': Node, done: set<JobId>) {
    s'.jobsCopy.careful ==>
      && s.jobsCopy.careful
      && (Held(s'.jobsCopy) == Held(s.jobsCopy)
          || (Grow(s.jobs, Held(s'.jobsCopy), done) && JobsWithin(Held(s'.jobsCopy), s'.jobs)))
  }

  ghost predicate SavedBookMoves(s: Node, s': Node, ended: set<DeviceId>) {
    s'.bookCopy.careful ==>
      && s.bookCopy.careful
      && (Held(s'.bookCopy) == Held(s.bookCopy)
          || (Keeps(s.jobs, s.book, Held(s'.bookCopy), ended) && Held(s'.bookCopy).grants <= s'.book.grants))
  }

  /** Between two copies nothing was saved but `value`. */
  ghost predicate Since<T>(c: Copy<T>, c': Copy<T>, value: T) {
    c'.careful ==> c.careful && (Held(c') == Held(c) || Held(c') == value)
  }

  lemma KeepsSame(jobs: Jobs, b: Book, b': Book)
    requires BookInv(b) && b' == b.(pendingDetach := b'.pendingDetach) && b'.pendingDetach <= b.pendingDetach
    ensures Keeps(jobs, b, b', {})
  {
  }

  lemma InventoryKeeps(jobs: Jobs, b: Book, connected: set<DeviceId>, owned: map<DeviceId, PeerId>,
                       order: seq<DeviceId>, now: nat)
    requires BookInv(b)
    ensures var b1 := b.(pendingDetach := b.pendingDetach - connected);
            Keeps(jobs, b, DetachAll(Ledger(b1, owned), order, now).book, {})
  {
    var b1 := b.(pendingDetach := b.pendingDetach - connected);
    KeepsSame(jobs, b, b1);
    DetachAllKeeps(jobs, Ledger(b1, owned), order, now);
    KeepsCompose(jobs, b, b1, DetachAll(Ledger(b1, owned), order, now).book, {}, {});
  }

  lemma InventoryShape(s: Node, peer: PeerId, isAgent: bool, host: HostId, connected: set<DeviceId>,
                       order: seq<DeviceId>, now: nat, save: Save)
    ensures var s' := DoInventory(s, peer, isAgent, host, connected, order, now, save).0;
            var owned := s.jobs.devicePeers + (map d | d in connected :: peer);
            var l := DetachAll(Ledger(s.book.(pendingDetach := s.book.pendingDetach - connected), owned), order, now);
            || s' == s
            || (s'.jobs == s.jobs.(hostPeers := s'.jobs.hostPeers, devicePeers := s'.jobs.devicePeers)
                && s'.book == l.book && s'.jobsCopy == s.jobsCopy && Since(s.bookCopy, s'.bookCopy, s'.book))
  {
    hide Persist, Held, DetachAll;
  }

  lemma InventoryAdvances(s: Node, peer: PeerId, isAgent: bool, host: HostId, connected: set<DeviceId>,
                          order: seq<DeviceId>, now: nat, save: Save)
    requires LifeInv(s)
    ensures Advance(s, DoInventory(s, peer, isAgent, host, connected, order, now, save).0, {}, {})
  {
    var s' := DoInventory(s, peer, isAgent, host, connected, order, now, save).0;
    InventoryShape(s, peer, isAgent, host, connected, order, now, save);
    InventoryKeeps(s.jobs, s.book, connected, s.jobs.devicePeers + (map d | d in connected :: peer), order, now);
    hide DoInventory, DetachAll, Keeps, Grow, Advance, Held, JobsInv, BookInv;
    KeepsSame(s.jobs, s.book, s.book);
    GrowSame(s.jobs, s'.jobs);
    PartsAdvance(s, s', {}, {});
  }

  lemma ExpiryAdvances(s: Node, s': Node, order: seq<DeviceId>, now: nat)
    requires LifeInv(s) && s'.jobs == s.jobs && s'.jobsCopy == s.jobsCopy
    requires s'.book == ReleaseAll(s.book, order, now)
    requires Since(s.bookCopy, s'.bookCopy, s'.book)
    ensures Advance(s, s', {}, {})
  {
    hide Persist, Held;
    GrowSame(s.jobs, s.jobs);
    ReleaseAllKeeps(s.jobs, s.book, order, now);
  }

  lemma FenceKeeps(jobs: Jobs, b: Book, d: DeviceId, job: JobId)
    requires BookInv(b) && job in jobs.pending && d in b.active
    requires d in b.writers ==> b.writers[d] == job
    requires FenceNamed(b.(writers := b.writers[d := job]), d, jobs)
    ensures Keeps(jobs, b, b.(writers := b.writers[d := job]), {})
  {
  }

  /** Granting or restoring a fence after an expiry. */
  lemma AddFenceKeeps(jobs: Jobs, b: Book, order: seq<DeviceId>, now: nat, d: DeviceId, job: JobId)
    requires BookInv(b) && JobsInv(jobs) && job in jobs.pending
    requires d in b.writers ==> b.writers[d] == job
    requires var b1 := ReleaseAll(b, order, now);
             && d in b1.active && jobs.pending[job].operation.MutatesDevice()
             && jobs.pending[job].device == Some(d) && jobs.pending[job].lease == Some(b1.active[d].id)
             && jobs.clients[job] == b1.active[d].client
    ensures var b1 := ReleaseAll(b, order, now); Keeps(jobs, b, b1.(writers := b1.writers[d := job]), {})
  {
    var b1 := ReleaseAll(b, order, now);
    ReleaseAllKeeps(jobs, b, order, now);
    ReleaseAllWriters(b, order, now);
    FenceKeeps(jobs, b1, d, job);
    KeepsCompose(jobs, b, b1, b1.(writers := b1.writers[d := job]), {}, {});
  }

  /** A fence can be restored only on the device and lease the job's own request names. */
  ghost predicate Restorable(jobs: Jobs, b: Book, job: JobId, d: DeviceId) {
    && job in jobs.pending && job in jobs.clients && d in b.active && d !in b.writers
    && jobs.pending[job].operation.MutatesDevice()
    && jobs.pending[job].device == Some(d) && jobs.pending[job].lease == Some(b.active[d].id)
    && jobs.clients[job] == b.active[d].client
  }

  ghost predicate Restores(jobs: Jobs, b: Book, job: JobId, d: DeviceId, b': Book) {
    Restorable(jobs, b, job, d) && b' == b.(writers := b.writers[d := job])
  }

  lemma RestoreMeaning(jobs: Jobs, b: Book, job: JobId, order: seq<DeviceId>, now: nat)
    ensures var (book, restored) := Restore(jobs, b, job, order, now);
            && (restored != Fence(true) ==> book == b || book == ReleaseAll(b, order, now))
            && (restored == Fence(true) ==> exists d :: Restores(jobs, ReleaseAll(b, order, now), job, d, book))
  {
    var (book, restored) := Restore(jobs, b, job, order, now);
    if restored == Fence(true) {
      assert Restores(jobs, ReleaseAll(b, order, now), job, jobs.pending[job].device.value, book);
    }
  }

  /** An added fence stands where no fence stood before. */
  lemma RestoreKeeps(jobs: Jobs, b: Book, job: JobId, order: seq<DeviceId>, now: nat)
    requires BookInv(b) && JobsInv(jobs)
    ensures var (book, restored) := Restore(jobs, b, job, order, now);
            && Keeps(jobs, b, book, {})
            && (restored == Fence(true) ==> exists d :: d !in b.writers && book.writers == b.writers[d := job])
  {
    RestoreMeaning(jobs, b, job, order, now);
    var (book, restored) := Restore(jobs, b, job, order, now);
    ReleaseAllKeeps(jobs, b, order, now);
    ReleaseAllWriters(b, order, now);
    KeepsSame(jobs, b, b);
    if restored == Fence(true) {
      var d :| Restores(jobs, ReleaseAll(b, order, now), job, d, book);
      AddFenceKeeps(jobs, b, order, now, d, job);
    }
  }

  lemma {:induction false} ReleaseAllWriters(b: Book, order: seq<DeviceId>, now: nat)
    ensures ReleaseAll(b, order, now).writers == b.writers
    decreases |order|
  {
    if order != [] { ReleaseAllWriters(Release(b, order[0], now), order[1..], now); }
  }

  lemma SinceSaved<T>(c: Copy<T>, value: T, save: Save)
    ensures Since(c, Persist(c, value, save), value)
  {
    hide Held;
  }

  lemma SinceSame<T>(c: Copy<T>, value: T)
    ensures Since(c, c, value)
  {
  }

  lemma LeaseShape(s: Node, peer: PeerId, isAgent: bool, request: LeaseRequest, order: seq<DeviceId>,
                   visit: seq<DeviceId>, now: nat, saveBook: Save, saveJobs: Save)
    ensures var s' := DoLease(s, peer, isAgent, request, order, visit, now, saveBook, saveJobs).0;
            var b1 := ReleaseAll(s.book, order, now);
            && s'.jobs == s.jobs.(hostPeers := s'.jobs.hostPeers, devicePeers := s'.jobs.devicePeers)
            && s'.book == Serve(b1, s.jobs.devicePeers, peer, isAgent, request, visit, now).0
            && Since(s.jobsCopy, s'.jobsCopy, s'.jobs) && Since(s.bookCopy, s'.bookCopy, s'.book)
  {
    hide Persist, Held, Serve, ReleaseAll, Since, SpeaksFor;
    var s' := DoLease(s, peer, isAgent, request, order, visit, now, saveBook, saveJobs).0;
    SinceSaved(s.bookCopy, s'.book, saveBook);
    SinceSaved(s.jobsCopy, s'.jobs, saveJobs);
    SinceSame(s.jobsCopy, s'.jobs);
  }

  lemma LeaseAdvances(s: Node, peer: PeerId, isAgent: bool, request: LeaseRequest, order: seq<DeviceId>,
                      visit: seq<DeviceId>, now: nat, saveBook: Save, saveJobs: Save)
    requires LifeInv(s)
    ensures Advance(s, DoLease(s, peer, isAgent, request, order, visit, now, saveBook, saveJobs).0, {},
                    DetachedBy(request, s.jobs.devicePeers, isAgent, peer))
  {
    var b1 := ReleaseAll(s.book, order, now);
    var s' := DoLease(s, peer, isAgent, request, order, visit, now, saveBook, saveJobs).0;
    ReleaseAllKeeps(s.jobs, s.book, order, now);
    LeaseShape(s, peer, isAgent, request, order, visit, now, saveBook, saveJobs);
    ServeKeeps(s.jobs, b1, s.jobs.devicePeers, peer, isAgent, request, visit, now);
    hide DoLease, Serve, ReleaseAll, Keeps, Grow, Advance, Held, DetachedBy, JobsInv;
    KeepsCompose(s.jobs, s.book, b1, s'.book, {}, DetachedBy(request, s.jobs.devicePeers, isAgent, peer));
    var ended := DetachedBy(request, s.jobs.devicePeers, isAgent, peer);
    assert {} + ended == ended;
    GrowSame(s.jobs, s'.jobs);
    PartsAdvance(s, s', {}, DetachedBy(request, s.jobs.devicePeers, isAgent, peer));
  }

  /** Steps that touch only the job maps. */
  lemma JobsAdvance(s: Node, jobs: Jobs, save: Save)
    requires LifeInv(s) && Grow(s.jobs, jobs, {})
    ensures Advance(s, s.(jobs := jobs, jobsCopy := Persist(s.jobsCopy, jobs, save)), {}, {})
  {
    hide Persist, Held;
    KeepsSame(s.jobs, s.book, s.book);
    WithinSame(jobs);
  }

  lemma WithinSame(jobs: Jobs)
    ensures JobsWithin(jobs, jobs)
  {
  }

  /** Steps that touch neither the job maps nor the lease book. */
  lemma StayAdvances(s: Node, s': Node)
    requires LifeInv(s) && s' == s.(hosts := s'.hosts, admitted := s'.admitted)
    ensures Advance(s, s', {}, {})
  {
    GrowSame(s.jobs, s.jobs);
    KeepsSame(s.jobs, s.book, s.book);
  }

  lemma CancelAdvances(s: Node, peer: PeerId, job: JobId, save: Save)
    requires LifeInv(s)
    ensures Advance(s, DoCancel(s, peer, job, save).0, {}, {})
  {
    hide Persist, Held;
    if !(job in s.jobs.clients && s.jobs.clients[job] == peer) || job !in s.jobs.pending {
      StayAdvances(s, s);
    } else {
      CancelJobGrows(s.jobs, job);
      JobsAdvance(s, CancelJob(s.jobs, job), save);
    }
  }

  lemma CreateAdvances(s: Node, peer: PeerId, request: AppleRequest, target: Option<HostId>, save: Save)
    requires LifeInv(s)
    ensures Advance(s, DoCreate(s, peer, request, target, save).0, {}, {})
  {
    hide Persist, Held;
    if request.key in s.jobs.requests || target.None? { StayAdvances(s, s); }
    else {
      NewJobGrows(s.jobs, peer, request, target.value);
      JobsAdvance(s, NewJob(s.jobs, peer, request, target.value), save);
    }
  }

  lemma FinishShape(s: Node, job: JobId, batch: seq<Event>, order: seq<DeviceId>, now: nat,
                    saveBook: Save, saveJobs: Save)
    ensures var s' := DoFinish(s, job, batch, order, now, saveBook, saveJobs).0;
            var l := UnfenceAll(Ledger(s.book, s.jobs.devicePeers), order, now);
            && s'.jobs == Finish(s.jobs, job, batch, l.devicePeers) && s'.book == l.book
            && Since(s.jobsCopy, s'.jobsCopy, s'.jobs) && Since(s.bookCopy, s'.bookCopy, s'.book)
  {
    hide Persist, Held, UnfenceAll, Finish;
  }

  lemma FinishAdvances(s: Node, job: JobId, batch: seq<Event>, order: seq<DeviceId>, now: nat,
                       saveBook: Save, saveJobs: Save)
    requires LifeInv(s) && job in s.jobs.agents && IsOrderOf(order, FencedBy(s.book, job))
    ensures Advance(s, DoFinish(s, job, batch, order, now, saveBook, saveJobs).0, {job}, FencedBy(s.book, job))
  {
    var l := UnfenceAll(Ledger(s.book, s.jobs.devicePeers), order, now);
    var s' := DoFinish(s, job, batch, order, now, saveBook, saveJobs).0;
    FinishShape(s, job, batch, order, now, saveBook, saveJobs);
    UnfenceAllKeeps(s.jobs, Ledger(s.book, s.jobs.devicePeers), order, FencedBy(s.book, job), now);
    FinishGrows(s.jobs, job, batch, l.devicePeers);
    hide DoFinish, UnfenceAll, Finish, Keeps, Grow, Advance, Held, FencedBy;
    PartsAdvance(s, s', {job}, FencedBy(s.book, job));
  }

  /** Rolling back a restored fence leaves exactly the expired book. */
  lemma DropRestored(s: Node, job: JobId, order: seq<DeviceId>, now: nat)
    requires LifeInv(s) && Restore(s.jobs, s.book, job, order, now).1 == Fence(true)
    ensures DropFences(Restore(s.jobs, s.book, job, order, now).0, job) == ReleaseAll(s.book, order, now)
  {
    var b1, book := ReleaseAll(s.book, order, now), Restore(s.jobs, s.book, job, order, now).0;
    RestoreMeaning(s.jobs, s.book, job, order, now);
    ReleaseAllWriters(s.book, order, now);
    var d :| Restores(s.jobs, b1, job, d, book);
    assert forall e | e in s.book.writers :: FenceNamed(s.book, e, s.jobs);
    assert FencedBy(book, job) == {d};
    assert b1.writers[d := job] - {d} == b1.writers;
  }

  /** A step is an advance when its parts are. */
  lemma PartsAdvance(s: Node, s': Node, done: set<JobId>, ended: set<DeviceId>)
    requires LifeInv(s) && Grow(s.jobs, s'.jobs, done) && Keeps(s.jobs, s.book, s'.book, ended)
    requires Since(s.jobsCopy, s'.jobsCopy, s'.jobs)
    requires s'.bookCopy.careful ==>
               && s.bookCopy.careful
               && (Held(s'.bookCopy) == Held(s.bookCopy) || Held(s'.bookCopy) == s'.book
                   || (Keeps(s.jobs, s.book, Held(s'.bookCopy), ended) && Held(s'.bookCopy).grants == s'.book.grants))
    ensures Advance(s, s', done, ended)
  {
    hide Persist, Held;
    WithinSame(s'.jobs);
  }

  /** What a progress report can leave behind, whichever saves fail. */
  ghost predicate AcknowledgeShape(s: Node, s': Node, job: JobId, batch: seq<Event>, order: seq<DeviceId>, now: nat) {
    var (book, restored) := Restore(s.jobs, s.book, job, order, now);
    && (s'.jobs == s.jobs || s'.jobs == Acknowledge(s.jobs, job, batch))
    && Since(s.jobsCopy, s'.jobsCopy, s'.jobs)
    && (s'.book == book || (restored == Fence(true) && s'.book == DropFences(book, job)))
    && (s'.bookCopy.careful ==>
          && s.bookCopy.careful
          && (Held(s'.bookCopy) == Held(s.bookCopy) || Held(s'.bookCopy) == book || Held(s'.bookCopy) == s'.book))
  }

  lemma ShapeAdvances(s: Node, s': Node, job: JobId, batch: seq<Event>, order: seq<DeviceId>, now: nat)
    requires LifeInv(s) && job in s.jobs.agents && AcknowledgeShape(s, s', job, batch, order, now)
    ensures Advance(s, s', {}, {})
  {
    var (book, restored) := Restore(s.jobs, s.book, job, order, now);
    RestoreKeeps(s.jobs, s.book, job, order, now);
    if s'.jobs == s.jobs { GrowSame(s.jobs, s.jobs); } else { AcknowledgeGrows(s.jobs, job, batch); }
    if s'.book != book {
      DropRestored(s, job, order, now);
      ReleaseAllKeeps(s.jobs, s.book, order, now);
      assert book.grants == s'.book.grants;
    }
    PartsAdvance(s, s', {}, {});
  }

  lemma RecordHasShape(s: Node, job: JobId, batch: seq<Event>, added: bool, saveJobs: Save, saveUndo: Save)
    ensures var s' := DoRecord(s, job, batch, added, saveJobs, saveUndo).0;
            && s' == s.(jobs := Acknowledge(s.jobs, job, batch), book := s'.book,
                        jobsCopy := s'.jobsCopy, bookCopy := s'.bookCopy)
            && Since(s.jobsCopy, s'.jobsCopy, s'.jobs)
            && (s'.book == s.book || (added && s'.book == DropFences(s.book, job)))
            && Since(s.bookCopy, s'.bookCopy, s'.book)
  {
    hide Persist, Held, Acknowledge, DropFences;
  }

  lemma AcknowledgeHasShape(s: Node, job: JobId, batch: seq<Event>, order: seq<DeviceId>, now: nat,
                            saveBook: Save, saveJobs: Save, saveUndo: Save)
    ensures AcknowledgeShape(s, DoAcknowledge(s, job, batch, order, now, saveBook, saveJobs, saveUndo).0,
                             job, batch, order, now)
  {
    hide Persist, Held, Restore, Acknowledge, DropFences, DoRecord;
    var (book, restored) := Restore(s.jobs, s.book, job, order, now);
    var s1 := s.(book := book, bookCopy := Persist(s.bookCopy, book, saveBook));
    RecordHasShape(s1, job, batch, restored.Fence? && restored.added, saveJobs, saveUndo);
  }

  lemma AcknowledgeAdvances(s: Node, job: JobId, batch: seq<Event>, order: seq<DeviceId>, now: nat,
                            saveBook: Save, saveJobs: Save, saveUndo: Save)
    requires LifeInv(s) && job in s.jobs.agents
    ensures Advance(s, DoAcknowledge(s, job, batch, order, now, saveBook, saveJobs, saveUndo).0, {}, {})
  {
    AcknowledgeHasShape(s, job, batch, order, now, saveBook, saveJobs, saveUndo);
    ShapeAdvances(s, DoAcknowledge(s, job, batch, order, now, saveBook, saveJobs, saveUndo).0, job, batch, order, now);
  }

  // -- dispatch, including the roll-back of a heartbeat that could not be saved

  /** Orphans the roll-back finds among the fences of `b` were orphans before the heartbeat. */
  ghost predicate OldOrphans(jobs: Jobs, b: Book, jobs1: Jobs, b1: Book) {
    forall d | d in b.writers && d in Orphans(jobs1, b1) :: d in Orphans(jobs, b)
  }

  lemma OrphansOld(jobs: Jobs, b: Book, jobs1: Jobs, b1: Book)
    requires jobs1.acknowledged == jobs.acknowledged && Keeps(jobs, b, b1, {})
    requires forall job | job in jobs.pending && job !in jobs1.pending :: job !in jobs.acknowledged
    ensures OldOrphans(jobs, b, jobs1, b1)
  {
  }

  lemma RollBackKeeps(jobs: Jobs, b: Book, b1: Book, devicePeers: map<DeviceId, PeerId>,
                      jobs1: Jobs, undo: seq<DeviceId>, now: nat)
    requires Keeps(jobs, b, b1, {}) && OldOrphans(jobs, b, jobs1, b1) && IsOrderOf(undo, Orphans(jobs1, b1))
    ensures Keeps(jobs, b, UnfenceAll(Ledger(b1, devicePeers), undo, now).book, Orphans(jobs, b))
  {
    var orphans, c := Orphans(jobs1, b1), UnfenceAll(Ledger(b1, devicePeers), undo, now).book;
    UnfenceAllKeeps(jobs, Ledger(b1, devicePeers), undo, orphans, now);
    KeepsCompose(jobs, b, b1, c, {}, orphans);
    assert forall d | d in b.writers && d !in Orphans(jobs, b) :: SameHold(b, c, d);
  }

  /** The middle of a heartbeat: `jobs1` and `b1` are about to be saved. */
  ghost predicate Midway(s: Node, s1: Node, jobs1: Jobs) {
    && s1 == s.(book := s1.book, bookCopy := s1.bookCopy)
    && Since(s.bookCopy, s1.bookCopy, s1.book)
    && Keeps(s.jobs, s.book, s1.book, {})
    && Grow(s.jobs, jobs1, {})
    && jobs1.acknowledged == s.jobs.acknowledged
    && (forall job | job in s.jobs.pending && job !in jobs1.pending :: job !in s.jobs.acknowledged)
  }

  lemma SavedDispatch(s: Node, s1: Node, jobs1: Jobs, saveJobs: Save)
    requires LifeInv(s) && Midway(s, s1, jobs1)
    ensures Advance(s, s1.(jobs := jobs1, jobsCopy := Persist(s1.jobsCopy, jobs1, saveJobs)), {}, {})
  {
    hide Persist, Held;
    PartsAdvance(s, s1.(jobs := jobs1, jobsCopy := Persist(s1.jobsCopy, jobs1, saveJobs)), {}, {});
  }

  /** What a rolled-back heartbeat leaves behind. */
  ghost predicate RolledBack(s1: Node, s': Node, jobs1: Jobs, job: JobId, undo: seq<DeviceId>, now: nat) {
    var unmarked := jobs1.(dispatched := jobs1.dispatched - {job});
    var l := UnfenceAll(Ledger(s1.book, jobs1.devicePeers), undo, now);
    && s'.jobs == unmarked.(devicePeers := l.devicePeers)
    && s'.book == l.book
    && Since(s1.jobsCopy, s'.jobsCopy, jobs1)
    && Since(s1.bookCopy, s'.bookCopy, s'.book)
  }

  lemma UnmarkGrowsFrom(j: Jobs, jobs1: Jobs, job: JobId, peers: map<DeviceId, PeerId>)
    requires Grow(j, jobs1, {}) && jobs1.acknowledged == j.acknowledged && job !in j.acknowledged
    ensures var j' := jobs1.(dispatched := jobs1.dispatched - {job}, devicePeers := peers);
            Grow(j, j', {}) && JobsWithin(jobs1, j')
  {
    var unmarked := jobs1.(dispatched := jobs1.dispatched - {job});
    UnmarkGrows(jobs1, job);
    GrowSame(unmarked, unmarked.(devicePeers := peers));
    GrowCompose(j, jobs1, unmarked, {}, {});
    GrowCompose(j, unmarked, unmarked.(devicePeers := peers), {}, {});
  }

  lemma RollBackBook(s: Node, s1: Node, jobs1: Jobs, job: JobId, undo: seq<DeviceId>, now: nat)
    requires Midway(s, s1, jobs1)
    requires IsOrderOf(undo, Orphans(jobs1.(dispatched := jobs1.dispatched - {job}), s1.book))
    ensures var b := UnfenceAll(Ledger(s1.book, jobs1.devicePeers), undo, now).book;
            Keeps(s.jobs, s.book, b, Orphans(s.jobs, s.book)) && s1.book.grants <= b.grants
  {
    var unmarked := jobs1.(dispatched := jobs1.dispatched - {job});
    OrphansOld(s.jobs, s.book, unmarked, s1.book);
    RollBackKeeps(s.jobs, s.book, s1.book, jobs1.devicePeers, unmarked, undo, now);
    UnfenceAllKeeps(s.jobs, Ledger(s1.book, jobs1.devicePeers), undo, Orphans(unmarked, s1.book), now);
  }

  lemma WeakenKeeps(jobs: Jobs, a: Book, b: Book, e: set<DeviceId>)
    requires Keeps(jobs, a, b, {})
    ensures Keeps(jobs, a, b, e)
  {
  }

  lemma RollBackAdvances(s: Node, s1: Node, s': Node, jobs1: Jobs, job: JobId, undo: seq<DeviceId>, now: nat)
    requires LifeInv(s) && Midway(s, s1, jobs1) && RolledBack(s1, s', jobs1, job, undo, now)
    requires job !in s.jobs.acknowledged
    requires IsOrderOf(undo, Orphans(jobs1.(dispatched := jobs1.dispatched - {job}), s1.book))
    ensures Advance(s, s', {}, Orphans(s.jobs, s.book))
  {
    hide Persist, Held;
    UnmarkGrowsFrom(s.jobs, jobs1, job, s'.jobs.devicePeers);
    RollBackBook(s, s1, jobs1, job, undo, now);
    WeakenKeeps(s.jobs, s.book, s1.book, Orphans(s.jobs, s.book));
  }

  // -- the heartbeat's hand-out as a whole

  /** The second half of a hand-out reaches one of its two ends. */
  lemma FinishDispatchShape(s: Node, jobs: Jobs, reply: Reply, pick: Option<JobId>, undo: seq<DeviceId>,
                            now: nat, saveJobs: Save, saveUndo: Save)
    ensures var s' := FinishDispatch(s, jobs, reply, pick, undo, now, saveJobs, saveUndo).0;
            if saveJobs.Complete? || pick.None?
            then s' == s.(jobs := jobs, jobsCopy := Persist(s.jobsCopy, jobs, saveJobs))
            else RolledBack(s, s', jobs, pick.value, undo, now)
  {
    hide Persist, Held;
  }

  lemma FinishDispatchAdvances(s: Node, s1: Node, jobs1: Jobs, reply: Reply, pick: Option<JobId>,
                               undo: seq<DeviceId>, now: nat, saveJobs: Save, saveUndo: Save)
    requires LifeInv(s) && Midway(s, s1, jobs1)
    requires pick.Some? ==>
               && pick.value !in s.jobs.acknowledged
               && IsOrderOf(undo, Orphans(jobs1.(dispatched := jobs1.dispatched - {pick.value}), s1.book))
    ensures Advance(s, FinishDispatch(s1, jobs1, reply, pick, undo, now, saveJobs, saveUndo).0, {},
                    if pick.None? || saveJobs.Complete? then {} else Orphans(s.jobs, s.book))
  {
    FinishDispatchShape(s1, jobs1, reply, pick, undo, now, saveJobs, saveUndo);
    if saveJobs.Complete? || pick.None? { SavedDispatch(s, s1, jobs1, saveJobs); }
    else {
      RollBackAdvances(s, s1, FinishDispatch(s1, jobs1, reply, pick, undo, now, saveJobs, saveUndo).0, jobs1,
                       pick.value, undo, now);
    }
  }

  lemma GrantKeeps(s: Node, host: HostId, job: JobId, order: seq<DeviceId>, now: nat)
    requires LifeInv(s) && Candidate(s, host, job)
    ensures Keeps(s.jobs, s.book, HandOut(s, job, order, now, SAVED).node.book, {})
  {
    hide Persist, Held;
    var request, b1 := s.jobs.pending[job], ReleaseAll(s.book, order, now);
    ReleaseAllKeeps(s.jobs, s.book, order, now);
    KeepsSame(s.jobs, s.book, s.book);
    var h := HandOut(s, job, order, now, SAVED);
    if h.reply.Work? && h.reply.grant.Some? {
      AddFenceKeeps(s.jobs, s.book, order, now, request.device.value, job);
    }
  }

  /** The hand-out marks the job dispatched or rejects it; whether the lease file was saved shows only on
      disk and in the reply. */
  lemma HandOutShape(s: Node, job: JobId, order: seq<DeviceId>, now: nat, saveBook: Save)
    requires job in s.jobs.pending
    ensures var h := HandOut(s, job, order, now, saveBook);
            && h.node == s.(book := h.node.book, bookCopy := h.node.bookCopy)
            && Since(s.bookCopy, h.node.bookCopy, h.node.book)
            && (h.jobs == MarkDispatched(s.jobs, job)
                || h.jobs == PushEvent(s.jobs.(pending := s.jobs.pending - {job}), job, Event(1, Rejected)))
            && h.jobs == HandOut(s, job, order, now, SAVED).jobs
            && h.node.book == HandOut(s, job, order, now, SAVED).node.book
  {
    hide Persist, Held;
  }

  /** Either end of a hand-out is a growth of the job maps that takes no acknowledged job away. */
  lemma HandOutGrows(j: Jobs, job: JobId, j': Jobs)
    requires JobsInv(j) && job in j.pending && job !in j.acknowledged
    requires j' == MarkDispatched(j, job) || j' == PushEvent(j.(pending := j.pending - {job}), job, Event(1, Rejected))
    ensures Grow(j, j', {}) && j'.acknowledged == j.acknowledged
    ensures forall k | k in j.pending && k !in j'.pending :: k !in j.acknowledged
  {
    if j' == MarkDispatched(j, job) { MarkGrows(j, job); } else { WithdrawGrows(j, job, Event(1, Rejected)); }
  }

  lemma HandOutMidway(s: Node, job: JobId, h: HandedOut)
    requires LifeInv(s) && job in s.jobs.pending && job !in s.jobs.acknowledged
    requires Keeps(s.jobs, s.book, h.node.book, {})
    requires h.node == s.(book := h.node.book, bookCopy := h.node.bookCopy)
    requires Since(s.bookCopy, h.node.bookCopy, h.node.book)
    requires h.jobs == MarkDispatched(s.jobs, job)
             || h.jobs == PushEvent(s.jobs.(pending := s.jobs.pending - {job}), job, Event(1, Rejected))
    ensures Midway(s, h.node, h.jobs) && Midway(s, h.node, s.jobs)
  {
    hide Persist, Held;
    assert JobsInv(s.jobs);
    hide LifeInv, JobsInv, Keeps, Grow;
    GrowSame(s.jobs, s.jobs);
    HandOutGrows(s.jobs, job, h.jobs);
  }

  lemma PickedAdvances(s: Node, job: JobId, h: HandedOut, undo: seq<DeviceId>, now: nat, saveJobs: Save, saveUndo: Save)
    requires LifeInv(s) && job !in s.jobs.acknowledged && Midway(s, h.node, h.jobs) && Midway(s, h.node, s.jobs)
    requires IsOrderOf(undo, Orphans(h.jobs.(dispatched := h.jobs.dispatched - {job}), h.node.book))
    ensures Advance(s, if h.stopped then h.node
                       else FinishDispatch(h.node, h.jobs, h.reply, Some(job), undo, now, saveJobs, saveUndo).0, {},
                    if saveJobs.Complete? then {} else Orphans(s.jobs, s.book))
  {
    hide Persist, Held;
    if h.stopped {
      PartsAdvance(s, h.node, {}, {});
      WeakenAdvance(s, h.node, Orphans(s.jobs, s.book));
    } else {
      FinishDispatchAdvances(s, h.node, h.jobs, h.reply, Some(job), undo, now, saveJobs, saveUndo);
    }
  }

  lemma DispatchAdvances(s: Node, host: HostId, pick: Option<JobId>, order: seq<DeviceId>, undo: seq<DeviceId>,
                         now: nat, saveBook: Save, saveJobs: Save, saveUndo: Save)
    requires LifeInv(s)
    requires pick.Some? ==> Candidate(s, host, pick.value) && UndoOrder(s, pick.value, order, undo, now)
    ensures Advance(s, DoDispatch(s, pick, order, undo, now, saveBook, saveJobs, saveUndo).0, {},
                    if pick.None? || saveJobs.Complete? then {} else Orphans(s.jobs, s.book))
  {
    if pick.None? {
      KeepsSame(s.jobs, s.book, s.book);
      GrowSame(s.jobs, s.jobs);
      FinishDispatchAdvances(s, s, s.jobs, Done, None, undo, now, saveJobs, saveUndo);
    } else {
      var h := HandOut(s, pick.value, order, now, saveBook);
      GrantKeeps(s, host, pick.value, order, now);
      HandOutShape(s, pick.value, order, now, saveBook);
      HandOutMidway(s, pick.value, h);
      PickedAdvances(s, pick.value, h, undo, now, saveJobs, saveUndo);
    }
  }

  lemma WeakenAdvance(s: Node, s': Node, ended: set<DeviceId>)
    requires Advance(s, s', {}, {})
    ensures Advance(s, s', {}, ended)
  {
  }

  lemma ProgressAdvances(s: Node, peer: PeerId, job: JobId, batch: seq<Event>, terminal: bool, order: seq<DeviceId>,
                         now: nat, saveBook: Save, saveJobs: Save, saveUndo: Save)
    requires LifeInv(s) && (terminal ==> IsOrderOf(order, FencedBy(s.book, job)))
    ensures var reports := job in s.jobs.agents && s.jobs.agents[job] == peer && terminal;
            Advance(s, DoProgress(s, peer, job, batch, terminal, order, now, saveBook, saveJobs, saveUndo).0,
                    if reports then {job} else {}, if reports then FencedBy(s.book, job) else {})
  {
    hide Advance, LifeInv;
    if !(job in s.jobs.agents && s.jobs.agents[job] == peer) { StayAdvances(s, s); }
    else if terminal { FinishAdvances(s, job, batch, order, now, saveBook, saveJobs); }
    else { AcknowledgeAdvances(s, job, batch, order, now, saveBook, saveJobs, saveUndo); }
  }

  lemma AdmitAdvances(s: Node, peer: PeerId, request: AppleRequest, order: seq<DeviceId>, now: nat, save: Save)
    requires LifeInv(s)
    ensures Advance(s, DoAdmit(s, peer, request, order, now, save).0, {}, {})
  {
    hide Advance, LifeInv;
    if request.operation.MutatesDevice() {
      ExpiryAdvances(s, DoAdmit(s, peer, request, order, now, save).0, order, now);
    } else { StayAdvances(s, DoAdmit(s, peer, request, order, now, save).0); }
  }

  /** One step of a running registry. */
  lemma StepAdvances(s: Node, step: Step)
    requires LifeInv(s) && Possible(s, step) && !step.Restart?
    ensures Advance(s, Exec(s, step).0, DoneBy(s, step), Ended(s, step))
  {
    hide Advance, LifeInv;
    match step
    case Inventory(peer, isAgent, host, connected, order, now, save) =>
      InventoryAdvances(s, peer, isAgent, host, connected, order, now, save);
    case Expire(order, now, _) => ExpiryAdvances(s, Exec(s, step).0, order, now);
    case Announce(host, snapshot) => StayAdvances(s, Exec(s, step).0);
    case Dispatch(host, pick, order, undo, now, saveBook, saveJobs, saveUndo) =>
      DispatchAdvances(s, host, pick, order, undo, now, saveBook, saveJobs, saveUndo);
    case Admit(peer, request, order, now, save) => AdmitAdvances(s, peer, request, order, now, save);
    case Create(peer, request, target, _, _, save) => CreateAdvances(s, peer, request, target, save);
    case Progress(peer, job, batch, terminal, order, now, saveBook, saveJobs, saveUndo) =>
      ProgressAdvances(s, peer, job, batch, terminal, order, now, saveBook, saveJobs, saveUndo);
    case Cancel(peer, job, save) => CancelAdvances(s, peer, job, save);
    case LeaseOp(peer, isAgent, request, order, visit, now, saveBook, saveJobs) =>
      LeaseAdvances(s, peer, isAgent, request, order, visit, now, saveBook, saveJobs);
  }

  // ---------------------------------------------------------------- the invariant is kept

  lemma FencesStayNamed(jobs: Jobs, b: Book, jobs': Jobs, b': Book, ended: set<DeviceId>)
    requires FencesNamed(b, jobs) && Keeps(jobs, b, b', ended) && JobsWithin(jobs, jobs')
    ensures FencesNamed(b', jobs')
  {
    forall d | d in b'.writers ensures FenceNamed(b', d, jobs') {
      if SameHold(b, b', d) { assert FenceNamed(b, d, jobs); }
    }
  }

  /** Memory keeps to its invariant whatever becomes of the saves. */
  lemma AdvanceLives(s: Node, s': Node, done: set<JobId>, ended: set<DeviceId>)
    requires LifeInv(s) && Advance(s, s', done, ended)
    ensures LifeInv(s')
  {
    FencesStayNamed(s.jobs, s.book, s'.jobs, s'.book, ended);
  }

  /** So do the copies, given that new jobs and submissions name granted leases. */
  lemma AdvanceInv(s: Node, s': Node, done: set<JobId>, ended: set<DeviceId>)
    requires NodeInv(s) && Advance(s, s', done, ended) && Careful(s')
    requires AllNamed(s')
    ensures NodeInv(s')
  {
    hide Persist, Held;
    AdvanceLives(s, s', done, ended);
    if Held(s'.bookCopy) == Held(s.bookCopy) {
      KeepsSame(s.jobs, Held(s.bookCopy), Held(s.bookCopy));
      FencesStayNamed(s.jobs, Held(s.bookCopy), s'.jobs, Held(s'.bookCopy), {});
    }
    else { FencesStayNamed(s.jobs, s.book, s'.jobs, Held(s'.bookCopy), ended); }
    if Held(s'.jobsCopy) == Held(s.jobsCopy) { WithinCompose(Held(s.jobsCopy), s.jobs, s'.jobs); }
  }

  lemma GrantsOnlyGrow(jobs: Jobs, admitted: set<Submission>, old_: seq<Grant>, new_: seq<Grant>)
    requires old_ <= new_ && LeasesNamed(jobs, old_) && AdmittedNamed(admitted, old_)
    ensures LeasesNamed(jobs, new_) && AdmittedNamed(admitted, new_)
  {
  }

  /** A step that is not a submission leaves who submitted what, and for which host, as it was. */
  ghost predicate SameSubmissions(s: Node, s': Node) {
    && s'.jobs.operations == s.jobs.operations && s'.jobs.clients == s.jobs.clients
    && s'.jobs.hosts == s.jobs.hosts
    && s'.admitted == s.admitted
  }

  lemma DispatchSame(s: Node, pick: Option<JobId>, order: seq<DeviceId>, undo: seq<DeviceId>, now: nat,
                     saveBook: Save, saveJobs: Save, saveUndo: Save)
    requires pick.Some? ==> pick.value in s.jobs.pending
    ensures SameSubmissions(s, DoDispatch(s, pick, order, undo, now, saveBook, saveJobs, saveUndo).0)
  {
    hide Persist, Held;
    if pick.Some? {
      HandOutShape(s, pick.value, order, now, saveBook);
      var h := HandOut(s, pick.value, order, now, saveBook);
      FinishDispatchShape(h.node, h.jobs, h.reply, pick, undo, now, saveJobs, saveUndo);
    }
  }

  lemma AcknowledgeSame(s: Node, job: JobId, batch: seq<Event>, order: seq<DeviceId>, now: nat,
                        saveBook: Save, saveJobs: Save, saveUndo: Save)
    ensures SameSubmissions(s, DoAcknowledge(s, job, batch, order, now, saveBook, saveJobs, saveUndo).0)
  {
    hide Persist, Held, Restore, DoRecord;
    var (book, restored) := Restore(s.jobs, s.book, job, order, now);
    var s1 := s.(book := book, bookCopy := Persist(s.bookCopy, book, saveBook));
    RecordHasShape(s1, job, batch, restored.Fence? && restored.added, saveJobs, saveUndo);
  }

  lemma LeaseSame(s: Node, peer: PeerId, isAgent: bool, request: LeaseRequest, order: seq<DeviceId>,
                  visit: seq<DeviceId>, now: nat, saveBook: Save, saveJobs: Save)
    ensures SameSubmissions(s, DoLease(s, peer, isAgent, request, order, visit, now, saveBook, saveJobs).0)
  {
    hide Persist, Held;
    hide Serve, ReleaseAll;
  }

  lemma CancelJobSame(j: Jobs, job: JobId)
    ensures CancelJob(j, job).operations == j.operations && CancelJob(j, job).clients == j.clients
    ensures CancelJob(j, job).hosts == j.hosts
  {
  }

  lemma CancelSame(s: Node, peer: PeerId, job: JobId, save: Save)
    ensures SameSubmissions(s, DoCancel(s, peer, job, save).0)
  {
    hide CancelJob;
    CancelJobSame(s.jobs, job);
  }

  lemma InventorySame(s: Node, peer: PeerId, isAgent: bool, host: HostId, connected: set<DeviceId>,
                      order: seq<DeviceId>, now: nat, save: Save)
    ensures SameSubmissions(s, DoInventory(s, peer, isAgent, host, connected, order, now, save).0)
  {
    hide Persist, Held;
  }

  lemma FinishSame(s: Node, job: JobId, batch: seq<Event>, order: seq<DeviceId>, now: nat,
                   saveBook: Save, saveJobs: Save)
    ensures SameSubmissions(s, DoFinish(s, job, batch, order, now, saveBook, saveJobs).0)
  {
    hide Persist, Held, UnfenceAll;
  }

  lemma ProgressSame(s: Node, peer: PeerId, job: JobId, batch: seq<Event>, terminal: bool, order: seq<DeviceId>,
                     now: nat, saveBook: Save, saveJobs: Save, saveUndo: Save)
    ensures SameSubmissions(s, DoProgress(s, peer, job, batch, terminal, order, now, saveBook, saveJobs, saveUndo).0)
  {
    hide Persist, Held, DoFinish, DoAcknowledge;
    if terminal { FinishSame(s, job, batch, order, now, saveBook, saveJobs); }
    else { AcknowledgeSame(s, job, batch, order, now, saveBook, saveJobs, saveUndo); }
  }

  lemma JobsSame(s: Node, s': Node)
    requires s'.jobs == s.jobs && s'.admitted == s.admitted
    ensures SameSubmissions(s, s')
  {
  }

  lemma SubmissionsSame(s: Node, step: Step)
    requires Possible(s, step) && !step.Restart? && !step.Create? && !step.Admit?
    ensures SameSubmissions(s, Exec(s, step).0)
  {
    hide SameSubmissions;
    match step
    case Dispatch(host, pick, order, undo, now, saveBook, saveJobs, saveUndo) =>
      DispatchSame(s, pick, order, undo, now, saveBook, saveJobs, saveUndo);
    case Progress(peer, job, batch, terminal, order, now, saveBook, saveJobs, saveUndo) =>
      ProgressSame(s, peer, job, batch, terminal, order, now, saveBook, saveJobs, saveUndo);
    case LeaseOp(peer, isAgent, request, order, visit, now, saveBook, saveJobs) =>
      LeaseSame(s, peer, isAgent, request, order, visit, now, saveBook, saveJobs);
    case Cancel(peer, job, save) => CancelSame(s, peer, job, save);
    case Inventory(peer, isAgent, host, connected, order, now, save) =>
      InventorySame(s, peer, isAgent, host, connected, order, now, save);
    case Expire(_, _, _) => JobsSame(s, Exec(s, step).0);
    case Announce(_, _) => JobsSame(s, Exec(s, step).0);
  }

  /** New jobs are made from admitted submissions. */
  lemma CreateNamed(s: Node, peer: PeerId, request: AppleRequest, target: Option<HostId>, save: Save)
    requires NodeInv(s) && Submission(peer, request) in s.admitted
    ensures AllNamed(DoCreate(s, peer, request, target, save).0)
  {
    hide Persist, Held;
    assert NamesGrant(request, peer, Held(s.bookCopy).grants);
  }

  /** A submission is admitted on a lease that is active, held by the submitter and on disk. */
  lemma AdmitNamed(s: Node, peer: PeerId, request: AppleRequest, order: seq<DeviceId>, now: nat, save: Save)
    requires NodeInv(s) && Careful(DoAdmit(s, peer, request, order, now, save).0)
    ensures AllNamed(DoAdmit(s, peer, request, order, now, save).0)
  {
    hide Persist, Held;
    var s' := DoAdmit(s, peer, request, order, now, save).0;
    ReleaseAllKeeps(s.jobs, s.book, order, now);
    GrantsOnlyGrow(s.jobs, s.admitted, Held(s.bookCopy).grants, Held(s'.bookCopy).grants);
  }

  lemma SavedGrantsGrow(s: Node, s': Node, done: set<JobId>, ended: set<DeviceId>)
    requires NodeInv(s) && Advance(s, s', done, ended) && Careful(s')
    ensures Held(s.bookCopy).grants <= Held(s'.bookCopy).grants
  {
  }

  lemma StepNamed(s: Node, step: Step)
    requires NodeInv(s) && Possible(s, step) && !step.Restart? && Careful(Exec(s, step).0)
    ensures AllNamed(Exec(s, step).0)
  {
    hide Persist, Held;
    assert LeasesNamed(s.jobs, Held(s.bookCopy).grants) && AdmittedNamed(s.admitted, Held(s.bookCopy).grants);
    hide NodeInv, Advance, SameSubmissions, AllNamed, LeasesNamed, AdmittedNamed;
    var s' := Exec(s, step).0;
    if step.Create? { CreateNamed(s, step.peer, step.request, step.target, step.save); }
    else if step.Admit? { AdmitNamed(s, step.peer, step.request, step.order, step.now, step.save); }
    else {
      StepAdvances(s, step);
      SavedGrantsGrow(s, s', DoneBy(s, step), Ended(s, step));
      SubmissionsSame(s, step);
      GrantsOnlyGrow(s.jobs, s.admitted, Held(s.bookCopy).grants, Held(s'.bookCopy).grants);
      NamedSame(s, s');
    }
  }

  lemma NamedSame(s: Node, s': Node)
    requires SameSubmissions(s, s') && LeasesNamed(s.jobs, Held(s'.bookCopy).grants)
    requires AdmittedNamed(s.admitted, Held(s'.bookCopy).grants)
    ensures AllNamed(s')
  {
  }
}
