/** What the sections of a heartbeat do and answer, told of the maps, leases, fences and files they find and leave. */
module HeartbeatAnswers {
  import opened Common
  import opened AppleProtocol
  import opened Leases
  import opened LeaseAnswers
  import opened Persistence
  import opened RegistryState
  import opened RegistryInvariant

  // ---------------------------------------------------------------- leases that have run out

  /** Every lease that has run out is given up: fenced ones when their jobs end, the others at once, each to
      the earliest of those who wait for it. All others stay as they are. */
  ghost predicate Lapsed(b: Book, r: Book, now: nat) {
    ReleasedAll(b, r, (set d | d in b.active && b.active[d].expiresAt <= now), now)
  }

  lemma ExpiryLapses(b: Book, order: seq<DeviceId>, now: nat)
    requires ExpiryOrder(b, order, now)
    ensures Lapsed(b, ReleaseAll(b, order, now), now)
  {
    var s := set d | d in b.active && b.active[d].expiresAt <= now;
    assert s == Expired(b, now);
    ReleaseAllMeaning(b, order, s, now);
  }

  // ---------------------------------------------------------------- fences that are dropped

  /** The fences on `s` go, and what was deferred on them is carried out: devices to be released go to their
      earliest waiters, detached ones are forgotten. */
  ghost predicate FencesDropped(l: Ledger, r: Ledger, s: set<DeviceId>, now: nat) {
    && r.devicePeers == l.devicePeers - (s * l.book.pendingDetach)
    && ReleasedAll(BareAll(l.book, s), r.book, s * l.book.pendingRelease, now)
  }

  /** `b` without fences on `s` and without what was deferred on them. */
  function BareAll(b: Book, s: set<DeviceId>): Book {
    b.(writers := b.writers - s, pendingRelease := b.pendingRelease - s, pendingDetach := b.pendingDetach - s)
  }

  /** The devices of `order` that are to be released. */
  function Deferred(order: seq<DeviceId>, pending: set<DeviceId>): (r: seq<DeviceId>)
    ensures forall d :: d in r <==> d in order && d in pending
  {
    if order == [] then []
    else if order[0] in pending then [order[0]] + Deferred(order[1..], pending)
    else Deferred(order[1..], pending)
  }

  lemma {:induction false} DeferredOrder(order: seq<DeviceId>, s: set<DeviceId>, pending: set<DeviceId>)
    requires IsOrderOf(order, s)
    ensures IsOrderOf(Deferred(order, pending), s * pending)
  {
    if order != [] {
      OrderTail(order, s);
      DeferredOrder(order[1..], s - {order[0]}, pending);
      var rest := Deferred(order[1..], pending);
      if order[0] in pending {
        assert (s - {order[0]}) * pending == s * pending - {order[0]};
      } else {
        assert (s - {order[0]}) * pending == s * pending;
      }
    }
  }

  lemma {:induction false} DeferredSame(order: seq<DeviceId>, pending: set<DeviceId>, d: DeviceId)
    requires d !in order
    ensures Deferred(order, pending - {d}) == Deferred(order, pending)
  {
    if order != [] { DeferredSame(order[1..], pending, d); }
  }

  lemma BareTwice(b: Book, d: DeviceId, s: set<DeviceId>)
    ensures BareAll(Bare(b, d), s) == BareAll(b, s + {d})
  {
    assert b.writers - {d} - s == b.writers - (s + {d});
    assert b.pendingRelease - {d} - s == b.pendingRelease - (s + {d});
    assert b.pendingDetach - {d} - s == b.pendingDetach - (s + {d});
  }

  /** Releasing a device reads and changes no fence. */
  lemma BareReleased(b: Book, d: DeviceId, s: set<DeviceId>, now: nat)
    ensures BareAll(ReleaseNow(b, d, now), s) == ReleaseNow(BareAll(b, s), d, now)
  {
  }

  /** Dropping a fence commutes with baring the devices still to come. */
  lemma BareFirst(l: Ledger, d: DeviceId, s: set<DeviceId>, now: nat)
    requires d !in s
    ensures var r, bare := Unfence(l, d, now), BareAll(l.book, s + {d});
            && BareAll(r.book, s) == (if d in l.book.pendingRelease then Release(bare, d, now) else bare)
            && r.book.pendingRelease == l.book.pendingRelease - {d}
            && r.book.pendingDetach == l.book.pendingDetach - {d}
            && r.devicePeers == if d in l.book.pendingDetach then l.devicePeers - {d} else l.devicePeers
  {
    UnfenceMeaning(l, d, now);
    BareTwice(l.book, d, s);
    BareReleased(Bare(l.book, d), d, s, now);
    assert Release(BareAll(l.book, s + {d}), d, now) == ReleaseNow(BareAll(l.book, s + {d}), d, now);
    UnfenceLeaves(l, d, now);
    hide Unfence, ReleaseNow, Release, BareAll;
  }

  lemma UnfenceLeaves(l: Ledger, d: DeviceId, now: nat)
    ensures var r := Unfence(l, d, now);
            && r.book.pendingRelease == l.book.pendingRelease - {d}
            && r.book.pendingDetach == l.book.pendingDetach - {d}
            && r.devicePeers == if d in l.book.pendingDetach then l.devicePeers - {d} else l.devicePeers
  {
    UnfenceMeaning(l, d, now);
  }

  lemma BareNothing(b: Book)
    ensures BareAll(b, {}) == b
  {
  }

  /** One device fewer to forget. */
  lemma ForgetFirst(peers: map<DeviceId, PeerId>, d: DeviceId, t: set<DeviceId>, detached: set<DeviceId>)
    ensures (if d in detached then peers - {d} else peers) - (t * (detached - {d})) == peers - ((t + {d}) * detached)
  {
  }

  /** Dropping fences one by one is releasing what was to be released from a book without those fences. */
  lemma {:induction false} DropsAsReleases(l: Ledger, order: seq<DeviceId>, s: set<DeviceId>, now: nat)
    requires IsOrderOf(order, s)
    ensures var r := UnfenceAll(l, order, now);
            && r.book == ReleaseAll(BareAll(l.book, s), Deferred(order, l.book.pendingRelease), now)
            && r.devicePeers == l.devicePeers - (s * l.book.pendingDetach)
    decreases |order|
  {
    hide Release, Unfence, BareAll;
    if order == [] {
      assert forall x | x in s :: x in order;
      assert s == {} && s * l.book.pendingDetach == {};
      BareNothing(l.book);
    } else {
      var d, t := order[0], s - {order[0]};
      OrderTail(order, s);
      BareFirst(l, d, t, now);
      DropsAsReleases(Unfence(l, d, now), order[1..], t, now);
      assert t + {d} == s;
      DeferredSame(order[1..], l.book.pendingRelease, d);
      ForgetFirst(l.devicePeers, d, t, l.book.pendingDetach);
    }
  }

  lemma DropsFences(l: Ledger, order: seq<DeviceId>, s: set<DeviceId>, now: nat)
    requires IsOrderOf(order, s)
    ensures FencesDropped(l, UnfenceAll(l, order, now), s, now)
  {
    hide BareAll, UnfenceAll, ReleasedAll;
    DropsAsReleases(l, order, s, now);
    DeferredOrder(order, s, l.book.pendingRelease);
    ReleaseAllMeaning(BareAll(l.book, s), Deferred(order, l.book.pendingRelease), s * l.book.pendingRelease, now);
  }

  // ---------------------------------------------------------------- inventory

  /** Devices of `d` and of its order, detached one by one, are released together. */
  lemma {:induction false} DetachesAsReleases(l: Ledger, order: seq<DeviceId>, s: set<DeviceId>, now: nat)
    requires IsOrderOf(order, s)
    ensures var r, fenced := DetachAll(l, order, now), s * l.book.writers.Keys;
            && r.book == ReleaseAll(l.book.(pendingDetach := l.book.pendingDetach + fenced), order, now)
            && r.devicePeers == l.devicePeers - (s - fenced)
    decreases |order|
  {
    if order == [] {
      assert forall x | x in s :: x in order;
      assert s == {} && s * l.book.writers.Keys == {};
      assert l.book.pendingDetach + {} == l.book.pendingDetach;
    } else {
      hide Release, DetachOne, DetachInventory;
      var d, t := order[0], s - {order[0]};
      OrderTail(order, s);
      DetachFirst(l, d, t, now);
      DetachesAsReleases(DetachOne(l, d, now), order[1..], t, now);
      assert t + {d} == s;
      ForgetUnfenced(l.devicePeers, d, t, l.book.writers.Keys);
    }
  }

  lemma ForgetUnfenced(peers: map<DeviceId, PeerId>, d: DeviceId, t: set<DeviceId>, fenced: set<DeviceId>)
    ensures (if d in fenced then peers else peers - {d}) - (t - t * fenced) == peers - (t + {d} - (t + {d}) * fenced)
  {
  }

  /** A detach before others can as well note all of them first. */
  lemma DetachFirst(l: Ledger, d: DeviceId, t: set<DeviceId>, now: nat)
    ensures var r, fenced := DetachOne(l, d, now), (t + {d}) * l.book.writers.Keys;
            && r.book.writers == l.book.writers
            && r.book.(pendingDetach := r.book.pendingDetach + t * l.book.writers.Keys)
               == Release(l.book.(pendingDetach := l.book.pendingDetach + fenced), d, now)
            && r.devicePeers == if d in l.book.writers then l.devicePeers else l.devicePeers - {d}
  {
    var b, rest := l.book, t * l.book.writers.Keys;
    var noted := if d in b.writers then b.pendingDetach + {d} else b.pendingDetach;
    assert noted + rest == b.pendingDetach + (t + {d}) * b.writers.Keys;
    DetachNoted(b.(pendingDetach := noted), d, noted + rest, now);
  }

  lemma DetachNoted(b: Book, d: DeviceId, pending: set<DeviceId>, now: nat)
    ensures Release(b.(pendingDetach := pending), d, now) == Release(b, d, now).(pendingDetach := pending)
    ensures Release(b, d, now).pendingDetach == b.pendingDetach && Release(b, d, now).writers == b.writers
  {
  }

  /** The devices that `peer` no longer reports. */
  function Missed(peers: map<DeviceId, PeerId>, peer: PeerId, connected: set<DeviceId>): set<DeviceId> {
    set d | d in peers && peers[d] == peer && d !in connected
  }

  /** Reported devices are the peer's, those it misses are forgotten unless fenced, all others stay whose they are. */
  ghost predicate PeersTell(peers: map<DeviceId, PeerId>, peers': map<DeviceId, PeerId>, peer: PeerId,
                            connected: set<DeviceId>, fenced: set<DeviceId>)
  {
    && (forall d :: d in peers' <==>
          d in connected || (d in peers && (d in Missed(peers, peer, connected) ==> d in fenced)))
    && (forall d | d in peers' :: peers'[d] == if d in connected then peer else peers[d])
  }

  lemma PeersAnswer(peers: map<DeviceId, PeerId>, peer: PeerId, connected: set<DeviceId>, fenced: set<DeviceId>)
    ensures var gone := Missed(peers, peer, connected);
            PeersTell(peers, peers + (map d | d in connected :: peer) - (gone - gone * fenced), peer, connected, fenced)
  {
  }

  /** Hosts and devices belong to the agent that reported them first. What the agent no longer reports is
      released; unless a job writes to it, it is also forgotten. */
  ghost predicate InventoryTells(s: Node, s': Node, peer: PeerId, isAgent: bool, host: HostId,
                                 connected: set<DeviceId>, now: nat, save: Save, reply: Reply)
  {
    var peers, peers' := s.jobs.devicePeers, s'.jobs.devicePeers;
    var gone, fenced := Missed(peers, peer, connected), s.book.writers.Keys;
    if !isAgent then s' == s && reply == Refused("agent_access_denied")
    else if (host in s.jobs.hostPeers && s.jobs.hostPeers[host] != peer)
            || (exists d | d in connected :: d in peers && peers[d] != peer)
    then s' == s && reply == Refused("agent_identity_mismatch")
    else
      && PeersTell(peers, peers', peer, connected, fenced)
      && ReleasedAll(s.book.(pendingDetach := s.book.pendingDetach - connected + gone * fenced), s'.book, gone, now)
      && s' == s.(jobs := s.jobs.(hostPeers := s.jobs.hostPeers[host := peer], devicePeers := peers'),
                  book := s'.book, bookCopy := Persist(s.bookCopy, s'.book, save))
      && reply == if save.Complete? then Done else Refused("persistence_failed")
  }

  lemma DetachesTogether(l: Ledger, order: seq<DeviceId>, gone: set<DeviceId>, now: nat)
    requires IsOrderOf(order, gone)
    ensures var r, fenced := DetachAll(l, order, now), gone * l.book.writers.Keys;
            && ReleasedAll(l.book.(pendingDetach := l.book.pendingDetach + fenced), r.book, gone, now)
            && r.devicePeers == l.devicePeers - (gone - fenced)
  {
    hide ReleasedAll, DetachAll, ReleaseAll;
    DetachesAsReleases(l, order, gone, now);
    ReleaseAllMeaning(l.book.(pendingDetach := l.book.pendingDetach + gone * l.book.writers.Keys), order, gone, now);
  }

  lemma InventoryDone(s: Node, peer: PeerId, isAgent: bool, host: HostId, connected: set<DeviceId>,
                      order: seq<DeviceId>, now: nat, save: Save)
    requires IsOrderOf(order, Detached(s.jobs, peer, connected))
    ensures var (s', reply) := DoInventory(s, peer, isAgent, host, connected, order, now, save);
            InventoryTells(s, s', peer, isAgent, host, connected, now, save, reply)
  {
    SameMissed(s.jobs, peer, connected);
    hide Persist, Held, ReleasedAll, DetachAll, IsOrderOf, PeersTell, Missed, Detached;
    if isAgent && !InventoryClash(s.jobs, peer, host, connected) {
      var b := s.book.(pendingDetach := s.book.pendingDetach - connected);
      DetachesTogether(Ledger(b, s.jobs.devicePeers + (map d | d in connected :: peer)), order,
                       Missed(s.jobs.devicePeers, peer, connected), now);
      PeersAnswer(s.jobs.devicePeers, peer, connected, s.book.writers.Keys);
    }
  }

  lemma InventoryAnswers(s: Node, step: Step)
    requires Possible(s, step) && step.Inventory?
    ensures var (s', reply) := Exec(s, step);
            InventoryTells(s, s', step.peer, step.isAgent, step.host, step.connected, step.now, step.save, reply)
  {
    InventoryDone(s, step.peer, step.isAgent, step.host, step.connected, step.order, step.now, step.save);
    hide InventoryTells, DoInventory, Detached, IsOrderOf;
  }

  lemma SameMissed(jobs: Jobs, peer: PeerId, connected: set<DeviceId>)
    ensures Detached(jobs, peer, connected) == Missed(jobs.devicePeers, peer, connected)
  {
  }

  // ---------------------------------------------------------------- dispatch

  /** `job` waits for `host`, the one it was made for: it is pending, nobody has acknowledged it, and no other
      job writes to the device it changes. */
  ghost predicate WaitsFor(s: Node, host: HostId, job: JobId) {
    && job in s.jobs.pending && job !in s.jobs.acknowledged
    && job in s.jobs.hosts && s.jobs.hosts[job] == host
    && var request := s.jobs.pending[job];
       request.operation.MutatesDevice() ==>
         forall d | request.device == Some(d) && d in s.book.writers :: s.book.writers[d] == job
  }

  lemma CandidatesWait(s: Node, host: HostId)
    ensures forall job :: Candidate(s, host, job) <==> WaitsFor(s, host, job)
  {
  }

  /** The lease that the request names is active on its device, and the job's client holds it. */
  ghost predicate LeaseMatches(b: Book, jobs: Jobs, job: JobId, request: AppleRequest) {
    && request.device.Some? && request.device.value in b.active && job in jobs.clients
    && (var lease := b.active[request.device.value];
        request.lease == Some(lease.id) && jobs.clients[job] == lease.client)
  }

  /** The devices written by jobs that are not both acknowledged and pending. */
  ghost function Unconfirmed(jobs: Jobs, b: Book): set<DeviceId> {
    set d | d in b.writers && !(b.writers[d] in jobs.acknowledged && b.writers[d] in jobs.pending)
  }

  /** The job maps `jobs` are saved and `answer` is given; or else the job counts as not handed out, and every
      fence of a job that no agent has acknowledged is dropped. */
  ghost predicate SettleTells(s: Node, s': Node, jobs: Jobs, job: JobId, answer: Reply, now: nat,
                              saveJobs: Save, saveUndo: Save, reply: Reply)
  {
    var copy := Persist(s.jobsCopy, jobs, saveJobs);
    if saveJobs.Complete? then s' == s.(jobs := jobs, jobsCopy := copy) && reply == answer
    else
      && reply == Refused("persistence_failed")
      && FencesDropped(Ledger(s.book, jobs.devicePeers), Ledger(s'.book, s'.jobs.devicePeers),
                       Unconfirmed(jobs, s.book), now)
      && s' == s.(jobs := jobs.(dispatched := jobs.dispatched - {job}, devicePeers := s'.jobs.devicePeers),
                  jobsCopy := copy, book := s'.book, bookCopy := Persist(s.bookCopy, s'.book, saveUndo))
  }

  /** In the book `b` the lease is in force: the job gets a grant for its own device, lease and client, and the
      device is fenced. It is not: the job is rejected and leaves the pending map. */
  ghost predicate GrantTells(s: Node, s': Node, b: Book, job: JobId, request: AppleRequest, now: nat,
                             saveBook: Save, saveJobs: Save, saveUndo: Save, reply: Reply)
    requires request.device.Some? && request.lease.Some?
  {
    if LeaseMatches(b, s.jobs, job, request) then
      var fenced := b.(writers := b.writers[request.device.value := job]);
      var s1 := s.(book := fenced, bookCopy := Persist(s.bookCopy, fenced, saveBook));
      var grant := LeaseGrant(request.lease.value, request.device.value, s.jobs.clients[job], job);
      if !saveBook.Complete? then s' == s1 && reply == Refused("persistence_failed")
      else
        SettleTells(s1, s', s.jobs.(dispatched := s.jobs.dispatched + {job}), job, Work(job, request, Some(grant)), now,
                    saveJobs, saveUndo, reply)
    else
      var events := if job in s.jobs.events then s.jobs.events[job] else [];
      var rejected := s.jobs.(pending := s.jobs.pending - {job},
                              events := s.jobs.events[job := events + [Event(1, Rejected)]]);
      SettleTells(s.(book := b), s', rejected, job, Done, now, saveJobs, saveUndo, reply)
  }

  /** A request that needs no lease is handed out as it is; one that does, once leases that have run out are gone. */
  ghost predicate HandOutTells(s: Node, s': Node, job: JobId, request: AppleRequest, now: nat,
                               saveBook: Save, saveJobs: Save, saveUndo: Save, reply: Reply)
  {
    if request.operation.MutatesDevice() && request.device.Some? && request.lease.Some? then
      exists b: Book ::
        Lapsed(s.book, b, now) && GrantTells(s, s', b, job, request, now, saveBook, saveJobs, saveUndo, reply)
    else
      SettleTells(s, s', s.jobs.(dispatched := s.jobs.dispatched + {job}), job, Work(job, request, None), now,
                  saveJobs, saveUndo, reply)
  }

  /** A heartbeat of `host` is handed one of the jobs that wait for it, if there are any. */
  ghost predicate DispatchTells(s: Node, s': Node, host: HostId, now: nat,
                                saveBook: Save, saveJobs: Save, saveUndo: Save, reply: Reply)
  {
    if forall job :: !WaitsFor(s, host, job) then
      && s' == s.(jobsCopy := Persist(s.jobsCopy, s.jobs, saveJobs))
      && reply == if saveJobs.Complete? then Done else Refused("persistence_failed")
    else
      exists job :: WaitsFor(s, host, job)
                    && HandOutTells(s, s', job, s.jobs.pending[job], now, saveBook, saveJobs, saveUndo, reply)
  }

  lemma SettleAnswers(s: Node, jobs: Jobs, job: JobId, answer: Reply, undo: seq<DeviceId>, now: nat,
                      saveJobs: Save, saveUndo: Save)
    requires IsOrderOf(undo, Orphans(jobs.(dispatched := jobs.dispatched - {job}), s.book))
    ensures var (s', reply) := FinishDispatch(s, jobs, answer, Some(job), undo, now, saveJobs, saveUndo);
            SettleTells(s, s', jobs, job, answer, now, saveJobs, saveUndo, reply)
  {
    assert Orphans(jobs.(dispatched := jobs.dispatched - {job}), s.book) == Unconfirmed(jobs, s.book);
    DropsFences(Ledger(s.book, jobs.devicePeers), undo, Unconfirmed(jobs, s.book), now);
    hide Persist, Held, FencesDropped, UnfenceAll, Orphans, Unconfirmed;
  }

  /** A picked job whose hand-out is to be settled. */
  lemma SettlesPicked(s: Node, s1: Node, job: JobId, jobs: Jobs, answer: Reply, order: seq<DeviceId>,
                      undo: seq<DeviceId>, now: nat, saveBook: Save, saveJobs: Save, saveUndo: Save)
    requires job in s.jobs.pending && UndoOrder(s, job, order, undo, now)
    requires HandOut(s, job, order, now, saveBook) == HandedOut(s1, jobs, answer, false)
    ensures var (s', reply) := DoDispatch(s, Some(job), order, undo, now, saveBook, saveJobs, saveUndo);
            SettleTells(s1, s', jobs, job, answer, now, saveJobs, saveUndo, reply)
  {
    HandOutShape(s, job, order, now, saveBook);
    hide Persist, Held, HandOut, FinishDispatch, SettleTells, Orphans;
    SettleAnswers(s1, jobs, job, answer, undo, now, saveJobs, saveUndo);
  }

  lemma HandOutGrants(s: Node, job: JobId, order: seq<DeviceId>, now: nat, saveBook: Save)
    requires job in s.jobs.pending && s.jobs.pending[job].operation.MutatesDevice()
    requires LeaseMatches(ReleaseAll(s.book, order, now), s.jobs, job, s.jobs.pending[job])
    ensures var request, b := s.jobs.pending[job], ReleaseAll(s.book, order, now);
            var fenced := b.(writers := b.writers[request.device.value := job]);
            var s1 := s.(book := fenced, bookCopy := Persist(s.bookCopy, fenced, saveBook));
            var grant := LeaseGrant(request.lease.value, request.device.value, s.jobs.clients[job], job);
            HandOut(s, job, order, now, saveBook)
            == HandedOut(s1, s.jobs.(dispatched := s.jobs.dispatched + {job}), Work(job, request, Some(grant)),
                         !saveBook.Complete?)
  {
    hide Persist, Held, ReleaseAll;
  }

  lemma HandOutRejects(s: Node, job: JobId, order: seq<DeviceId>, now: nat, saveBook: Save)
    requires job in s.jobs.pending && s.jobs.pending[job].operation.MutatesDevice()
    requires s.jobs.pending[job].device.Some? && s.jobs.pending[job].lease.Some?
    requires !LeaseMatches(ReleaseAll(s.book, order, now), s.jobs, job, s.jobs.pending[job])
    ensures var events := if job in s.jobs.events then s.jobs.events[job] else [];
            var rejected := s.jobs.(pending := s.jobs.pending - {job},
                                    events := s.jobs.events[job := events + [Event(1, Rejected)]]);
            HandOut(s, job, order, now, saveBook)
            == HandedOut(s.(book := ReleaseAll(s.book, order, now)), rejected, Done, false)
  {
    hide Persist, Held, ReleaseAll;
  }

  lemma GrantAnswers(s: Node, job: JobId, order: seq<DeviceId>, undo: seq<DeviceId>, now: nat,
                     saveBook: Save, saveJobs: Save, saveUndo: Save)
    requires job in s.jobs.pending && UndoOrder(s, job, order, undo, now)
    requires s.jobs.pending[job].operation.MutatesDevice()
    requires s.jobs.pending[job].device.Some? && s.jobs.pending[job].lease.Some?
    ensures var (s', reply) := DoDispatch(s, Some(job), order, undo, now, saveBook, saveJobs, saveUndo);
            GrantTells(s, s', ReleaseAll(s.book, order, now), job, s.jobs.pending[job], now,
                       saveBook, saveJobs, saveUndo, reply)
  {
    hide *;
    var h, request, b := HandOut(s, job, order, now, saveBook), s.jobs.pending[job], ReleaseAll(s.book, order, now);
    var (s', reply) := DoDispatch(s, Some(job), order, undo, now, saveBook, saveJobs, saveUndo);
    if !h.stopped {
      SettlesPicked(s, h.node, job, h.jobs, h.reply, order, undo, now, saveBook, saveJobs, saveUndo);
    } else {
      StopsThere(s, job, order, undo, now, saveBook, saveJobs, saveUndo);
    }
    if LeaseMatches(b, s.jobs, job, request) {
      HandOutGrants(s, job, order, now, saveBook);
      GrantedTells(s, s', b, job, request, now, saveBook, saveJobs, saveUndo, reply);
    } else {
      HandOutRejects(s, job, order, now, saveBook);
      RejectedTells(s, s', b, job, request, now, saveBook, saveJobs, saveUndo, reply);
    }
  }

  lemma StopsThere(s: Node, job: JobId, order: seq<DeviceId>, undo: seq<DeviceId>, now: nat,
                   saveBook: Save, saveJobs: Save, saveUndo: Save)
    requires job in s.jobs.pending && HandOut(s, job, order, now, saveBook).stopped
    ensures DoDispatch(s, Some(job), order, undo, now, saveBook, saveJobs, saveUndo)
            == (HandOut(s, job, order, now, saveBook).node, Refused("persistence_failed"))
  {
    hide HandOut, FinishDispatch;
  }

  lemma GrantedTells(s: Node, s': Node, b: Book, job: JobId, request: AppleRequest, now: nat,
                     saveBook: Save, saveJobs: Save, saveUndo: Save, reply: Reply)
    requires LeaseMatches(b, s.jobs, job, request)
    requires var fenced := b.(writers := b.writers[request.device.value := job]);
             var s1 := s.(book := fenced, bookCopy := Persist(s.bookCopy, fenced, saveBook));
             var grant := LeaseGrant(request.lease.value, request.device.value, s.jobs.clients[job], job);
             if !saveBook.Complete? then s' == s1 && reply == Refused("persistence_failed")
             else SettleTells(s1, s', s.jobs.(dispatched := s.jobs.dispatched + {job}), job,
                              Work(job, request, Some(grant)), now, saveJobs, saveUndo, reply)
    ensures GrantTells(s, s', b, job, request, now, saveBook, saveJobs, saveUndo, reply)
  {
    hide SettleTells, Persist;
  }

  lemma RejectedTells(s: Node, s': Node, b: Book, job: JobId, request: AppleRequest, now: nat,
                      saveBook: Save, saveJobs: Save, saveUndo: Save, reply: Reply)
    requires !LeaseMatches(b, s.jobs, job, request) && request.device.Some? && request.lease.Some?
    requires var events := if job in s.jobs.events then s.jobs.events[job] else [];
             var rejected := s.jobs.(pending := s.jobs.pending - {job},
                                     events := s.jobs.events[job := events + [Event(1, Rejected)]]);
             SettleTells(s.(book := b), s', rejected, job, Done, now, saveJobs, saveUndo, reply)
    ensures GrantTells(s, s', b, job, request, now, saveBook, saveJobs, saveUndo, reply)
  {
    hide SettleTells, Persist, LeaseMatches;
  }

  lemma HandOutPlain(s: Node, job: JobId, order: seq<DeviceId>, undo: seq<DeviceId>, now: nat,
                     saveBook: Save, saveJobs: Save, saveUndo: Save)
    requires job in s.jobs.pending && UndoOrder(s, job, order, undo, now)
    requires var request := s.jobs.pending[job];
             !(request.operation.MutatesDevice() && request.device.Some? && request.lease.Some?)
    ensures var (s', reply) := DoDispatch(s, Some(job), order, undo, now, saveBook, saveJobs, saveUndo);
            SettleTells(s, s', s.jobs.(dispatched := s.jobs.dispatched + {job}), job,
                        Work(job, s.jobs.pending[job], None), now, saveJobs, saveUndo, reply)
  {
    hide DoDispatch, SettleTells, UndoOrder;
    var h := HandOut(s, job, order, now, saveBook);
    SettlesPicked(s, s, job, h.jobs, h.reply, order, undo, now, saveBook, saveJobs, saveUndo);
  }


  lemma HandOutAnswers(s: Node, job: JobId, order: seq<DeviceId>, undo: seq<DeviceId>, now: nat,
                       saveBook: Save, saveJobs: Save, saveUndo: Save)
    requires job in s.jobs.pending && ExpiryOrder(s.book, order, now) && UndoOrder(s, job, order, undo, now)
    ensures var (s', reply) := DoDispatch(s, Some(job), order, undo, now, saveBook, saveJobs, saveUndo);
            HandOutTells(s, s', job, s.jobs.pending[job], now, saveBook, saveJobs, saveUndo, reply)
  {
    hide *;
    var request := s.jobs.pending[job];
    var (s', reply) := DoDispatch(s, Some(job), order, undo, now, saveBook, saveJobs, saveUndo);
    if request.operation.MutatesDevice() && request.device.Some? && request.lease.Some? {
      ExpiryLapses(s.book, order, now);
      GrantAnswers(s, job, order, undo, now, saveBook, saveJobs, saveUndo);
      LeasedTells(s, s', ReleaseAll(s.book, order, now), job, request, now, saveBook, saveJobs, saveUndo, reply);
    } else {
      HandOutPlain(s, job, order, undo, now, saveBook, saveJobs, saveUndo);
      PlainTells(s, s', job, request, now, saveBook, saveJobs, saveUndo, reply);
    }
  }

  lemma LeasedTells(s: Node, s': Node, b: Book, job: JobId, request: AppleRequest, now: nat,
                    saveBook: Save, saveJobs: Save, saveUndo: Save, reply: Reply)
    requires request.operation.MutatesDevice() && request.device.Some? && request.lease.Some?
    requires Lapsed(s.book, b, now) && GrantTells(s, s', b, job, request, now, saveBook, saveJobs, saveUndo, reply)
    ensures HandOutTells(s, s', job, request, now, saveBook, saveJobs, saveUndo, reply)
  {
    hide Lapsed, GrantTells;
  }

  lemma PlainTells(s: Node, s': Node, job: JobId, request: AppleRequest, now: nat,
                    saveBook: Save, saveJobs: Save, saveUndo: Save, reply: Reply)
    requires !(request.operation.MutatesDevice() && request.device.Some? && request.lease.Some?)
    requires SettleTells(s, s', s.jobs.(dispatched := s.jobs.dispatched + {job}), job,
                        Work(job, request, None), now, saveJobs, saveUndo, reply)
    ensures HandOutTells(s, s', job, request, now, saveBook, saveJobs, saveUndo, reply)
  {
    hide SettleTells;
  }

  lemma DispatchAnswers(s: Node, step: Step)
    requires Possible(s, step) && step.Dispatch?
    ensures var (s', reply) := Exec(s, step);
            DispatchTells(s, s', step.host, step.now, step.saveBook, step.saveJobs, step.saveUndo, reply)
  {
    CandidatesWait(s, step.host);
    if step.pick.Some? {
      HandOutAnswers(s, step.pick.value, step.order, step.undo, step.now, step.saveBook, step.saveJobs, step.saveUndo);
    }
    hide Persist, Held, HandOut, HandOutTells, WaitsFor, UndoOrder;
  }

  lemma SettledReply(s: Node, s': Node, jobs: Jobs, job: JobId, answer: Reply, now: nat,
                     saveJobs: Save, saveUndo: Save, reply: Reply)
    requires SettleTells(s, s', jobs, job, answer, now, saveJobs, saveUndo, reply)
    ensures reply == answer || reply.Refused?
  {
    hide Persist, FencesDropped, Unconfirmed;
  }

  lemma GrantedWork(s: Node, s': Node, b: Book, job: JobId, request: AppleRequest, now: nat,
                    saveBook: Save, saveJobs: Save, saveUndo: Save, reply: Reply)
    requires request.device.Some? && request.lease.Some?
    requires GrantTells(s, s', b, job, request, now, saveBook, saveJobs, saveUndo, reply) && reply.Work?
    ensures job in s.jobs.clients
    ensures reply == Work(job, request, Some(LeaseGrant(request.lease.value, request.device.value,
                                                        s.jobs.clients[job], job)))
  {
    hide Persist, SettleTells;
    if LeaseMatches(b, s.jobs, job, request) {
      var fenced := b.(writers := b.writers[request.device.value := job]);
      var s1 := s.(book := fenced, bookCopy := Persist(s.bookCopy, fenced, saveBook));
      var grant := LeaseGrant(request.lease.value, request.device.value, s.jobs.clients[job], job);
      SettledReply(s1, s', s.jobs.(dispatched := s.jobs.dispatched + {job}), job, Work(job, request, Some(grant)),
                   now, saveJobs, saveUndo, reply);
    } else {
      var events := if job in s.jobs.events then s.jobs.events[job] else [];
      var rejected := s.jobs.(pending := s.jobs.pending - {job},
                              events := s.jobs.events[job := events + [Event(1, Rejected)]]);
      SettledReply(s.(book := b), s', rejected, job, Done, now, saveJobs, saveUndo, reply);
    }
  }

  lemma WorkHandedOut(s: Node, s': Node, job: JobId, request: AppleRequest, now: nat,
                      saveBook: Save, saveJobs: Save, saveUndo: Save, reply: Reply)
    requires HandOutTells(s, s', job, request, now, saveBook, saveJobs, saveUndo, reply) && reply.Work?
    ensures var grant := reply.grant;
            && reply == Work(job, request, grant)
            && (grant.Some? <==> request.operation.MutatesDevice() && request.device.Some? && request.lease.Some?)
            && (grant.Some? ==>
                  && job in s.jobs.clients
                  && grant.value == LeaseGrant(request.lease.value, request.device.value, s.jobs.clients[job], job))
  {
    hide SettleTells, GrantTells, Lapsed;
    if request.operation.MutatesDevice() && request.device.Some? && request.lease.Some? {
      var b :| Lapsed(s.book, b, now) && GrantTells(s, s', b, job, request, now, saveBook, saveJobs, saveUndo, reply);
      GrantedWork(s, s', b, job, request, now, saveBook, saveJobs, saveUndo, reply);
    } else {
      SettledReply(s, s', s.jobs.(dispatched := s.jobs.dispatched + {job}), job, Work(job, request, None), now,
                   saveJobs, saveUndo, reply);
    }
  }

  /** Work is handed to the host it was made for, exactly as it was submitted, by nobody acknowledged and with its
      device written by no other job. A grant comes with it exactly where the request changes a device and names
      it and a lease; it names that device, that lease and the client who submitted the job. */
  lemma WorkIsForItsHost(s: Node, step: Step)
    requires Possible(s, step) && step.Dispatch? && Exec(s, step).1.Work?
    ensures var Work(job, request, grant) := Exec(s, step).1;
            && job in s.jobs.pending && s.jobs.pending[job] == request
            && job in s.jobs.hosts && s.jobs.hosts[job] == step.host
            && job !in s.jobs.acknowledged
            && (request.operation.MutatesDevice() ==>
                  forall d | request.device == Some(d) && d in s.book.writers :: s.book.writers[d] == job)
            && (grant.Some? <==> request.operation.MutatesDevice() && request.device.Some? && request.lease.Some?)
            && (grant.Some? ==>
                  && job in s.jobs.clients
                  && grant.value == LeaseGrant(request.lease.value, request.device.value, s.jobs.clients[job], job))
  {
    DispatchAnswers(s, step);
    hide Exec, Possible, Persist, HandOutTells;
    var (s', reply) := Exec(s, step);
    var job :| WaitsFor(s, step.host, job) && HandOutTells(s, s', job, s.jobs.pending[job], step.now, step.saveBook,
                                                            step.saveJobs, step.saveUndo, reply);
    WorkHandedOut(s, s', job, s.jobs.pending[job], step.now, step.saveBook, step.saveJobs, step.saveUndo, reply);
  }

  lemma SavedSettles(s: Node, s': Node, jobs: Jobs, job: JobId, answer: Reply, now: nat,
                     saveJobs: Save, saveUndo: Save, reply: Reply)
    requires SettleTells(s, s', jobs, job, answer, now, saveJobs, saveUndo, reply) && saveJobs.Complete?
    ensures s'.jobs == jobs && reply == answer
  {
    hide Persist, FencesDropped, Unconfirmed;
  }

  /** With completed saves a picked job is either handed out, or rejected and no longer pending. */
  lemma GrantOrRejection(s: Node, s': Node, b: Book, job: JobId, request: AppleRequest, now: nat,
                         saveBook: Save, saveJobs: Save, saveUndo: Save, reply: Reply)
    requires request.device.Some? && request.lease.Some? && saveBook.Complete? && saveJobs.Complete?
    requires GrantTells(s, s', b, job, request, now, saveBook, saveJobs, saveUndo, reply)
    ensures reply.Work? || (reply == Done && s'.jobs.pending == s.jobs.pending - {job})
  {
    hide Persist, SettleTells;
    if LeaseMatches(b, s.jobs, job, request) {
      var fenced := b.(writers := b.writers[request.device.value := job]);
      var s1 := s.(book := fenced, bookCopy := Persist(s.bookCopy, fenced, saveBook));
      var grant := LeaseGrant(request.lease.value, request.device.value, s.jobs.clients[job], job);
      SavedSettles(s1, s', s.jobs.(dispatched := s.jobs.dispatched + {job}), job, Work(job, request, Some(grant)),
                   now, saveJobs, saveUndo, reply);
    } else {
      var events := if job in s.jobs.events then s.jobs.events[job] else [];
      var rejected := s.jobs.(pending := s.jobs.pending - {job},
                              events := s.jobs.events[job := events + [Event(1, Rejected)]]);
      SavedSettles(s.(book := b), s', rejected, job, Done, now, saveJobs, saveUndo, reply);
    }
  }

  lemma HandOutEnds(s: Node, s': Node, job: JobId, request: AppleRequest, now: nat,
                    saveBook: Save, saveJobs: Save, saveUndo: Save, reply: Reply)
    requires HandOutTells(s, s', job, request, now, saveBook, saveJobs, saveUndo, reply)
    requires saveBook.Complete? && saveJobs.Complete?
    ensures reply.Work? || (reply == Done && s'.jobs.pending == s.jobs.pending - {job})
  {
    hide SettleTells, GrantTells, Lapsed;
    if request.operation.MutatesDevice() && request.device.Some? && request.lease.Some? {
      var b :| Lapsed(s.book, b, now) && GrantTells(s, s', b, job, request, now, saveBook, saveJobs, saveUndo, reply);
      GrantOrRejection(s, s', b, job, request, now, saveBook, saveJobs, saveUndo, reply);
    } else {
      SavedSettles(s, s', s.jobs.(dispatched := s.jobs.dispatched + {job}), job, Work(job, request, None), now,
                   saveJobs, saveUndo, reply);
    }
  }

  /** A heartbeat whose saves complete leaves the job maps alone exactly when no job made for the host waits for
      it; and where one waits, it is handed out or, its lease lapsed, rejected. */
  lemma IdleExactlyWithoutWork(s: Node, step: Step)
    requires Possible(s, step) && step.Dispatch? && step.saveBook.Complete? && step.saveJobs.Complete?
    ensures var (s', reply) := Exec(s, step);
            && (reply.Work? || reply == Done)
            && (reply == Done && s'.jobs == s.jobs <==> forall job :: !WaitsFor(s, step.host, job))
            && (reply == Done && s'.jobs != s.jobs ==>
                  exists job :: WaitsFor(s, step.host, job) && s'.jobs.pending == s.jobs.pending - {job})
  {
    DispatchAnswers(s, step);
    hide Exec, Possible, Persist, HandOutTells;
    var (s', reply) := Exec(s, step);
    if job :| WaitsFor(s, step.host, job) && HandOutTells(s, s', job, s.jobs.pending[job], step.now, step.saveBook,
                                                           step.saveJobs, step.saveUndo, reply) {
      HandOutEnds(s, s', job, s.jobs.pending[job], step.now, step.saveBook, step.saveJobs, step.saveUndo, reply);
      assert job in s.jobs.pending;
    }
  }
}
