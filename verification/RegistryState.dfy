/** The registry process: job maps, lease book, their durable copies, and every lock-held critical
    section as one atomic step. */
module RegistryState {
  import opened Common
  import opened AppleProtocol
  import opened Leases
  import opened Persistence

  type HostId = Name

  datatype EventKind = Rejected | Cancelled | Reported(kind: Name, payload: Name)

  datatype Event = Event(sequence: nat, kind: EventKind)

  datatype Jobs = Jobs(
    requests: map<Name, JobId>,
    operations: map<Name, AppleRequest>,
    pending: map<JobId, AppleRequest>,
    hosts: map<JobId, HostId>,
    clients: map<JobId, PeerId>,
    agents: map<JobId, PeerId>,
    events: map<JobId, seq<Event>>,
    hostPeers: map<HostId, PeerId>,
    devicePeers: map<DeviceId, PeerId>,
    dispatched: set<JobId>,
    acknowledged: set<JobId>,
    cancelled: set<JobId>)

  const NO_JOBS := Jobs(map[], map[], map[], map[], map[], map[], map[], map[], map[], {}, {}, {})

  datatype Host = Host(capabilities: set<Name>, connected: set<DeviceId>, heartbeat: nat)

  /** A submission that passed the lease check and waits for the job maps' lock. */
  datatype Submission = Submission(peer: PeerId, request: AppleRequest)

  /** `jobsCopy` and `bookCopy` are the files of the job maps and of the lease book; `running` is false after a
      start that failed. */
  datatype Node = Node(
    jobs: Jobs,
    book: Book,
    hosts: map<HostId, Host>,
    admitted: set<Submission>,
    jobsCopy: Copy<Jobs>,
    bookCopy: Copy<Book>,
    running: bool)

  /** A first start on an empty disk. */
  const NEW_NODE :=
    Node(NO_JOBS, EMPTY_BOOK, map[], {}, NothingSaved(NO_JOBS), NothingSaved(EMPTY_BOOK), true)

  /** No save so far has put a snapshot at risk. */
  predicate Careful(s: Node) {
    s.jobsCopy.careful && s.bookCopy.careful
  }

  datatype LeaseGrant = LeaseGrant(lease: nat, device: DeviceId, client: PeerId, job: JobId)

  datatype Reply =
    | Refused(code: string)
    | Done
    | Job(job: JobId)
    | Work(job: JobId, request: AppleRequest, grant: Option<LeaseGrant>)
    | LeaseAnswer(answer: LeaseReply)

  // ---------------------------------------------------------------- fences

  datatype Ledger = Ledger(book: Book, devicePeers: map<DeviceId, PeerId>)

  /** Dropping one writer fence and carrying out what was deferred on it. */
  function Unfence(l: Ledger, device: DeviceId, now: nat): Ledger {
    var b1 := l.book.(writers := l.book.writers - {device});
    var b2 := if device in b1.pendingRelease
              then Release(b1.(pendingRelease := b1.pendingRelease - {device}), device, now)
              else b1;
    if device in b2.pendingDetach
    then Ledger(b2.(pendingDetach := b2.pendingDetach - {device}), l.devicePeers - {device})
    else Ledger(b2, l.devicePeers)
  }

  function UnfenceAll(l: Ledger, order: seq<DeviceId>, now: nat): Ledger
    decreases |order|
  {
    if order == [] then l else UnfenceAll(Unfence(l, order[0], now), order[1..], now)
  }

  /** Devices whose fence names a job that is not an acknowledged pending one. */
  function Orphans(jobs: Jobs, b: Book): set<DeviceId> {
    set d | d in b.writers && (b.writers[d] !in jobs.acknowledged || b.writers[d] !in jobs.pending)
  }

  function FencedBy(b: Book, job: JobId): set<DeviceId> {
    set d | d in b.writers && b.writers[d] == job
  }

  function Reconcile(jobs: Jobs, b: Book, order: seq<DeviceId>, now: nat): (Jobs, Book) {
    var l := UnfenceAll(Ledger(b, jobs.devicePeers), order, now);
    (jobs.(devicePeers := l.devicePeers), l.book)
  }

  datatype Restored = Fence(added: bool) | NoFence(code: string)

  /** `restore_acknowledged_writer`; `order` is the order in which it expires leases. */
  function Restore(jobs: Jobs, b: Book, job: JobId, order: seq<DeviceId>, now: nat): (Book, Restored) {
    if job !in jobs.pending then (b, NoFence("unknown_job"))
    else
      var request := jobs.pending[job];
      if !request.operation.MutatesDevice() then (b, Fence(false))
      else
        var b1 := ReleaseAll(b, order, now);
        if request.device.None? || request.lease.None? || job !in jobs.clients then (b1, NoFence("lease_inactive"))
        else
          var device := request.device.value;
          if !(device in b1.active && b1.active[device].id == request.lease.value
               && b1.active[device].client == jobs.clients[job])
          then (b1, NoFence("lease_inactive"))
          else if device !in b1.writers then (b1.(writers := b1.writers[device := job]), Fence(true))
          else if b1.writers[device] == job then (b1, Fence(false))
          else (b1, NoFence("device_writer_busy"))
  }

  // ---------------------------------------------------------------- steps

  datatype Step =
    | Inventory(peer: PeerId, isAgent: bool, host: HostId, connected: set<DeviceId>,
                order: seq<DeviceId>, now: nat, save: Save)
    | Expire(order: seq<DeviceId>, now: nat, save: Save)
    | Announce(host: HostId, snapshot: Host)
    | Dispatch(host: HostId, pick: Option<JobId>, order: seq<DeviceId>, undo: seq<DeviceId>, now: nat,
               saveBook: Save, saveJobs: Save, saveUndo: Save)
    | Admit(peer: PeerId, request: AppleRequest, order: seq<DeviceId>, now: nat, save: Save)
    | Create(peer: PeerId, request: AppleRequest, target: Option<HostId>, offline: nat, now: nat, save: Save)
    | Progress(peer: PeerId, job: JobId, batch: seq<Event>, terminal: bool, order: seq<DeviceId>, now: nat,
               saveBook: Save, saveJobs: Save, saveUndo: Save)
    | Cancel(peer: PeerId, job: JobId, save: Save)
    | LeaseOp(peer: PeerId, isAgent: bool, lease: LeaseRequest, order: seq<DeviceId>,
              visit: seq<DeviceId>, now: nat, saveBook: Save, saveJobs: Save)
    | Restart(order: seq<DeviceId>, undo: seq<DeviceId>, now: nat, saveBook: Save, saveJobs: Save, saveAgain: Save)

  // -- Heartbeat, first section: inventory

  predicate InventoryClash(jobs: Jobs, peer: PeerId, host: HostId, connected: set<DeviceId>) {
    || (host in jobs.hostPeers && jobs.hostPeers[host] != peer)
    || exists d | d in connected :: d in jobs.devicePeers && jobs.devicePeers[d] != peer
  }

  function Detached(jobs: Jobs, peer: PeerId, connected: set<DeviceId>): set<DeviceId> {
    set d | d in jobs.devicePeers && jobs.devicePeers[d] == peer && d !in connected
  }

  function DetachOne(l: Ledger, device: DeviceId, now: nat): Ledger {
    Ledger(DetachInventory(l.book, device, now),
           if device in l.book.writers then l.devicePeers else l.devicePeers - {device})
  }

  function DetachAll(l: Ledger, order: seq<DeviceId>, now: nat): Ledger
    decreases |order|
  {
    if order == [] then l else DetachAll(DetachOne(l, order[0], now), order[1..], now)
  }

  function DoInventory(s: Node, peer: PeerId, isAgent: bool, host: HostId, connected: set<DeviceId>,
                       order: seq<DeviceId>, now: nat, save: Save): (Node, Reply)
  {
    if !isAgent then (s, Refused("agent_access_denied"))
    else if InventoryClash(s.jobs, peer, host, connected) then (s, Refused("agent_identity_mismatch"))
    else
      var owned := s.jobs.devicePeers + (map d | d in connected :: peer);
      var l := DetachAll(Ledger(s.book.(pendingDetach := s.book.pendingDetach - connected), owned), order, now);
      var jobs := s.jobs.(hostPeers := s.jobs.hostPeers[host := peer], devicePeers := l.devicePeers);
      (s.(jobs := jobs, book := l.book, bookCopy := Persist(s.bookCopy, l.book, save)),
       if save.Complete? then Done else Refused("persistence_failed"))
  }

  // -- Heartbeat, last section: dispatch

  /** The jobs a heartbeat of `host` may hand out. */
  predicate Candidate(s: Node, host: HostId, job: JobId) {
    && job in s.jobs.pending
    && job in s.jobs.hosts && s.jobs.hosts[job] == host
    && job !in s.jobs.acknowledged
    && (var request := s.jobs.pending[job];
        request.operation.MutatesDevice() && request.device.Some? && request.device.value in s.book.writers ==>
          s.book.writers[request.device.value] == job)
  }

  /** Appends the batch's events whose sequence numbers are new. */
  function AddEvents(stored: seq<Event>, batch: seq<Event>): (r: seq<Event>)
    ensures stored <= r
    decreases |batch|
  {
    if batch == [] then stored
    else if exists e | e in stored :: e.sequence == batch[0].sequence then AddEvents(stored, batch[1..])
    else AddEvents(stored + [batch[0]], batch[1..])
  }

  function EventsOf(jobs: Jobs, job: JobId): seq<Event> {
    if job in jobs.events then jobs.events[job] else []
  }

  function PushEvent(jobs: Jobs, job: JobId, event: Event): Jobs {
    jobs.(events := jobs.events[job := EventsOf(jobs, job) + [event]])
  }

  /** Final section of a heartbeat after the job maps have been updated. */
  function FinishDispatch(s: Node, jobs: Jobs, reply: Reply, picked: Option<JobId>, undo: seq<DeviceId>,
                          now: nat, saveJobs: Save, saveUndo: Save): (Node, Reply)
  {
    var s1 := s.(jobs := jobs, jobsCopy := Persist(s.jobsCopy, jobs, saveJobs));
    if saveJobs.Complete? then (s1, reply)
    else if picked.None? then (s1, Refused("persistence_failed"))
    else
      var (jobs2, book2) :=
        Reconcile(jobs.(dispatched := jobs.dispatched - {picked.value}), s.book, undo, now);
      (s1.(jobs := jobs2, book := book2, bookCopy := Persist(s.bookCopy, book2, saveUndo)),
       Refused("persistence_failed"))
  }

  function MarkDispatched(jobs: Jobs, job: JobId): Jobs {
    jobs.(dispatched := jobs.dispatched + {job})
  }

  /** A hand-out before the job maps are saved; `stopped` when the lease file could not be written. */
  datatype HandedOut = HandedOut(node: Node, jobs: Jobs, reply: Reply, stopped: bool)

  function HandOut(s: Node, job: JobId, order: seq<DeviceId>, now: nat, saveBook: Save): HandedOut
    requires job in s.jobs.pending
  {
    var request := s.jobs.pending[job];
    if !request.operation.MutatesDevice() || request.device.None? || request.lease.None? then
      HandedOut(s, MarkDispatched(s.jobs, job), Work(job, request, None), false)
    else
      var device, book := request.device.value, ReleaseAll(s.book, order, now);
      if device in book.active && book.active[device].id == request.lease.value
         && job in s.jobs.clients && s.jobs.clients[job] == book.active[device].client
      then
        var fenced := book.(writers := book.writers[device := job]);
        var grant := LeaseGrant(request.lease.value, device, book.active[device].client, job);
        HandedOut(s.(book := fenced, bookCopy := Persist(s.bookCopy, fenced, saveBook)),
                  MarkDispatched(s.jobs, job), Work(job, request, Some(grant)), !saveBook.Complete?)
      else
        HandedOut(s.(book := book),
                  PushEvent(s.jobs.(pending := s.jobs.pending - {job}), job, Event(1, Rejected)), Done, false)
  }

  function DoDispatch(s: Node, pick: Option<JobId>, order: seq<DeviceId>, undo: seq<DeviceId>, now: nat,
                      saveBook: Save, saveJobs: Save, saveUndo: Save): (Node, Reply)
    requires pick.Some? ==> pick.value in s.jobs.pending
  {
    if pick.None? then FinishDispatch(s, s.jobs, Done, None, undo, now, saveJobs, saveUndo)
    else
      var h := HandOut(s, pick.value, order, now, saveBook);
      if h.stopped then (h.node, Refused("persistence_failed"))
      else FinishDispatch(h.node, h.jobs, h.reply, pick, undo, now, saveJobs, saveUndo)
  }

  // -- AppleRun, first section: lease check

  function DoAdmit(s: Node, peer: PeerId, request: AppleRequest, order: seq<DeviceId>, now: nat, save: Save)
    : (Node, Reply)
  {
    var admitted := s.admitted + {Submission(peer, request)};
    if !request.operation.MutatesDevice() then (s.(admitted := admitted), Done)
    else
      var book := ReleaseAll(s.book, order, now);
      var s1 := s.(book := book, bookCopy := Persist(s.bookCopy, book, save));
      if !save.Complete? then (s1, Refused("persistence_failed"))
      else if request.device.Some? && request.device.value in book.active
              && request.lease == Some(book.active[request.device.value].id)
              && book.active[request.device.value].client == peer
      then (s1.(admitted := admitted), Done)
      else (s1, Refused("lease_inactive"))
  }

  // -- AppleRun, second section: job creation

  predicate Eligible(hosts: map<HostId, Host>, host: HostId, request: AppleRequest, offline: nat, now: nat) {
    && host in hosts
    && now - hosts[host].heartbeat < offline
    && request.capability in hosts[host].capabilities
    && (request.device.Some? ==> request.device.value in hosts[host].connected)
  }

  function NewJob(jobs: Jobs, peer: PeerId, request: AppleRequest, target: HostId): Jobs {
    var job := JobId(request.key);
    jobs.(requests := jobs.requests[request.key := job],
          operations := jobs.operations[request.key := request],
          pending := jobs.pending[job := request],
          hosts := jobs.hosts[job := target],
          clients := jobs.clients[job := peer],
          agents := if target in jobs.hostPeers then jobs.agents[job := jobs.hostPeers[target]] else jobs.agents,
          events := jobs.events[job := []])
  }

  function DoCreate(s: Node, peer: PeerId, request: AppleRequest, target: Option<HostId>, save: Save)
    : (Node, Reply)
  {
    if request.key in s.jobs.requests then
      if request.key in s.jobs.operations && s.jobs.operations[request.key] != request
      then (s, Refused("idempotency_conflict"))
      else (s, Job(s.jobs.requests[request.key]))
    else if target.None? then (s, Refused("no_eligible_host"))
    else
      var jobs := NewJob(s.jobs, peer, request, target.value);
      (s.(jobs := jobs, jobsCopy := Persist(s.jobsCopy, jobs, save)),
       if save.Complete? then Job(JobId(request.key)) else Refused("registry_stopped"))
  }

  // -- AppleProgress

  function Acknowledge(jobs: Jobs, job: JobId, batch: seq<Event>): Jobs {
    jobs.(events := jobs.events[job := AddEvents(EventsOf(jobs, job), batch)],
          acknowledged := jobs.acknowledged + {job})
  }

  function Finish(jobs: Jobs, job: JobId, batch: seq<Event>, devicePeers: map<DeviceId, PeerId>): Jobs {
    jobs.(events := jobs.events[job := AddEvents(EventsOf(jobs, job), batch)],
          pending := jobs.pending - {job},
          cancelled := jobs.cancelled - {job},
          devicePeers := devicePeers)
  }

  function DoProgress(s: Node, peer: PeerId, job: JobId, batch: seq<Event>, terminal: bool,
                      order: seq<DeviceId>, now: nat, saveBook: Save, saveJobs: Save, saveUndo: Save): (Node, Reply)
  {
    if !(job in s.jobs.agents && s.jobs.agents[job] == peer) then (s, Refused("apple_progress_access_denied"))
    else if terminal then DoFinish(s, job, batch, order, now, saveBook, saveJobs)
    else DoAcknowledge(s, job, batch, order, now, saveBook, saveJobs, saveUndo)
  }

  /** A terminal report; `order` visits the devices the job fences. */
  function DoFinish(s: Node, job: JobId, batch: seq<Event>, order: seq<DeviceId>, now: nat,
                    saveBook: Save, saveJobs: Save): (Node, Reply)
  {
    var l := UnfenceAll(Ledger(s.book, s.jobs.devicePeers), order, now);
    var jobs := Finish(s.jobs, job, batch, l.devicePeers);
    var s1 := s.(jobs := jobs, book := l.book, jobsCopy := Persist(s.jobsCopy, jobs, saveJobs));
    if !saveJobs.Complete? then (s1, Refused("persistence_failed"))
    else
      (s1.(bookCopy := Persist(s.bookCopy, l.book, saveBook)),
       if saveBook.Complete? then Done else Refused("persistence_failed"))
  }

  function DropFences(b: Book, job: JobId): Book {
    b.(writers := b.writers - FencedBy(b, job))
  }

  /** A progress report that is not terminal; `order` is the order of the expiry inside. */
  function DoAcknowledge(s: Node, job: JobId, batch: seq<Event>, order: seq<DeviceId>, now: nat,
                         saveBook: Save, saveJobs: Save, saveUndo: Save): (Node, Reply)
  {
    var (book, restored) := Restore(s.jobs, s.book, job, order, now);
    var s1 := s.(book := book, bookCopy := Persist(s.bookCopy, book, saveBook));
    if restored.NoFence? then (s1, Refused(restored.code))
    else if !saveBook.Complete? then (s1, Refused("persistence_failed"))
    else DoRecord(s1, job, batch, restored.added, saveJobs, saveUndo)
  }

  /** The second half of it; `added` says that the first half has set the fence. */
  function DoRecord(s: Node, job: JobId, batch: seq<Event>, added: bool, saveJobs: Save, saveUndo: Save): (Node, Reply)
  {
    var jobs := Acknowledge(s.jobs, job, batch);
    var s1 := s.(jobs := jobs, jobsCopy := Persist(s.jobsCopy, jobs, saveJobs));
    if saveJobs.Complete? then (s1, Done)
    else if !added then (s1, Refused("persistence_failed"))
    else
      var undone := DropFences(s.book, job);
      (s1.(book := undone, bookCopy := Persist(s.bookCopy, undone, saveUndo)), Refused("persistence_failed"))
  }

  // -- AppleCancel

  /** A dispatched job is marked for cancellation, any other is withdrawn at once. */
  function CancelJob(jobs: Jobs, job: JobId): Jobs {
    var running := job in jobs.dispatched;
    jobs.(cancelled := if running then jobs.cancelled + {job} else jobs.cancelled,
          pending := if running then jobs.pending else jobs.pending - {job},
          events := if running then jobs.events
                    else jobs.events[job := EventsOf(jobs, job) + [Event(1, Cancelled)]])
  }

  function DoCancel(s: Node, peer: PeerId, job: JobId, save: Save): (Node, Reply) {
    if !(job in s.jobs.clients && s.jobs.clients[job] == peer) then (s, Refused("apple_cancel_access_denied"))
    else if job !in s.jobs.pending then (s, Refused("unknown_job"))
    else
      var jobs := CancelJob(s.jobs, job);
      (s.(jobs := jobs, jobsCopy := Persist(s.jobsCopy, jobs, save)),
       if save.Complete? then Done else Refused("registry_stopped"))
  }

  // -- lease requests

  ghost function DoLease(s: Node, peer: PeerId, isAgent: bool, request: LeaseRequest, order: seq<DeviceId>,
                         visit: seq<DeviceId>, now: nat, saveBook: Save, saveJobs: Save): (Node, Reply)
  {
    var b1 := ReleaseAll(s.book, order, now);
    var (book, answer) := Serve(b1, s.jobs.devicePeers, peer, isAgent, request, visit, now);
    var jobs := if request.AgentDetach? && SpeaksFor(s.jobs.devicePeers, isAgent, peer, request.device)
                then s.jobs.(devicePeers := s.jobs.devicePeers - {request.device}) else s.jobs;
    var s1 := s.(jobs := jobs, book := book, bookCopy := Persist(s.bookCopy, book, saveBook));
    if !saveBook.Complete? then (s1, Refused("persistence_failed"))
    else (s1.(jobsCopy := Persist(s.jobsCopy, jobs, saveJobs)),
          if saveJobs.Complete? then LeaseAnswer(answer) else Refused("persistence_failed"))
  }

  // -- process start

  /** The process did not come up. What memory held is kept only as a reference; nobody sees it again. */
  function Down(s: Node, book: Book, jobsCopy: Copy<Jobs>, bookCopy: Copy<Book>): Node {
    Node(s.jobs, book, map[], {}, jobsCopy, bookCopy, false)
  }

  /** A start loads both copies, expires leases and saves them; where there are orphaned fences it drops them
      and saves both files. It fails where a save fails. */
  function DoRestart(s: Node, order: seq<DeviceId>, undo: seq<DeviceId>, now: nat,
                     saveBook: Save, saveJobs: Save, saveAgain: Save): Node
  {
    var b1 := ReleaseAll(Held(s.bookCopy), order, now);
    var (jobs, book) := Reconcile(Held(s.jobsCopy), b1, undo, now);
    var expired := Persist(s.bookCopy, b1, saveBook);
    if !saveBook.Complete? then Down(s, b1, s.jobsCopy, expired)
    else if undo == [] then Node(jobs, book, map[], {}, s.jobsCopy, expired, true)
    else
      var jobsCopy := Persist(s.jobsCopy, jobs, saveJobs);
      if !saveJobs.Complete? then Down(s, book, jobsCopy, expired)
      else
        var bookCopy := Persist(expired, book, saveAgain);
        if !saveAgain.Complete? then Down(s, book, jobsCopy, bookCopy)
        else Node(jobs, book, map[], {}, jobsCopy, bookCopy, true)
  }

  // ---------------------------------------------------------------- transition system

  /** The choices a step carries are ones the code can make: hash map orders, picked jobs, eligible hosts. */
  ghost predicate Possible(s: Node, step: Step) {
    (step.Restart? || s.running) && CanChoose(s, step)
  }

  ghost predicate CanChoose(s: Node, step: Step) {
    match step
    case Inventory(peer, _, _, connected, order, _, _) => IsOrderOf(order, Detached(s.jobs, peer, connected))
    case Expire(order, now, _) => ExpiryOrder(s.book, order, now)
    case Announce(_, _) => true
    case Dispatch(host, pick, order, undo, now, saveBook, saveJobs, _) =>
      && (pick.None? ==> forall job :: !Candidate(s, host, job))
      && (pick.Some? ==> Candidate(s, host, pick.value))
      && ExpiryOrder(s.book, order, now)
      && (pick.Some? ==> UndoOrder(s, pick.value, order, undo, now))
    case Admit(_, _, order, now, _) => ExpiryOrder(s.book, order, now)
    case Create(peer, request, target, offline, now, _) =>
      && Submission(peer, request) in s.admitted
      && (target.Some? ==> Eligible(s.hosts, target.value, request, offline, now))
      && (target.None? ==> forall host :: !Eligible(s.hosts, host, request, offline, now))
    case Progress(_, job, _, terminal, order, now, _, _, _) =>
      if terminal then IsOrderOf(order, FencedBy(s.book, job)) else ExpiryOrder(s.book, order, now)
    case Cancel(_, _, _) => true
    case LeaseOp(peer, _, _, order, visit, now, _, _) =>
      && ExpiryOrder(s.book, order, now)
      && IsOrderOf(visit, HeldBy(ReleaseAll(s.book, order, now), peer))
    case Restart(order, undo, now, _, _, _) =>
      && ExpiryOrder(Held(s.bookCopy), order, now)
      && IsOrderOf(undo, Orphans(Held(s.jobsCopy), ReleaseAll(Held(s.bookCopy), order, now)))
  }

  /** `undo` visits the orphans a failed heartbeat finds when it rolls back. */
  ghost predicate UndoOrder(s: Node, job: JobId, order: seq<DeviceId>, undo: seq<DeviceId>, now: nat)
    requires job in s.jobs.pending
  {
    var h := HandOut(s, job, order, now, SAVED);
    IsOrderOf(undo, Orphans(h.jobs.(dispatched := h.jobs.dispatched - {job}), h.node.book))
  }

  ghost function Exec(s: Node, step: Step): (Node, Reply)
    requires Possible(s, step)
  {
    match step
    case Inventory(peer, isAgent, host, connected, order, now, save) =>
      DoInventory(s, peer, isAgent, host, connected, order, now, save)
    case Expire(order, now, save) =>
      var book := ReleaseAll(s.book, order, now);
      (s.(book := book, bookCopy := Persist(s.bookCopy, book, save)),
       if save.Complete? then Done else Refused("persistence_failed"))
    case Announce(host, snapshot) => (s.(hosts := s.hosts[host := snapshot]), Done)
    case Dispatch(_, pick, order, undo, now, saveBook, saveJobs, saveUndo) =>
      DoDispatch(s, pick, order, undo, now, saveBook, saveJobs, saveUndo)
    case Admit(peer, request, order, now, save) => DoAdmit(s, peer, request, order, now, save)
    case Create(peer, request, target, _, _, save) => DoCreate(s, peer, request, target, save)
    case Progress(peer, job, batch, terminal, order, now, saveBook, saveJobs, saveUndo) =>
      DoProgress(s, peer, job, batch, terminal, order, now, saveBook, saveJobs, saveUndo)
    case Cancel(peer, job, save) => DoCancel(s, peer, job, save)
    case LeaseOp(peer, isAgent, request, order, visit, now, saveBook, saveJobs) =>
      DoLease(s, peer, isAgent, request, order, visit, now, saveBook, saveJobs)
    case Restart(order, undo, now, saveBook, saveJobs, saveAgain) =>
      (DoRestart(s, order, undo, now, saveBook, saveJobs, saveAgain), Done)
  }

  ghost predicate PossibleRun(s: Node, run: seq<Step>)
    decreases |run|
  {
    run != [] ==> Possible(s, run[0]) && PossibleRun(Exec(s, run[0]).0, run[1..])
  }

  ghost function After(s: Node, run: seq<Step>): Node
    requires PossibleRun(s, run)
    decreases |run|
  {
    if run == [] then s else After(Exec(s, run[0]).0, run[1..])
  }
}
