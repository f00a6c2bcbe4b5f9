/** What every other critical section of the registry does and answers, told in the same way. */
module RegistryAnswers {
  import opened Common
  import opened AppleProtocol
  import opened Leases
  import opened LeaseAnswers
  import opened Persistence
  import opened RegistryState
  import opened RegistryInvariant
  import opened EventReports
  import opened HeartbeatAnswers

  // ---------------------------------------------------------------- lease requests

  /** Leases that have run out are given up before anything else. Then the request is answered, unless one of the
      two files cannot be saved. A device that its agent detaches is forgotten. */
  ghost predicate LeaseTells(s: Node, s': Node, peer: PeerId, isAgent: bool, request: LeaseRequest, now: nat,
                             saveBook: Save, saveJobs: Save, reply: Reply)
  {
    var detached := request.AgentDetach? && ReportedBy(s.jobs.devicePeers, isAgent, peer, request.device);
    var peers := if detached then s.jobs.devicePeers - {request.device} else s.jobs.devicePeers;
    var jobs := s.jobs.(devicePeers := peers);
    exists b: Book, answer: LeaseReply ::
      && Lapsed(s.book, b, now) && Answers(b, s'.book, s.jobs.devicePeers, peer, isAgent, request, now, answer)
      && s' == s.(jobs := jobs, book := s'.book, bookCopy := Persist(s.bookCopy, s'.book, saveBook),
                  jobsCopy := if saveBook.Complete? then Persist(s.jobsCopy, jobs, saveJobs) else s.jobsCopy)
      && reply == if saveBook.Complete? && saveJobs.Complete? then LeaseAnswer(answer)
                  else Refused("persistence_failed")
  }

  lemma LeaseTold(s: Node, b: Book, answer: LeaseReply, peer: PeerId, isAgent: bool, request: LeaseRequest,
                  order: seq<DeviceId>, visit: seq<DeviceId>, now: nat, saveBook: Save, saveJobs: Save)
    requires b == ReleaseAll(s.book, order, now) && Lapsed(s.book, b, now)
    requires var r := Serve(b, s.jobs.devicePeers, peer, isAgent, request, visit, now);
             answer == r.1 && Answers(b, r.0, s.jobs.devicePeers, peer, isAgent, request, now, answer)
    ensures var (s', reply) := DoLease(s, peer, isAgent, request, order, visit, now, saveBook, saveJobs);
            LeaseTells(s, s', peer, isAgent, request, now, saveBook, saveJobs, reply)
  {
    hide Persist, Held, ReleaseAll, Serve, Answers, Lapsed;
  }

  lemma LeaseOpAnswers(s: Node, step: Step)
    requires LifeInv(s) && Possible(s, step) && step.LeaseOp?
    ensures var (s', reply) := Exec(s, step);
            LeaseTells(s, s', step.peer, step.isAgent, step.lease, step.now, step.saveBook, step.saveJobs, reply)
  {
    var b := ReleaseAll(s.book, step.order, step.now);
    ExpiryLapses(s.book, step.order, step.now);
    ReleaseAllInv(s.book, step.order, step.now);
    ServeAnswers(b, s.jobs.devicePeers, step.peer, step.isAgent, step.lease, step.visit, step.now);
    LeaseTold(s, b, Serve(b, s.jobs.devicePeers, step.peer, step.isAgent, step.lease, step.visit, step.now).1,
              step.peer, step.isAgent, step.lease, step.order, step.visit, step.now, step.saveBook, step.saveJobs);
    hide Persist, Held, ReleaseAll, Serve, Answers, Lapsed, BookInv, DoLease, LeaseTells;
  }

  // ---------------------------------------------------------------- submissions

  ghost predicate AdmitTells(s: Node, s': Node, peer: PeerId, request: AppleRequest, now: nat, save: Save, reply: Reply)
  {
    var admitted := s.admitted + {Submission(peer, request)};
    if !request.operation.MutatesDevice() then s' == s.(admitted := admitted) && reply == Done
    else
      exists b: Book :: Lapsed(s.book, b, now) &&
        var held := exists d | d in b.active :: && request.device == Some(d) && request.lease == Some(b.active[d].id)
                                                && b.active[d].client == peer;
        var s1 := s.(book := b, bookCopy := Persist(s.bookCopy, b, save));
        if !save.Complete? then s' == s1 && reply == Refused("persistence_failed")
        else if held then s' == s1.(admitted := admitted) && reply == Done
        else s' == s1 && reply == Refused("lease_inactive")
  }

  lemma AdmitAnswers(s: Node, step: Step)
    requires Possible(s, step) && step.Admit?
    ensures var (s', reply) := Exec(s, step);
            AdmitTells(s, s', step.peer, step.request, step.now, step.save, reply)
  {
    ExpiryLapses(s.book, step.order, step.now);
    hide Persist, Held, ReleaseAll, Lapsed, ExpiryOrder;
  }

  /** What a host has announced suits the request: it is recent, has the capability, and has the device connected
      where the request names one. */
  predicate CanRun(host: Host, request: AppleRequest, offline: nat, now: nat) {
    && now < host.heartbeat + offline
    && request.capability in host.capabilities
    && (request.device.Some? ==> request.device.value in host.connected)
  }

  /** The maps with one more job: where it came from, what it is to do, which host it is for and which agent
      may report on it. No event is known of it. */
  ghost predicate JobMade(j: Jobs, j': Jobs, peer: PeerId, request: AppleRequest, host: HostId) {
    var job := JobId(request.key);
    && j'.requests == j.requests[request.key := job] && j'.operations == j.operations[request.key := request]
    && j'.pending == j.pending[job := request] && j'.events == j.events[job := []]
    && j'.hosts == j.hosts[job := host] && j'.clients == j.clients[job := peer]
    && (if host in j.hostPeers then j'.agents == j.agents[job := j.hostPeers[host]] else j'.agents == j.agents)
    && j'.hostPeers == j.hostPeers && j'.devicePeers == j.devicePeers
    && j'.dispatched == j.dispatched && j'.acknowledged == j.acknowledged && j'.cancelled == j.cancelled
  }

  /** A known key is answered from memory. A new one makes a job for a host that has announced all it takes, and
      is refused exactly where there is none. */
  ghost predicate CreateTells(s: Node, s': Node, peer: PeerId, request: AppleRequest, offline: nat, now: nat,
                              save: Save, reply: Reply)
  {
    if request.key in s.jobs.requests then
      && s' == s
      && reply == if request.key in s.jobs.operations && s.jobs.operations[request.key] != request
                  then Refused("idempotency_conflict") else Job(s.jobs.requests[request.key])
    else if forall host | host in s.hosts :: !CanRun(s.hosts[host], request, offline, now) then
      s' == s && reply == Refused("no_eligible_host")
    else
      exists host | host in s.hosts ::
        && CanRun(s.hosts[host], request, offline, now) && JobMade(s.jobs, s'.jobs, peer, request, host)
        && s' == s.(jobs := s'.jobs, jobsCopy := Persist(s.jobsCopy, s'.jobs, save))
        && reply == if save.Complete? then Job(JobId(request.key)) else Refused("registry_stopped")
  }

  lemma CreateAnswers(s: Node, step: Step)
    requires Possible(s, step) && step.Create?
    ensures var (s', reply) := Exec(s, step);
            CreateTells(s, s', step.peer, step.request, step.offline, step.now, step.save, reply)
  {
    hide Persist, Held;
    assert forall host :: Eligible(s.hosts, host, step.request, step.offline, step.now)
                          <==> host in s.hosts && CanRun(s.hosts[host], step.request, step.offline, step.now);
    hide Eligible, CanRun;
  }

  // ---------------------------------------------------------------- reports

  /** The events stored of a job. */
  function Known(jobs: Jobs, job: JobId): seq<Event> {
    if job in jobs.events then jobs.events[job] else []
  }

  /** The new events of the batch are stored behind the others, and of no other job. */
  ghost predicate Recorded(j: Jobs, j': Jobs, job: JobId, batch: seq<Event>) {
    && job in j'.events && Added(Known(j, job), batch, j'.events[job])
    && j'.events == j.events[job := j'.events[job]]
  }

  /** The job is over and writes to no device any more. What had been put off until then happens. */
  ghost predicate FinishTells(s: Node, s': Node, job: JobId, batch: seq<Event>, now: nat,
                              saveBook: Save, saveJobs: Save, reply: Reply)
  {
    && Recorded(s.jobs, s'.jobs, job, batch)
    && FencesDropped(Ledger(s.book, s.jobs.devicePeers), Ledger(s'.book, s'.jobs.devicePeers),
                     (set d | d in s.book.writers && s.book.writers[d] == job), now)
    && s' == s.(jobs := s.jobs.(events := s'.jobs.events, devicePeers := s'.jobs.devicePeers,
                                pending := s.jobs.pending - {job}, cancelled := s.jobs.cancelled - {job}),
                book := s'.book, jobsCopy := Persist(s.jobsCopy, s'.jobs, saveJobs),
                bookCopy := if saveJobs.Complete? then Persist(s.bookCopy, s'.book, saveBook) else s.bookCopy)
    && reply == if saveJobs.Complete? && saveBook.Complete? then Done else Refused("persistence_failed")
  }

  /** The job counts as acknowledged, and if that cannot be saved the fence set for it goes again. */
  ghost predicate RecordTells(s: Node, s': Node, job: JobId, batch: seq<Event>, fenced: bool,
                              saveJobs: Save, saveUndo: Save, reply: Reply)
  {
    var undo := fenced && !saveJobs.Complete?;
    var book := if undo then s.book.(writers := map d | d in s.book.writers && s.book.writers[d] != job
                                                      :: s.book.writers[d]) else s.book;
    && Recorded(s.jobs, s'.jobs, job, batch)
    && s' == s.(jobs := s.jobs.(events := s'.jobs.events, acknowledged := s.jobs.acknowledged + {job}),
                jobsCopy := Persist(s.jobsCopy, s'.jobs, saveJobs), book := book,
                bookCopy := if undo then Persist(s.bookCopy, book, saveUndo) else s.bookCopy)
    && reply == if saveJobs.Complete? then Done else Refused("persistence_failed")
  }

  /** What the report of a job that changes a device needs: once leases that have run out are gone, the job's lease
      is in force and its device is free or its own. `b` is the book then; afterwards the device is the job's. */
  ghost predicate FenceTells(jobs: Jobs, b: Book, b': Book, job: JobId, request: AppleRequest, restored: Restored) {
    if !(request.lease.Some? && LeaseMatches(b, jobs, job, request)) then
      b' == b && restored == NoFence("lease_inactive")
    else
      var device := request.device.value;
      if device !in b.writers then b' == b.(writers := b.writers[device := job]) && restored == Fence(true)
      else b' == b && restored == if b.writers[device] == job then Fence(false) else NoFence("device_writer_busy")
  }

  ghost predicate RestoreTells(jobs: Jobs, b: Book, b': Book, job: JobId, now: nat, restored: Restored) {
    if job !in jobs.pending then b' == b && restored == NoFence("unknown_job")
    else if !jobs.pending[job].operation.MutatesDevice() then b' == b && restored == Fence(false)
    else exists b1: Book :: Lapsed(b, b1, now) && FenceTells(jobs, b1, b', job, jobs.pending[job], restored)
  }

  ghost predicate AcknowledgeTells(s: Node, s': Node, job: JobId, batch: seq<Event>, now: nat,
                                   saveBook: Save, saveJobs: Save, saveUndo: Save, reply: Reply)
  {
    exists b: Book, restored: Restored :: RestoreTells(s.jobs, s.book, b, job, now, restored) &&
      var s1 := s.(book := b, bookCopy := Persist(s.bookCopy, b, saveBook));
      if restored.NoFence? then s' == s1 && reply == Refused(restored.code)
      else if !saveBook.Complete? then s' == s1 && reply == Refused("persistence_failed")
      else RecordTells(s1, s', job, batch, restored.added, saveJobs, saveUndo, reply)
  }

  /** Only the agent that the job was given to may report on it. */
  ghost predicate ProgressTells(s: Node, s': Node, peer: PeerId, job: JobId, batch: seq<Event>, terminal: bool,
                                now: nat, saveBook: Save, saveJobs: Save, saveUndo: Save, reply: Reply)
  {
    if job !in s.jobs.agents || s.jobs.agents[job] != peer then
      s' == s && reply == Refused("apple_progress_access_denied")
    else if terminal then FinishTells(s, s', job, batch, now, saveBook, saveJobs, reply)
    else AcknowledgeTells(s, s', job, batch, now, saveBook, saveJobs, saveUndo, reply)
  }

  lemma FinishAnswers(s: Node, job: JobId, batch: seq<Event>, order: seq<DeviceId>, now: nat,
                      saveBook: Save, saveJobs: Save)
    requires IsOrderOf(order, FencedBy(s.book, job))
    ensures var (s', reply) := DoFinish(s, job, batch, order, now, saveBook, saveJobs);
            FinishTells(s, s', job, batch, now, saveBook, saveJobs, reply)
  {
    hide Persist, Held, UnfenceAll, FencesDropped, AddEvents, Added, IsOrderOf;
    AddEventsAdds(EventsOf(s.jobs, job), batch);
    DropsFences(Ledger(s.book, s.jobs.devicePeers), order, FencedBy(s.book, job), now);
  }

  lemma RecordAnswers(s: Node, job: JobId, batch: seq<Event>, added: bool, saveJobs: Save, saveUndo: Save)
    ensures var (s', reply) := DoRecord(s, job, batch, added, saveJobs, saveUndo);
            RecordTells(s, s', job, batch, added, saveJobs, saveUndo, reply)
  {
    hide Persist, Held, AddEvents, Added, DropFences;
    AddEventsAdds(EventsOf(s.jobs, job), batch);
    FencesOfOthers(s.book, job);
  }

  lemma FencesOfOthers(b: Book, job: JobId)
    ensures DropFences(b, job)
            == b.(writers := map d | d in b.writers && b.writers[d] != job :: b.writers[d])
  {
  }

  lemma RestoreAnswers(jobs: Jobs, b: Book, job: JobId, order: seq<DeviceId>, now: nat)
    requires ExpiryOrder(b, order, now)
    ensures var (b', restored) := Restore(jobs, b, job, order, now);
            RestoreTells(jobs, b, b', job, now, restored)
  {
    ExpiryLapses(b, order, now);
    hide ReleaseAll, Lapsed, ExpiryOrder;
  }

  lemma AcknowledgeTold(s: Node, s': Node, b: Book, restored: Restored, job: JobId, batch: seq<Event>, now: nat,
                        saveBook: Save, saveJobs: Save, saveUndo: Save, reply: Reply)
    requires RestoreTells(s.jobs, s.book, b, job, now, restored)
    requires var s1 := s.(book := b, bookCopy := Persist(s.bookCopy, b, saveBook));
             if restored.NoFence? then s' == s1 && reply == Refused(restored.code)
             else if !saveBook.Complete? then s' == s1 && reply == Refused("persistence_failed")
             else RecordTells(s1, s', job, batch, restored.added, saveJobs, saveUndo, reply)
    ensures AcknowledgeTells(s, s', job, batch, now, saveBook, saveJobs, saveUndo, reply)
  {
    hide Persist, Held, RestoreTells, RecordTells;
  }

  lemma AcknowledgeUnfolds(s: Node, s1: Node, restored: Restored, job: JobId, batch: seq<Event>,
                           order: seq<DeviceId>, now: nat, saveBook: Save, saveJobs: Save, saveUndo: Save)
    requires Restore(s.jobs, s.book, job, order, now) == (s1.book, restored)
    requires s1 == s.(book := s1.book, bookCopy := Persist(s.bookCopy, s1.book, saveBook))
    ensures DoAcknowledge(s, job, batch, order, now, saveBook, saveJobs, saveUndo)
            == if restored.NoFence? then (s1, Refused(restored.code))
               else if !saveBook.Complete? then (s1, Refused("persistence_failed"))
               else DoRecord(s1, job, batch, restored.added, saveJobs, saveUndo)
  {
    hide Persist, Restore, DoRecord;
  }

  lemma AcknowledgeAnswers(s: Node, job: JobId, batch: seq<Event>, order: seq<DeviceId>, now: nat,
                           saveBook: Save, saveJobs: Save, saveUndo: Save)
    requires ExpiryOrder(s.book, order, now)
    ensures var (s', reply) := DoAcknowledge(s, job, batch, order, now, saveBook, saveJobs, saveUndo);
            AcknowledgeTells(s, s', job, batch, now, saveBook, saveJobs, saveUndo, reply)
  {
    hide *;
    var (b, restored) := Restore(s.jobs, s.book, job, order, now);
    var s1 := s.(book := b, bookCopy := Persist(s.bookCopy, b, saveBook));
    RestoreAnswers(s.jobs, s.book, job, order, now);
    if restored.Fence? { RecordAnswers(s1, job, batch, restored.added, saveJobs, saveUndo); }
    AcknowledgeUnfolds(s, s1, restored, job, batch, order, now, saveBook, saveJobs, saveUndo);
    var (s', reply) := DoAcknowledge(s, job, batch, order, now, saveBook, saveJobs, saveUndo);
    AcknowledgeTold(s, s', b, restored, job, batch, now, saveBook, saveJobs, saveUndo, reply);
  }

  lemma ProgressAnswers(s: Node, step: Step)
    requires Possible(s, step) && step.Progress?
    ensures var (s', reply) := Exec(s, step);
            ProgressTells(s, s', step.peer, step.job, step.batch, step.terminal, step.now,
                          step.saveBook, step.saveJobs, step.saveUndo, reply)
  {
    hide DoFinish, DoAcknowledge, FinishTells, AcknowledgeTells, IsOrderOf, ExpiryOrder, FencedBy;
    if step.terminal {
      FinishAnswers(s, step.job, step.batch, step.order, step.now, step.saveBook, step.saveJobs);
    } else {
      AcknowledgeAnswers(s, step.job, step.batch, step.order, step.now, step.saveBook, step.saveJobs, step.saveUndo);
    }
  }

  // ---------------------------------------------------------------- cancellations

  /** Only the client who submitted a job may cancel it. A dispatched job is marked for its agent and stays pending;
      any other leaves the pending map, and an event says so. */
  ghost predicate CancelTells(s: Node, s': Node, peer: PeerId, job: JobId, save: Save, reply: Reply) {
    if job !in s.jobs.clients || s.jobs.clients[job] != peer then
      s' == s && reply == Refused("apple_cancel_access_denied")
    else if job !in s.jobs.pending then s' == s && reply == Refused("unknown_job")
    else
      && (job in s.jobs.dispatched ==> s'.jobs == s.jobs.(cancelled := s.jobs.cancelled + {job}))
      && (job !in s.jobs.dispatched ==>
            s'.jobs == s.jobs.(pending := s.jobs.pending - {job},
                               events := s.jobs.events[job := Known(s.jobs, job) + [Event(1, Cancelled)]]))
      && s' == s.(jobs := s'.jobs, jobsCopy := Persist(s.jobsCopy, s'.jobs, save))
      && reply == if save.Complete? then Done else Refused("registry_stopped")
  }

  lemma CancelAnswers(s: Node, step: Step)
    requires Possible(s, step) && step.Cancel?
    ensures var (s', reply) := Exec(s, step); CancelTells(s, s', step.peer, step.job, step.save, reply)
  {
    hide Persist, Held;
  }

  // ---------------------------------------------------------------- expiry and starts

  ghost predicate ExpireTells(s: Node, s': Node, now: nat, save: Save, reply: Reply) {
    && Lapsed(s.book, s'.book, now)
    && s' == s.(book := s'.book, bookCopy := Persist(s.bookCopy, s'.book, save))
    && reply == if save.Complete? then Done else Refused("persistence_failed")
  }

  lemma ExpireAnswers(s: Node, step: Step)
    requires Possible(s, step) && step.Expire?
    ensures var (s', reply) := Exec(s, step); ExpireTells(s, s', step.now, step.save, reply)
  {
    ExpiryLapses(s.book, step.order, step.now);
    hide Persist, Held, ReleaseAll, Lapsed;
  }

  /** The registry that comes up on `jobs` and `book`: no host has announced itself, and nothing is under way. */
  ghost predicate ComesUp(s': Node, jobs: Jobs, book: Book, jobsCopy: Copy<Jobs>, bookCopy: Copy<Book>) {
    s' == Node(jobs, book, map[], {}, jobsCopy, bookCopy, true)
  }

  ghost predicate StaysDown(s': Node, jobsCopy: Copy<Jobs>, bookCopy: Copy<Book>) {
    !s'.running && s'.jobsCopy == jobsCopy && s'.bookCopy == bookCopy
  }

  /** A start goes on from the files. Leases that have run out are given up, and that is saved. Fences of jobs that
      are not acknowledged and pending are dropped, and if there are any both files are saved. Where a save fails
      the start fails. */
  ghost predicate RestartTells(s: Node, s': Node, now: nat, saveBook: Save, saveJobs: Save, saveAgain: Save) {
    var found := Held(s.jobsCopy);
    exists b: Book :: Lapsed(Held(s.bookCopy), b, now) &&
      var expired := Persist(s.bookCopy, b, saveBook);
      if !saveBook.Complete? then StaysDown(s', s.jobsCopy, expired)
      else if Unconfirmed(found, b) == {} then ComesUp(s', found, b, s.jobsCopy, expired)
      else
        exists r: Ledger :: FencesDropped(Ledger(b, found.devicePeers), r, Unconfirmed(found, b), now) &&
          var jobs := found.(devicePeers := r.devicePeers);
          var jobsCopy, bookCopy := Persist(s.jobsCopy, jobs, saveJobs), Persist(expired, r.book, saveAgain);
          if !saveJobs.Complete? then StaysDown(s', jobsCopy, expired)
          else if !saveAgain.Complete? then StaysDown(s', jobsCopy, bookCopy)
          else ComesUp(s', jobs, r.book, jobsCopy, bookCopy)
  }

  /** A start on an expired book `b`. */
  lemma StartsOn(s: Node, b: Book, order: seq<DeviceId>, undo: seq<DeviceId>, now: nat,
                 saveBook: Save, saveJobs: Save, saveAgain: Save)
    requires b == ReleaseAll(Held(s.bookCopy), order, now)
    requires undo == [] <==> Unconfirmed(Held(s.jobsCopy), b) == {}
    ensures var found, s' := Held(s.jobsCopy), DoRestart(s, order, undo, now, saveBook, saveJobs, saveAgain);
            var r, expired := UnfenceAll(Ledger(b, found.devicePeers), undo, now), Persist(s.bookCopy, b, saveBook);
            var jobs := found.(devicePeers := r.devicePeers);
            var jobsCopy, bookCopy := Persist(s.jobsCopy, jobs, saveJobs), Persist(expired, r.book, saveAgain);
            if !saveBook.Complete? then StaysDown(s', s.jobsCopy, expired)
            else if Unconfirmed(found, b) == {} then ComesUp(s', found, b, s.jobsCopy, expired)
            else if !saveJobs.Complete? then StaysDown(s', jobsCopy, expired)
            else if !saveAgain.Complete? then StaysDown(s', jobsCopy, bookCopy)
            else ComesUp(s', jobs, r.book, jobsCopy, bookCopy)
  {
    hide Persist, Held, ReleaseAll, Unconfirmed;
  }

  lemma RestartAnswers(s: Node, step: Step)
    requires Possible(s, step) && step.Restart?
    ensures RestartTells(s, Exec(s, step).0, step.now, step.saveBook, step.saveJobs, step.saveAgain)
  {
    var found, b := Held(s.jobsCopy), ReleaseAll(Held(s.bookCopy), step.order, step.now);
    ExpiryLapses(Held(s.bookCopy), step.order, step.now);
    assert Orphans(found, b) == Unconfirmed(found, b);
    DropsFences(Ledger(b, found.devicePeers), step.undo, Unconfirmed(found, b), step.now);
    if step.undo == [] { OrderIsAll(step.undo, Unconfirmed(found, b)); }
    if Unconfirmed(found, b) == {} { OrderOfNothing(step.undo); }
    StartsOn(s, b, step.order, step.undo, step.now, step.saveBook, step.saveJobs, step.saveAgain);
    hide Persist, Held, ReleaseAll, Unconfirmed, Lapsed, FencesDropped, UnfenceAll, DoRestart, StaysDown, ComesUp,
         IsOrderOf, ExpiryOrder, Orphans;
  }

  lemma OrderIsAll(order: seq<DeviceId>, s: set<DeviceId>)
    requires IsOrderOf(order, s) && order == []
    ensures s == {}
  {
    assert forall x | x in s :: x in order;
  }

  // ---------------------------------------------------------------- all of them

  ghost predicate StepTells(s: Node, step: Step, s': Node, reply: Reply) {
    match step
    case Inventory(peer, isAgent, host, connected, _, now, save) =>
      InventoryTells(s, s', peer, isAgent, host, connected, now, save, reply)
    case Expire(_, now, save) => ExpireTells(s, s', now, save, reply)
    case Announce(host, snapshot) => s' == s.(hosts := s.hosts[host := snapshot]) && reply == Done
    case Dispatch(host, _, _, _, now, saveBook, saveJobs, saveUndo) =>
      DispatchTells(s, s', host, now, saveBook, saveJobs, saveUndo, reply)
    case Admit(peer, request, _, now, save) => AdmitTells(s, s', peer, request, now, save, reply)
    case Create(peer, request, _, offline, now, save) =>
      CreateTells(s, s', peer, request, offline, now, save, reply)
    case Progress(peer, job, batch, terminal, _, now, saveBook, saveJobs, saveUndo) =>
      ProgressTells(s, s', peer, job, batch, terminal, now, saveBook, saveJobs, saveUndo, reply)
    case Cancel(peer, job, save) => CancelTells(s, s', peer, job, save, reply)
    case LeaseOp(peer, isAgent, request, _, _, now, saveBook, saveJobs) =>
      LeaseTells(s, s', peer, isAgent, request, now, saveBook, saveJobs, reply)
    case Restart(_, _, now, saveBook, saveJobs, saveAgain) =>
      RestartTells(s, s', now, saveBook, saveJobs, saveAgain)
  }

  lemma AnnounceAnswers(s: Node, step: Step)
    requires Possible(s, step) && step.Announce?
    ensures Exec(s, step) == (s.(hosts := s.hosts[step.host := step.snapshot]), Done)
  {
  }

  /** Every step of the registry does and answers what its kind demands. */
  lemma StepAnswers(s: Node, step: Step)
    requires LifeInv(s) && Possible(s, step)
    ensures StepTells(s, step, Exec(s, step).0, Exec(s, step).1)
  {
    hide LifeInv, Possible, Exec, InventoryTells, ExpireTells, DispatchTells, AdmitTells, CreateTells, ProgressTells,
         CancelTells, LeaseTells, RestartTells;
    match step
    case Inventory(_, _, _, _, _, _, _) => InventoryAnswers(s, step);
    case Expire(_, _, _) => ExpireAnswers(s, step);
    case Announce(_, _) => AnnounceAnswers(s, step);
    case Dispatch(_, _, _, _, _, _, _, _) => DispatchAnswers(s, step);
    case Admit(_, _, _, _, _) => AdmitAnswers(s, step);
    case Create(_, _, _, _, _, _) => CreateAnswers(s, step);
    case Progress(_, _, _, _, _, _, _, _, _) => ProgressAnswers(s, step);
    case Cancel(_, _, _) => CancelAnswers(s, step);
    case LeaseOp(_, _, _, _, _, _, _, _) => LeaseOpAnswers(s, step);
    case Restart(_, _, _, _, _, _) => RestartAnswers(s, step);
  }
}
