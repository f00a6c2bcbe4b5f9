/** Theorems over whole runs of the registry: requests in any order, failing saves, crashes and restarts. */
module RegistryRuns {
  import opened Common
  import opened AppleProtocol
  import opened Leases
  import opened Persistence
  import opened RegistryState
  import opened RegistryInvariant
  import opened EventReports

  // ---------------------------------------------------------------- the invariant over runs

  /** Saves have been careful all along if they have been up to now. */
  lemma StepCareful(s: Node, step: Step)
    requires Possible(s, step) && Careful(Exec(s, step).0)
    ensures Careful(s)
  {
    hide Persist, Held, DoInventory, DoDispatch, DoProgress, DoLease, DoRestart, ReleaseAll, HandOut;
    match step
    case Inventory(peer, isAgent, host, connected, order, now, save) =>
      InventoryShape(s, peer, isAgent, host, connected, order, now, save);
    case Expire(_, _, _) =>
    case Announce(_, _) =>
    case Dispatch(_, pick, order, undo, now, saveBook, saveJobs, saveUndo) =>
      DispatchCareful(s, pick, order, undo, now, saveBook, saveJobs, saveUndo);
    case Admit(_, _, _, _, _) =>
    case Create(_, _, _, _, _, _) =>
    case Progress(peer, job, batch, terminal, order, now, saveBook, saveJobs, saveUndo) =>
      ProgressCareful(s, peer, job, batch, terminal, order, now, saveBook, saveJobs, saveUndo);
    case Cancel(_, _, _) =>
    case LeaseOp(peer, isAgent, request, order, visit, now, saveBook, saveJobs) =>
      LeaseShape(s, peer, isAgent, request, order, visit, now, saveBook, saveJobs);
    case Restart(order, undo, now, saveBook, saveJobs, saveAgain) =>
      RestartShape(s, order, undo, now, saveBook, saveJobs, saveAgain);
  }

  lemma DispatchCareful(s: Node, pick: Option<JobId>, order: seq<DeviceId>, undo: seq<DeviceId>, now: nat,
                        saveBook: Save, saveJobs: Save, saveUndo: Save)
    requires pick.Some? ==> pick.value in s.jobs.pending
    requires Careful(DoDispatch(s, pick, order, undo, now, saveBook, saveJobs, saveUndo).0)
    ensures Careful(s)
  {
    if pick.None? { FinishDispatchShape(s, s.jobs, Done, pick, undo, now, saveJobs, saveUndo); }
    else {
      var h := HandOut(s, pick.value, order, now, saveBook);
      HandOutShape(s, pick.value, order, now, saveBook);
      FinishDispatchShape(h.node, h.jobs, h.reply, pick, undo, now, saveJobs, saveUndo);
    }
    hide Persist, Held, HandOut, FinishDispatch, MarkDispatched, PushEvent;
  }

  lemma ProgressCareful(s: Node, peer: PeerId, job: JobId, batch: seq<Event>, terminal: bool, order: seq<DeviceId>,
                        now: nat, saveBook: Save, saveJobs: Save, saveUndo: Save)
    requires Careful(DoProgress(s, peer, job, batch, terminal, order, now, saveBook, saveJobs, saveUndo).0)
    ensures Careful(s)
  {
    hide Persist, Held, DoFinish, DoAcknowledge, Restore;
    if terminal { FinishShape(s, job, batch, order, now, saveBook, saveJobs); }
    else { AcknowledgeHasShape(s, job, batch, order, now, saveBook, saveJobs, saveUndo); }
  }

  lemma {:induction false} RunCareful(s: Node, run: seq<Step>)
    requires PossibleRun(s, run) && Careful(After(s, run))
    ensures Careful(s)
    decreases |run|
  {
    hide Possible, Exec, Careful;
    if run != [] {
      RunCareful(Exec(s, run[0]).0, run[1..]);
      StepCareful(s, run[0]);
    }
  }

  // -- starting

  /** What a start finds in the files, and what it makes of it. */
  ghost predicate StartsFrom(s: Node, order: seq<DeviceId>, undo: seq<DeviceId>, now: nat, s': Node) {
    var b1 := ReleaseAll(Held(s.bookCopy), order, now);
    var (jobs, book) := Reconcile(Held(s.jobsCopy), b1, undo, now);
    && (if s'.running then s'.jobs == jobs && s'.book == book
        else s'.jobs == s.jobs && (s'.book == b1 || s'.book == book))
    && s'.admitted == {}
    && (s'.jobsCopy.careful ==>
          && s.jobsCopy.careful
          && (Held(s'.jobsCopy) == Held(s.jobsCopy) || Held(s'.jobsCopy) == jobs))
    && (s'.bookCopy.careful ==>
          && s.bookCopy.careful
          && (Held(s'.bookCopy) == Held(s.bookCopy) || Held(s'.bookCopy) == b1 || Held(s'.bookCopy) == s'.book)
          && (s'.running ==> Held(s'.bookCopy) == book))
  }

  lemma RestartShape(s: Node, order: seq<DeviceId>, undo: seq<DeviceId>, now: nat,
                     saveBook: Save, saveJobs: Save, saveAgain: Save)
    ensures StartsFrom(s, order, undo, now, DoRestart(s, order, undo, now, saveBook, saveJobs, saveAgain))
  {
    if undo == [] { ReconcilesNothing(Held(s.jobsCopy), ReleaseAll(Held(s.bookCopy), order, now), now); }
    hide Persist, Held, ReleaseAll, Reconcile;
  }

  lemma ReconcilesNothing(jobs: Jobs, b: Book, now: nat)
    ensures Reconcile(jobs, b, [], now) == (jobs, b)
  {
  }

  /** The book a start reaches: the one in the files, expired, and then without the orphaned fences. */
  lemma RestartBook(s: Node, order: seq<DeviceId>, undo: seq<DeviceId>, now: nat)
    requires NodeInv(s) && IsOrderOf(undo, Orphans(Held(s.jobsCopy), ReleaseAll(Held(s.bookCopy), order, now)))
    ensures var saved, jobs := Held(s.bookCopy), Held(s.jobsCopy);
            var b1 := ReleaseAll(saved, order, now);
            var (jobs', book) := Reconcile(jobs, b1, undo, now);
            && Keeps(jobs, saved, b1, {}) && b1.writers == saved.writers
            && Keeps(jobs, saved, book, Orphans(jobs, b1)) && book.writers == saved.writers - Orphans(jobs, b1)
            && b1.grants <= book.grants
            && jobs' == jobs.(devicePeers := jobs'.devicePeers)
  {
    var saved, jobs := Held(s.bookCopy), Held(s.jobsCopy);
    var b1 := ReleaseAll(saved, order, now);
    var l := Ledger(b1, jobs.devicePeers);
    var orphans := Orphans(jobs, b1);
    ReleaseAllKeeps(jobs, saved, order, now);
    ReleaseAllWriters(saved, order, now);
    UnfenceAllKeeps(jobs, l, undo, orphans, now);
    UnfenceAllWriters(l, undo, orphans, now);
    KeepsCompose(jobs, saved, b1, UnfenceAll(l, undo, now).book, {}, orphans);
    assert {} + orphans == orphans;
  }

  /** Fences that a start takes over stay named by the jobs they were named by. */
  lemma FencesTakenOver(known: Jobs, jobs: Jobs, saved: Book, book: Book, gone: set<DeviceId>)
    requires FencesNamed(saved, known) && Keeps(jobs, saved, book, gone) && book.writers == saved.writers - gone
    ensures FencesNamed(book, known)
  {
    forall d | d in book.writers ensures FenceNamed(book, d, known) {
      assert SameHold(saved, book, d) && FenceNamed(saved, d, known);
    }
  }

  /** Those whose jobs are acknowledged and pending are named by the job maps in the files. */
  lemma FencesFound(known: Jobs, jobs: Jobs, book: Book)
    requires FencesNamed(book, known) && JobsInv(jobs) && JobsWithin(jobs, known) && Orphans(jobs, book) == {}
    ensures FencesNamed(book, jobs)
  {
    forall d | d in book.writers ensures FenceNamed(book, d, jobs) {
      assert FenceNamed(book, d, known);
      assert d !in Orphans(jobs, book);
    }
  }

  lemma OrphansGone(jobs: Jobs, b1: Book, book: Book)
    requires book.writers == b1.writers - Orphans(jobs, b1)
    ensures Orphans(jobs, book) == {}
  {
  }

  /** The fences a start leaves standing name acknowledged, pending jobs and their own leases. */
  lemma RestartFences(s: Node, step: Step)
    requires NodeInv(s) && Possible(s, step) && step.Restart? && Exec(s, step).0.running
    ensures var s' := Exec(s, step).0;
            FencesNamed(s'.book, s'.jobs) && Orphans(s'.jobs, s'.book) == {}
  {
    hide Held, Persist, Keeps, DoRestart, ReleaseAll, Reconcile, Orphans, JobsInv, BookInv, AllNamed;
    var saved, jobs := Held(s.bookCopy), Held(s.jobsCopy);
    var b1 := ReleaseAll(saved, step.order, step.now);
    var (jobs', book) := Reconcile(jobs, b1, step.undo, step.now);
    RestartShape(s, step.order, step.undo, step.now, step.saveBook, step.saveJobs, step.saveAgain);
    RestartBook(s, step.order, step.undo, step.now);
    FencesTakenOver(s.jobs, jobs, saved, book, Orphans(jobs, b1));
    OrphansGone(jobs, b1, book);
    SameOrphans(jobs, jobs', book);
    SameJobs(jobs, jobs', s.jobs);
    FencesFound(s.jobs, jobs', book);
  }

  lemma SameOrphans(jobs: Jobs, jobs': Jobs, b: Book)
    requires jobs' == jobs.(devicePeers := jobs'.devicePeers)
    ensures Orphans(jobs', b) == Orphans(jobs, b)
  {
  }

  lemma SameJobs(jobs: Jobs, jobs': Jobs, known: Jobs)
    requires jobs' == jobs.(devicePeers := jobs'.devicePeers) && JobsInv(jobs) && JobsWithin(jobs, known)
    ensures JobsInv(jobs') && JobsWithin(jobs', known) && JobsWithin(jobs, jobs') && JobsWithin(jobs', jobs')
  {
  }

  lemma RestartLives(s: Node, step: Step)
    requires NodeInv(s) && Possible(s, step) && step.Restart?
    ensures LifeInv(Exec(s, step).0)
  {
    hide Held, Persist, DoRestart, ReleaseAll, Reconcile, Orphans, JobsInv, BookInv, AllNamed, FencesNamed;
    var saved, jobs := Held(s.bookCopy), Held(s.jobsCopy);
    var b1 := ReleaseAll(saved, step.order, step.now);
    var (jobs', book) := Reconcile(jobs, b1, step.undo, step.now);
    RestartShape(s, step.order, step.undo, step.now, step.saveBook, step.saveJobs, step.saveAgain);
    RestartBook(s, step.order, step.undo, step.now);
    if Exec(s, step).0.running {
      RestartFences(s, step);
      SameJobs(jobs, jobs', s.jobs);
    } else {
      FencesTakenOver(s.jobs, jobs, saved, b1, {});
      FencesTakenOver(s.jobs, jobs, saved, book, Orphans(jobs, b1));
    }
  }

  lemma RestartInv(s: Node, step: Step)
    requires NodeInv(s) && Possible(s, step) && step.Restart? && Careful(Exec(s, step).0)
    ensures NodeInv(Exec(s, step).0)
  {
    hide Held, Persist, DoRestart, ReleaseAll, Reconcile, Orphans, JobsInv, BookInv, AllNamed, FencesNamed, JobsWithin;
    var s' := Exec(s, step).0;
    var saved, jobs := Held(s.bookCopy), Held(s.jobsCopy);
    var b1 := ReleaseAll(saved, step.order, step.now);
    var (jobs', book) := Reconcile(jobs, b1, step.undo, step.now);
    RestartLives(s, step);
    RestartShape(s, step.order, step.undo, step.now, step.saveBook, step.saveJobs, step.saveAgain);
    RestartBook(s, step.order, step.undo, step.now);
    SameJobs(jobs, jobs', s.jobs);
    FencesTakenOver(s.jobs, jobs, saved, b1, {});
    RestartNamed(s, step);
  }

  /** Every submission a start finds names a lease the lease file knows to have been issued. */
  lemma RestartNamed(s: Node, step: Step)
    requires NodeInv(s) && Possible(s, step) && step.Restart? && Careful(Exec(s, step).0)
    ensures AllNamed(Exec(s, step).0)
  {
    hide Held, Persist, DoRestart, ReleaseAll, Reconcile, Orphans, JobsInv, BookInv, FencesNamed;
    var s' := Exec(s, step).0;
    RestartShape(s, step.order, step.undo, step.now, step.saveBook, step.saveJobs, step.saveAgain);
    RestartBook(s, step.order, step.undo, step.now);
    NamedWithin(s.jobs, s'.jobs, Held(s.bookCopy).grants, Held(s'.bookCopy).grants);
  }

  lemma NamedWithin(known: Jobs, jobs: Jobs, old_: seq<Grant>, new_: seq<Grant>)
    requires LeasesNamed(known, old_) && JobsWithin(jobs, known) && old_ <= new_
    ensures LeasesNamed(jobs, new_)
  {
    forall k | k in jobs.operations && JobId(k) in jobs.clients
      ensures NamesGrant(jobs.operations[k], jobs.clients[JobId(k)], new_)
    {
      assert NamesGrant(known.operations[k], known.clients[JobId(k)], old_);
    }
  }

  // -- steps and runs

  /** Within one life of the process memory keeps its invariant, whatever becomes of the saves. */
  lemma LifeStep(s: Node, step: Step)
    requires LifeInv(s) && Possible(s, step) && !step.Restart?
    ensures LifeInv(Exec(s, step).0)
  {
    hide LifeInv, Advance, Possible, Exec;
    StepAdvances(s, step);
    AdvanceLives(s, Exec(s, step).0, DoneBy(s, step), Ended(s, step));
  }

  /** Every step of the registry, a start included, keeps the invariant in memory and on disk, as long as its
      saves are careful. */
  lemma StepInv(s: Node, step: Step)
    requires NodeInv(s) && Possible(s, step) && Careful(Exec(s, step).0)
    ensures NodeInv(Exec(s, step).0)
  {
    if step.Restart? {
      RestartInv(s, step);
    } else {
      hide LifeInv, DiskInv, Advance, AllNamed, Possible, Exec;
      StepAdvances(s, step);
      StepNamed(s, step);
      AdvanceInv(s, Exec(s, step).0, DoneBy(s, step), Ended(s, step));
    }
  }

  lemma {:induction false} RunInv(s: Node, run: seq<Step>)
    requires NodeInv(s) && PossibleRun(s, run) && Careful(After(s, run))
    ensures NodeInv(After(s, run))
    decreases |run|
  {
    hide NodeInv, Possible, Exec, Careful;
    if run != [] {
      RunCareful(Exec(s, run[0]).0, run[1..]);
      StepInv(s, run[0]);
      RunInv(Exec(s, run[0]).0, run[1..]);
    }
  }

  lemma NewNodeInv()
    ensures NodeInv(NEW_NODE)
  {
  }

  // ---------------------------------------------------------------- a fence stays where it is

  /** No step of the run is a restart or one that may end the fence on `d`. */
  ghost predicate Undisturbed(s: Node, run: seq<Step>, d: DeviceId)
    requires PossibleRun(s, run)
    decreases |run|
  {
    run != [] ==>
      && !run[0].Restart? && d !in Ended(s, run[0])
      && Undisturbed(Exec(s, run[0]).0, run[1..], d)
  }

  /** While its job runs, a writer keeps its device: through every release, revocation, disconnect, expiry
      and inventory detach the fence names the same job and the lease keeps its id and holder, which are
      the ones the job's request names. Three things end a fence within one life of the process: the job's
      terminal report, the device's agent detaching it, and, for a job nobody has acknowledged, the roll-back
      of a heartbeat whose state save failed. */
  lemma {:induction false} FenceStable(s: Node, run: seq<Step>, d: DeviceId)
    requires LifeInv(s) && PossibleRun(s, run) && d in s.book.writers && Undisturbed(s, run, d)
    ensures SameHold(s.book, After(s, run).book, d)
    ensures FenceNamed(After(s, run).book, d, After(s, run).jobs)
    decreases |run|
  {
    if run == [] {
      assert FenceNamed(s.book, d, s.jobs);
    } else {
      hide LifeInv, FenceNamed, Possible, Exec, Grow, JobsInv;
      var s' := Exec(s, run[0]).0;
      LifeStep(s, run[0]);
      StepAdvances(s, run[0]);
      assert SameHold(s.book, s'.book, d);
      FenceStable(s', run[1..], d);
    }
  }

  // ---------------------------------------------------------------- an answered report survives crashes

  /** Job `job` is running on `d` under lease `id`, as far as these maps know. */
  ghost predicate Running(jobs: Jobs, b: Book, d: DeviceId, job: JobId, id: nat, client: PeerId) {
    Runs(b, d, job, id, client) && job in jobs.pending && job in jobs.acknowledged && job in jobs.dispatched
  }

  ghost predicate Runs(b: Book, d: DeviceId, job: JobId, id: nat, client: PeerId) {
    d in b.writers && b.writers[d] == job && Holds(b, d, id, client)
  }

  /** ... both in memory and in the files. */
  ghost predicate Durable(s: Node, d: DeviceId, job: JobId, id: nat, client: PeerId) {
    Running(s.jobs, s.book, d, job, id, client) && Running(Held(s.jobsCopy), Held(s.bookCopy), d, job, id, client)
  }

  /** The only two events that take the device away from an acknowledged job. */
  ghost predicate TakesAway(s: Node, step: Step, d: DeviceId, job: JobId) {
    || job in DoneBy(s, step)
    || (step.LeaseOp? && d in DetachedBy(step.lease, s.jobs.devicePeers, step.isAgent, step.peer))
  }

  ghost predicate Kept(s: Node, run: seq<Step>, d: DeviceId, job: JobId)
    requires PossibleRun(s, run)
    decreases |run|
  {
    run != [] ==> !TakesAway(s, run[0], d, job) && Kept(Exec(s, run[0]).0, run[1..], d, job)
  }

  /** A progress report that was answered has put the fence, the lease and the acknowledgement on disk. */
  lemma AnsweredReportIsDurable(s: Node, job: JobId, batch: seq<Event>, order: seq<DeviceId>, now: nat,
                                saveBook: Save, saveJobs: Save, saveUndo: Save)
    requires DoAcknowledge(s, job, batch, order, now, saveBook, saveJobs, saveUndo).1 == Done
    requires Careful(DoAcknowledge(s, job, batch, order, now, saveBook, saveJobs, saveUndo).0)
    requires job in s.jobs.pending && s.jobs.pending[job].operation.MutatesDevice() && job in s.jobs.dispatched
    ensures var request := s.jobs.pending[job];
            && request.device.Some? && request.lease.Some? && job in s.jobs.clients
            && Durable(DoAcknowledge(s, job, batch, order, now, saveBook, saveJobs, saveUndo).0,
                       request.device.value, job, request.lease.value, s.jobs.clients[job])
  {
    hide ReleaseAll, Restore, Acknowledge, Persist, Held;
    RestoredRuns(s.jobs, s.book, job, batch, order, now);
  }

  lemma RestoredRuns(jobs: Jobs, b: Book, job: JobId, batch: seq<Event>, order: seq<DeviceId>, now: nat)
    requires job in jobs.pending && jobs.pending[job].operation.MutatesDevice() && job in jobs.dispatched
    requires Restore(jobs, b, job, order, now).1.Fence?
    ensures var request := jobs.pending[job];
            && request.device.Some? && request.lease.Some? && job in jobs.clients
            && Running(Acknowledge(jobs, job, batch), Restore(jobs, b, job, order, now).0,
                       request.device.value, job, request.lease.value, jobs.clients[job])
  {
    hide ReleaseAll;
  }

  lemma RunningStep(s: Node, step: Step, d: DeviceId, job: JobId, id: nat, client: PeerId)
    requires NodeInv(s) && Possible(s, step) && !step.Restart?
    requires Careful(Exec(s, step).0)
    requires Durable(s, d, job, id, client) && !TakesAway(s, step, d, job)
    ensures Durable(Exec(s, step).0, d, job, id, client)
  {
    NotEnded(s, step, d, job, id, client);
    hide NodeInv, LifeInv, DiskInv, Advance, Durable, Possible, Exec, Careful, DoneBy, Ended;
    assert LifeInv(s) by { LivesToo(s); }
    StepAdvances(s, step);
    RunningAdvance(s, Exec(s, step).0, DoneBy(s, step), Ended(s, step), d, job, id, client);
  }

  lemma LivesToo(s: Node)
    requires NodeInv(s)
    ensures LifeInv(s)
  {
  }

  lemma NotEnded(s: Node, step: Step, d: DeviceId, job: JobId, id: nat, client: PeerId)
    requires Durable(s, d, job, id, client) && !TakesAway(s, step, d, job)
    ensures job !in DoneBy(s, step) && d !in Ended(s, step)
  {
  }

  lemma RunningAdvance(s: Node, s': Node, done: set<JobId>, ended: set<DeviceId>,
                       d: DeviceId, job: JobId, id: nat, client: PeerId)
    requires Advance(s, s', done, ended) && Careful(s')
    requires job !in done && d !in ended && Durable(s, d, job, id, client)
    ensures Durable(s', d, job, id, client)
  {
    hide Persist, Held, JobsInv, BookInv;
    assert SameHold(s.book, s'.book, d);
  }

  lemma RunningRestart(s: Node, step: Step, d: DeviceId, job: JobId, id: nat, client: PeerId)
    requires NodeInv(s) && Possible(s, step) && step.Restart? && Durable(s, d, job, id, client)
    requires Careful(Exec(s, step).0)
    ensures Durable(Exec(s, step).0, d, job, id, client)
  {
    hide Held, Persist, DoRestart, ReleaseAll, Reconcile, NodeInv, Keeps, Runs, Orphans;
    var saved, jobs := Held(s.bookCopy), Held(s.jobsCopy);
    var b1 := ReleaseAll(saved, step.order, step.now);
    var (jobs', book) := Reconcile(jobs, b1, step.undo, step.now);
    RestartShape(s, step.order, step.undo, step.now, step.saveBook, step.saveJobs, step.saveAgain);
    RestartBook(s, step.order, step.undo, step.now);
    RunningIsNoOrphan(jobs, saved, b1, d, job, id, client);
    RunsOn(jobs, saved, b1, {}, d, job, id, client);
    RunsOn(jobs, saved, book, Orphans(jobs, b1), d, job, id, client);
  }

  lemma RunningIsNoOrphan(jobs: Jobs, saved: Book, b: Book, d: DeviceId, job: JobId, id: nat, client: PeerId)
    requires Running(jobs, saved, d, job, id, client) && b.writers == saved.writers
    ensures d !in Orphans(jobs, b)
  {
  }

  lemma RunsOn(jobs: Jobs, b: Book, b': Book, gone: set<DeviceId>, d: DeviceId, job: JobId, id: nat, client: PeerId)
    requires Keeps(jobs, b, b', gone) && d !in gone && Runs(b, d, job, id, client)
    ensures Runs(b', d, job, id, client)
  {
    assert SameHold(b, b', d);
  }

  /** Once an agent's progress report has been answered, nothing but the job's terminal report or the
      agent's own detach takes the device away from the job: no client request, no expiry, no failing
      save, and no crash followed by a restart. Saves may stop anywhere except where they lose the snapshot
      they replace; see module `RegistryRollBacks`. */
  lemma {:induction false} DurableStable(s: Node, run: seq<Step>, d: DeviceId, job: JobId, id: nat, client: PeerId)
    requires NodeInv(s) && PossibleRun(s, run) && Careful(After(s, run))
    requires Durable(s, d, job, id, client) && Kept(s, run, d, job)
    ensures Durable(After(s, run), d, job, id, client)
    decreases |run|
  {
    if run != [] {
      hide NodeInv, Durable, TakesAway, Possible, Exec, Careful;
      RunCareful(Exec(s, run[0]).0, run[1..]);
      StepInv(s, run[0]);
      if run[0].Restart? { RunningRestart(s, run[0], d, job, id, client); }
      else { RunningStep(s, run[0], d, job, id, client); }
      DurableStable(Exec(s, run[0]).0, run[1..], d, job, id, client);
    }
  }

  // ---------------------------------------------------------------- life of a job

  /** In every careful step, start included, both copies of the job maps grow out of one of the two. */
  ghost predicate JobsMove(s: Node, s': Node, done: set<JobId>) {
    && (Grow(s.jobs, s'.jobs, done) || Grow(Held(s.jobsCopy), s'.jobs, done))
    && (Held(s'.jobsCopy) == Held(s.jobsCopy)
        || Grow(s.jobs, Held(s'.jobsCopy), done) || Grow(Held(s.jobsCopy), Held(s'.jobsCopy), done))
  }

  lemma StepMoves(s: Node, step: Step)
    requires NodeInv(s) && Possible(s, step) && Careful(Exec(s, step).0)
    ensures JobsMove(s, Exec(s, step).0, DoneBy(s, step))
  {
    if step.Restart? {
      var jobs := Held(s.jobsCopy);
      RestartShape(s, step.order, step.undo, step.now, step.saveBook, step.saveJobs, step.saveAgain);
      RestartBook(s, step.order, step.undo, step.now);
      hide Held, Persist, Keeps, DoRestart, ReleaseAll, BookInv, AllNamed;
      GrowSame(jobs, Reconcile(jobs, ReleaseAll(Held(s.bookCopy), step.order, step.now), step.undo, step.now).0);
      GrowSame(s.jobs, s.jobs);
    } else {
      StepAdvances(s, step);
      hide Grow, Keeps, Held, NodeInv, Possible, Exec;
    }
  }

  /** The job has been acknowledged, rejected, withdrawn or finished. */
  ghost predicate Closed(jobs: Jobs, job: JobId) {
    job in jobs.clients && (job !in jobs.pending || job in jobs.acknowledged)
  }

  lemma ClosedStep(s: Node, step: Step, job: JobId)
    requires NodeInv(s) && Possible(s, step) && Careful(Exec(s, step).0)
    requires Closed(s.jobs, job) && Closed(Held(s.jobsCopy), job)
    ensures Closed(Exec(s, step).0.jobs, job) && Closed(Held(Exec(s, step).0.jobsCopy), job)
  {
    StepMoves(s, step);
    ClosedMove(s, Exec(s, step).0, DoneBy(s, step), job);
  }

  lemma ClosedMove(s: Node, s': Node, done: set<JobId>, job: JobId)
    requires JobsMove(s, s', done) && Closed(s.jobs, job) && Closed(Held(s.jobsCopy), job)
    ensures Closed(s'.jobs, job) && Closed(Held(s'.jobsCopy), job)
  {
  }

  lemma PickIsOpen(s: Node, step: Step, job: JobId)
    requires Possible(s, step) && step.Dispatch? && Closed(s.jobs, job)
    ensures step.pick != Some(job)
  {
  }

  /** A job that has been acknowledged, rejected, withdrawn or finished is never handed out again, however
      often the registry restarts and wherever its saves stop, except where they lose the snapshot they
      replace; see module `RegistryRollBacks`. */
  lemma {:induction false} NeverHandedOutAgain(s: Node, run: seq<Step>, job: JobId)
    requires NodeInv(s) && PossibleRun(s, run) && Careful(After(s, run))
    requires Closed(s.jobs, job) && Closed(Held(s.jobsCopy), job)
    ensures forall i | 0 <= i < |run| && run[i].Dispatch? :: run[i].pick != Some(job)
    decreases |run|
  {
    hide NodeInv, Closed, Possible, Careful;
    if run != [] {
      RunCareful(Exec(s, run[0]).0, run[1..]);
      StepInv(s, run[0]);
      ClosedStep(s, run[0], job);
      NeverHandedOutAgain(Exec(s, run[0]).0, run[1..], job);
      if run[0].Dispatch? { PickIsOpen(s, run[0], job); }
      forall i | 0 < i < |run| && run[i].Dispatch? ensures run[i].pick != Some(job) {
        assert run[i] == run[1..][i - 1];
      }
    }
  }

  /** What closes a job for good: an answered report, or an answered cancellation before dispatch. */
  lemma ReportCloses(s: Node, peer: PeerId, job: JobId, batch: seq<Event>, terminal: bool, order: seq<DeviceId>,
                     now: nat, saveBook: Save, saveJobs: Save, saveUndo: Save)
    requires JobsInv(s.jobs)
    requires DoProgress(s, peer, job, batch, terminal, order, now, saveBook, saveJobs, saveUndo).1 == Done
    requires Careful(DoProgress(s, peer, job, batch, terminal, order, now, saveBook, saveJobs, saveUndo).0)
    ensures var s' := DoProgress(s, peer, job, batch, terminal, order, now, saveBook, saveJobs, saveUndo).0;
            Closed(s'.jobs, job) && Closed(Held(s'.jobsCopy), job)
  {
    hide UnfenceAll, Restore, AddEvents, Persist, Held;
  }

  lemma CancellationCloses(s: Node, peer: PeerId, job: JobId, save: Save)
    requires job !in s.jobs.dispatched && DoCancel(s, peer, job, save).1 == Done
    requires Careful(DoCancel(s, peer, job, save).0)
    ensures var s' := DoCancel(s, peer, job, save).0; Closed(s'.jobs, job) && Closed(Held(s'.jobsCopy), job)
  {
  }

  /** So does a rejection that was saved: a job whose lease has lapsed leaves the pending map for good. */
  lemma RejectionCloses(s: Node, job: JobId, order: seq<DeviceId>, undo: seq<DeviceId>, now: nat,
                        saveBook: Save, saveJobs: Save, saveUndo: Save)
    requires JobsInv(s.jobs) && job in s.jobs.pending
    requires DoDispatch(s, Some(job), order, undo, now, saveBook, saveJobs, saveUndo).1 == Done
    requires Careful(DoDispatch(s, Some(job), order, undo, now, saveBook, saveJobs, saveUndo).0)
    ensures var s' := DoDispatch(s, Some(job), order, undo, now, saveBook, saveJobs, saveUndo).0;
            && Closed(s'.jobs, job) && Closed(Held(s'.jobsCopy), job)
            && job !in s'.jobs.pending && job !in Held(s'.jobsCopy).pending
  {
    hide Persist, Held, ReleaseAll;
  }

  /** How often the run puts the job into the pending map. */
  ghost function Entries(s: Node, run: seq<Step>, job: JobId): nat
    requires PossibleRun(s, run)
    decreases |run|
  {
    if run == [] then 0
    else
      var s' := Exec(s, run[0]).0;
      (if job !in s.jobs.pending && job in s'.jobs.pending then 1 else 0) + Entries(s', run[1..], job)
  }

  /** Within one life of the process a job becomes pending at most once, whatever becomes of the saves. */
  lemma {:induction false} PendingOnce(s: Node, run: seq<Step>, job: JobId)
    requires LifeInv(s) && PossibleRun(s, run) && (forall step | step in run :: !step.Restart?)
    ensures Entries(s, run, job) <= (if job in s.jobs.clients then 0 else 1)
    decreases |run|
  {
    if run != [] {
      hide LifeInv, Possible, Exec, Keeps, JobsInv, ReportsGrow, MarksGrow;
      var s' := Exec(s, run[0]).0;
      assert !run[0].Restart?;
      LifeStep(s, run[0]);
      StepAdvances(s, run[0]);
      PendingKnown(s', job);
      PendingOnce(s', run[1..], job);
    }
  }

  lemma PendingKnown(s: Node, job: JobId)
    requires LifeInv(s)
    ensures job in s.jobs.pending ==> job in s.jobs.clients
  {
  }

  /** The job is known and no longer pending. */
  ghost predicate Left(jobs: Jobs, job: JobId) {
    job in jobs.clients && job !in jobs.pending
  }

  /** Once it has left the pending map, in memory and on disk, no restart brings it back. */
  lemma {:induction false} LeftForGood(s: Node, run: seq<Step>, job: JobId)
    requires NodeInv(s) && PossibleRun(s, run) && Careful(After(s, run))
    requires Left(s.jobs, job) && Left(Held(s.jobsCopy), job)
    ensures Entries(s, run, job) == 0 && Left(After(s, run).jobs, job) && Left(Held(After(s, run).jobsCopy), job)
    decreases |run|
  {
    if run != [] {
      hide NodeInv, Possible, Exec, Careful;
      RunCareful(Exec(s, run[0]).0, run[1..]);
      StepInv(s, run[0]);
      StepMoves(s, run[0]);
      LeftMove(s, Exec(s, run[0]).0, DoneBy(s, run[0]), job);
      LeftForGood(Exec(s, run[0]).0, run[1..], job);
    }
  }

  lemma LeftMove(s: Node, s': Node, done: set<JobId>, job: JobId)
    requires JobsMove(s, s', done) && Left(s.jobs, job) && Left(Held(s.jobsCopy), job)
    ensures Left(s'.jobs, job) && Left(Held(s'.jobsCopy), job)
  {
  }

  // ---------------------------------------------------------------- resubmission

  /** The registry remembers the submission under its idempotency key. */
  ghost predicate Remembers(jobs: Jobs, request: AppleRequest) {
    && request.key in jobs.operations && jobs.operations[request.key] == request
    && JobId(request.key) in jobs.clients
  }

  lemma RemembersStep(s: Node, step: Step, request: AppleRequest)
    requires NodeInv(s) && Possible(s, step) && Careful(Exec(s, step).0)
    requires Remembers(s.jobs, request) && Remembers(Held(s.jobsCopy), request)
    ensures Remembers(Exec(s, step).0.jobs, request) && Remembers(Held(Exec(s, step).0.jobsCopy), request)
  {
    StepMoves(s, step);
    RemembersMove(s, Exec(s, step).0, DoneBy(s, step), request);
  }

  lemma RemembersMove(s: Node, s': Node, done: set<JobId>, request: AppleRequest)
    requires JobsMove(s, s', done) && Remembers(s.jobs, request) && Remembers(Held(s.jobsCopy), request)
    ensures Remembers(s'.jobs, request) && Remembers(Held(s'.jobsCopy), request)
  {
  }

  lemma {:induction false} RemembersRun(s: Node, run: seq<Step>, request: AppleRequest)
    requires NodeInv(s) && PossibleRun(s, run) && Careful(After(s, run))
    requires Remembers(s.jobs, request) && Remembers(Held(s.jobsCopy), request)
    ensures NodeInv(After(s, run)) && Remembers(After(s, run).jobs, request)
    ensures Remembers(Held(After(s, run).jobsCopy), request)
    decreases |run|
  {
    hide NodeInv, Remembers, Possible, Exec, Careful;
    if run != [] {
      RunCareful(Exec(s, run[0]).0, run[1..]);
      StepInv(s, run[0]);
      RemembersStep(s, run[0], request);
      RemembersRun(Exec(s, run[0]).0, run[1..], request);
    }
  }

  /** An accepted submission is remembered from then on. */
  lemma AcceptanceIsRemembered(s: Node, peer: PeerId, request: AppleRequest, target: Option<HostId>, save: Save)
    requires NodeInv(s) && request.key !in s.jobs.requests && target.Some? && save.Complete?
    requires Careful(DoCreate(s, peer, request, target, save).0)
    ensures var (s', reply) := DoCreate(s, peer, request, target, save);
            reply == Job(JobId(request.key)) && Remembers(s'.jobs, request) && Remembers(Held(s'.jobsCopy), request)
  {
  }

  // ---------------------------------------------------------------- redelivery

  /** A report as its agent sent it, and what was stored of the job once it had been taken in. */
  datatype Report = Report(peer: PeerId, job: JobId, batch: seq<Event>, terminal: bool, kept: seq<Event>)

  /** What was stored then is still stored, event by event, and knows every number of the batch. */
  ghost predicate Stored(jobs: Jobs, r: Report) {
    && r.job in jobs.clients
    && r.job in jobs.agents && jobs.agents[r.job] == r.peer
    && r.job in jobs.events && r.kept <= jobs.events[r.job]
    && (forall e | e in r.batch :: HasSequence(r.kept, e.sequence))
  }

  /** The job's terminal report has been taken in. */
  ghost predicate Over(jobs: Jobs, job: JobId) {
    job in jobs.clients && job !in jobs.pending && job !in jobs.cancelled
  }

  ghost predicate NoFenceOf(b: Book, job: JobId) {
    forall d | d in b.writers :: b.writers[d] != job
  }

  ghost predicate Delivered(jobs: Jobs, r: Report) {
    Stored(jobs, r) && (if r.terminal then Over(jobs, r.job) else r.job in jobs.acknowledged)
  }

  lemma {:induction false} AddEventsStores(stored: seq<Event>, batch: seq<Event>)
    ensures forall e | e in batch :: HasSequence(AddEvents(stored, batch), e.sequence)
    ensures (forall e | e in batch :: HasSequence(stored, e.sequence)) ==> AddEvents(stored, batch) == stored
    decreases |batch|
  {
    if batch != [] {
      var known := exists e | e in stored :: e.sequence == batch[0].sequence;
      var next := if known then stored else stored + [batch[0]];
      AddEventsStores(next, batch[1..]);
      assert HasSequence(next, batch[0].sequence) by { if !known { assert batch[0] in next; } }
      assert next <= AddEvents(stored, batch);
      assert HasSequence(AddEvents(stored, batch), batch[0].sequence) by {
        var e :| e in next && e.sequence == batch[0].sequence;
        assert e in AddEvents(stored, batch);
      }
      forall e | e in batch ensures HasSequence(AddEvents(stored, batch), e.sequence) {
        if e != batch[0] { assert e in batch[1..]; }
      }
      if forall e | e in batch :: HasSequence(stored, e.sequence) { assert batch[0] in batch; }
    }
  }

  lemma DeliveredGrows(j: Jobs, j': Jobs, r: Report, done: set<JobId>)
    requires Grow(j, j', done) && Delivered(j, r)
    ensures Delivered(j', r)
  {
    assert j.events[r.job] <= j'.events[r.job];
  }

  lemma DeliveredMove(s: Node, s': Node, done: set<JobId>, r: Report)
    requires JobsMove(s, s', done) && Delivered(s.jobs, r) && Delivered(Held(s.jobsCopy), r)
    ensures Delivered(s'.jobs, r) && Delivered(Held(s'.jobsCopy), r)
  {
    hide Delivered, Grow;
    if Grow(s.jobs, s'.jobs, done) { DeliveredGrows(s.jobs, s'.jobs, r, done); }
    else { DeliveredGrows(Held(s.jobsCopy), s'.jobs, r, done); }
    if Grow(s.jobs, Held(s'.jobsCopy), done) {
      DeliveredGrows(s.jobs, Held(s'.jobsCopy), r, done);
    } else if Grow(Held(s.jobsCopy), Held(s'.jobsCopy), done) {
      DeliveredGrows(Held(s.jobsCopy), Held(s'.jobsCopy), r, done);
    }
  }

  /** Fences appear only for pending jobs, so a finished job gets none. */
  lemma NoFenceStep(s: Node, step: Step, job: JobId)
    requires NodeInv(s) && Possible(s, step) && Careful(Exec(s, step).0)
    requires NoFenceOf(s.book, job) && NoFenceOf(Held(s.bookCopy), job)
    requires job !in s.jobs.pending && job !in Held(s.jobsCopy).pending
    ensures NoFenceOf(Exec(s, step).0.book, job) && NoFenceOf(Held(Exec(s, step).0.bookCopy), job)
  {
    if step.Restart? { NoFenceRestart(s, step, job); }
    else {
      hide NodeInv, LifeInv, DiskInv, Advance, NoFenceOf, Possible, Exec, DoneBy, Ended;
      assert LifeInv(s) by { LivesToo(s); }
      StepAdvances(s, step);
      NoFenceAdvance(s, Exec(s, step).0, DoneBy(s, step), Ended(s, step), job);
    }
  }

  lemma NoFenceRestart(s: Node, step: Step, job: JobId)
    requires NodeInv(s) && Possible(s, step) && step.Restart? && Careful(Exec(s, step).0)
    requires NoFenceOf(Held(s.bookCopy), job)
    ensures NoFenceOf(Exec(s, step).0.book, job) && NoFenceOf(Held(Exec(s, step).0.bookCopy), job)
  {
    hide Held, Persist, DoRestart, ReleaseAll, Reconcile, NodeInv, Keeps, NoFenceOf;
    var saved, jobs := Held(s.bookCopy), Held(s.jobsCopy);
    var b1 := ReleaseAll(saved, step.order, step.now);
    RestartShape(s, step.order, step.undo, step.now, step.saveBook, step.saveJobs, step.saveAgain);
    RestartBook(s, step.order, step.undo, step.now);
    FewerFences(saved, b1, {}, job);
    FewerFences(saved, Reconcile(jobs, b1, step.undo, step.now).1, Orphans(jobs, b1), job);
  }

  lemma FewerFences(b: Book, b': Book, gone: set<DeviceId>, job: JobId)
    requires NoFenceOf(b, job) && b'.writers == b.writers - gone
    ensures NoFenceOf(b', job)
  {
  }

  lemma NoFenceAdvance(s: Node, s': Node, done: set<JobId>, ended: set<DeviceId>, job: JobId)
    requires Advance(s, s', done, ended) && Careful(s') && NoFenceOf(s.book, job) && NoFenceOf(Held(s.bookCopy), job)
    requires job !in s.jobs.pending
    ensures NoFenceOf(s'.book, job) && NoFenceOf(Held(s'.bookCopy), job)
  {
  }

  /** A report that has been taken in, in memory and on disk. */
  ghost predicate TakenIn(s: Node, r: Report) {
    && Delivered(s.jobs, r) && Delivered(Held(s.jobsCopy), r)
    && (r.terminal ==> NoFenceOf(s.book, r.job) && NoFenceOf(Held(s.bookCopy), r.job))
  }

  lemma DeliveredOver(jobs: Jobs, r: Report)
    requires Delivered(jobs, r) && r.terminal
    ensures r.job !in jobs.pending
  {
  }

  /** What a report has stored stays stored, and what it has ended stays ended. */
  lemma {:induction false} TakenInRun(s: Node, run: seq<Step>, r: Report)
    requires NodeInv(s) && PossibleRun(s, run) && Careful(After(s, run)) && TakenIn(s, r)
    ensures TakenIn(After(s, run), r)
    decreases |run|
  {
    if run != [] {
      hide NodeInv, Delivered, NoFenceOf, Possible, Exec, Careful, JobsMove;
      RunCareful(Exec(s, run[0]).0, run[1..]);
      StepInv(s, run[0]);
      StepMoves(s, run[0]);
      DeliveredMove(s, Exec(s, run[0]).0, DoneBy(s, run[0]), r);
      if r.terminal {
        DeliveredOver(s.jobs, r);
        DeliveredOver(Held(s.jobsCopy), r);
        NoFenceStep(s, run[0], r.job);
      }
      TakenInRun(Exec(s, run[0]).0, run[1..], r);
    }
  }

  /** Redelivering a report, at any later time, changes no stored event and no job map; a terminal one
      does not touch the lease book either. */
  lemma RedeliveryChangesNothing(s: Node, r: Report, order: seq<DeviceId>, now: nat,
                                 saveBook: Save, saveJobs: Save, saveUndo: Save)
    requires TakenIn(s, r)
    requires r.terminal ==> IsOrderOf(order, FencedBy(s.book, r.job))
    ensures var s' := DoProgress(s, r.peer, r.job, r.batch, r.terminal, order, now, saveBook, saveJobs, saveUndo).0;
            s'.jobs == s.jobs && (r.terminal ==> s'.book == s.book)
  {
    hide DoFinish, DoAcknowledge, Finish, Acknowledge, Held, Persist, Delivered, Restore, Since, DropFences;
    if r.terminal {
      OverAlready(s.jobs, r);
      NothingFenced(s.book, r.job);
      OrderOfNothing(order);
      FinishShape(s, r.job, r.batch, order, now, saveBook, saveJobs);
    } else {
      AcknowledgedAlready(s.jobs, r);
      AcknowledgeHasShape(s, r.job, r.batch, order, now, saveBook, saveJobs, saveUndo);
    }
  }

  lemma NothingFenced(b: Book, job: JobId)
    requires NoFenceOf(b, job)
    ensures FencedBy(b, job) == {}
  {
  }

  lemma OverAlready(jobs: Jobs, r: Report)
    requires Delivered(jobs, r) && r.terminal
    ensures Finish(jobs, r.job, r.batch, jobs.devicePeers) == jobs
  {
    KnownAlready(jobs, r);
    AddEventsStores(jobs.events[r.job], r.batch);
    hide AddEvents;
  }

  lemma AcknowledgedAlready(jobs: Jobs, r: Report)
    requires Delivered(jobs, r) && !r.terminal
    ensures Acknowledge(jobs, r.job, r.batch) == jobs
  {
    KnownAlready(jobs, r);
    AddEventsStores(jobs.events[r.job], r.batch);
    hide AddEvents;
  }

  lemma KnownAlready(jobs: Jobs, r: Report)
    requires Stored(jobs, r)
    ensures forall e | e in r.batch :: HasSequence(jobs.events[r.job], e.sequence)
  {
    forall e | e in r.batch ensures HasSequence(jobs.events[r.job], e.sequence) {
      var f :| f in r.kept && f.sequence == e.sequence;
      assert f in jobs.events[r.job];
    }
  }

  /** An answered report has been taken in: behind what was stored of the job stand the new events of the batch,
      unchanged and in order, and nothing else. */
  lemma AnsweredIsTakenIn(s: Node, peer: PeerId, job: JobId, batch: seq<Event>, terminal: bool,
                          order: seq<DeviceId>, now: nat, saveBook: Save, saveJobs: Save, saveUndo: Save)
    requires NodeInv(s) && (terminal ==> IsOrderOf(order, FencedBy(s.book, job)))
    requires DoProgress(s, peer, job, batch, terminal, order, now, saveBook, saveJobs, saveUndo).1 == Done
    requires Careful(DoProgress(s, peer, job, batch, terminal, order, now, saveBook, saveJobs, saveUndo).0)
    ensures var s' := DoProgress(s, peer, job, batch, terminal, order, now, saveBook, saveJobs, saveUndo).0;
            && job in s'.jobs.events
            && Added(if job in s.jobs.events then s.jobs.events[job] else [], batch, s'.jobs.events[job])
            && TakenIn(s', Report(peer, job, batch, terminal, s'.jobs.events[job]))
  {
    hide DoFinish, DoAcknowledge, Held, Added, TakenIn, AddEvents;
    AddEventsAdds(EventsOf(s.jobs, job), batch);
    if terminal { FinishIsTakenIn(s, job, batch, order, now, saveBook, saveJobs); }
    else { AcknowledgeIsTakenIn(s, job, batch, order, now, saveBook, saveJobs, saveUndo); }
  }

  lemma AcknowledgeIsTakenIn(s: Node, job: JobId, batch: seq<Event>, order: seq<DeviceId>, now: nat,
                             saveBook: Save, saveJobs: Save, saveUndo: Save)
    requires job in s.jobs.agents && JobsInv(s.jobs)
    requires DoAcknowledge(s, job, batch, order, now, saveBook, saveJobs, saveUndo).1 == Done
    requires Careful(DoAcknowledge(s, job, batch, order, now, saveBook, saveJobs, saveUndo).0)
    ensures var s' := DoAcknowledge(s, job, batch, order, now, saveBook, saveJobs, saveUndo).0;
            && job in s'.jobs.events && s'.jobs.events[job] == AddEvents(EventsOf(s.jobs, job), batch)
            && TakenIn(s', Report(s.jobs.agents[job], job, batch, false, s'.jobs.events[job]))
  {
    hide Restore, AddEvents, Persist, Held;
    AddEventsStores(EventsOf(s.jobs, job), batch);
  }

  lemma FinishIsTakenIn(s: Node, job: JobId, batch: seq<Event>, order: seq<DeviceId>, now: nat,
                        saveBook: Save, saveJobs: Save)
    requires IsOrderOf(order, FencedBy(s.book, job)) && job in s.jobs.agents && JobsInv(s.jobs)
    requires DoFinish(s, job, batch, order, now, saveBook, saveJobs).1 == Done
    requires Careful(DoFinish(s, job, batch, order, now, saveBook, saveJobs).0)
    ensures var s' := DoFinish(s, job, batch, order, now, saveBook, saveJobs).0;
            && job in s'.jobs.events && s'.jobs.events[job] == AddEvents(EventsOf(s.jobs, job), batch)
            && TakenIn(s', Report(s.jobs.agents[job], job, batch, true, s'.jobs.events[job]))
  {
    hide UnfenceAll, AddEvents, Persist, Held;
    AddEventsStores(EventsOf(s.jobs, job), batch);
    UnfenceAllWriters(Ledger(s.book, s.jobs.devicePeers), order, FencedBy(s.book, job), now);
  }

  // ---------------------------------------------------------------- reconciliation

  /** After reconciliation every remaining fence names an acknowledged pending job, exactly the others are
      gone, and reconciling once more changes nothing. */
  lemma ReconcileSettles(jobs: Jobs, b: Book, order: seq<DeviceId>, again: seq<DeviceId>, now: nat, later: nat)
    requires IsOrderOf(order, Orphans(jobs, b))
    requires var (j1, b1) := Reconcile(jobs, b, order, now); IsOrderOf(again, Orphans(j1, b1))
    ensures var (j1, b1) := Reconcile(jobs, b, order, now);
            && b1.writers == b.writers - Orphans(jobs, b)
            && Orphans(j1, b1) == {}
            && Reconcile(j1, b1, again, later) == (j1, b1)
  {
    var (j1, b1) := Reconcile(jobs, b, order, now);
    UnfenceAllWriters(Ledger(b, jobs.devicePeers), order, Orphans(jobs, b), now);
    OrderOfNothing(again);
  }
}
