/** First come, first served over whole runs of the registry. */
module RegistryFairness {
  import opened Common
  import opened AppleProtocol
  import opened Leases
  import opened LeaseFairness
  import opened Persistence
  import opened RegistryState
  import opened RegistryInvariant
  import opened RegistryRuns

  lemma UnfenceFair(l: Ledger, d: DeviceId, now: nat, r: Rivals)
    requires NoBarging(l.book, r) && r.first != r.second
    ensures NoBarging(Unfence(l, d, now).book, r)
  {
    UnfenceMeaning(l, d, now);
    SameQueueFair(l.book, Bare(l.book, d), r);
    ReleaseNowFair(Bare(l.book, d), d, now, r);
  }

  lemma {:induction false} UnfenceAllFair(l: Ledger, order: seq<DeviceId>, now: nat, r: Rivals)
    requires NoBarging(l.book, r) && r.first != r.second
    ensures NoBarging(UnfenceAll(l, order, now).book, r)
    decreases |order|
  {
    if order != [] {
      UnfenceFair(l, order[0], now, r);
      UnfenceAllFair(Unfence(l, order[0], now), order[1..], now, r);
    }
  }

  lemma DetachFair(b: Book, d: DeviceId, now: nat, r: Rivals)
    requires NoBarging(b, r) && r.first != r.second
    ensures NoBarging(DetachInventory(b, d, now), r)
  {
    var b1 := if d in b.writers then b.(pendingDetach := b.pendingDetach + {d}) else b;
    SameQueueFair(b, b1, r);
    ReleaseFair(b1, d, now, r);
  }

  lemma {:induction false} DetachAllFair(l: Ledger, order: seq<DeviceId>, now: nat, r: Rivals)
    requires NoBarging(l.book, r) && r.first != r.second
    ensures NoBarging(DetachAll(l, order, now).book, r)
    decreases |order|
  {
    if order != [] {
      DetachFair(l.book, order[0], now, r);
      DetachAllFair(DetachOne(l, order[0], now), order[1..], now, r);
    }
  }

  /** The book is the old one or the expired one, up to fences. */
  ghost predicate ExpiredOnly(b: Book, b': Book, order: seq<DeviceId>, now: nat) {
    || (b'.grants == b.grants && b'.waiting == b.waiting)
    || (b'.grants == ReleaseAll(b, order, now).grants && b'.waiting == ReleaseAll(b, order, now).waiting)
  }

  lemma ExpiredOnlyFair(b: Book, b': Book, order: seq<DeviceId>, now: nat, r: Rivals)
    requires NoBarging(b, r) && r.first != r.second && ExpiredOnly(b, b', order, now)
    ensures NoBarging(b', r)
  {
    if b'.grants == b.grants && b'.waiting == b.waiting { SameQueueFair(b, b', r); }
    else {
      ReleaseAllFair(b, order, now, r);
      SameQueueFair(ReleaseAll(b, order, now), b', r);
    }
  }

  /** Nobody is overtaken in memory, nor in a book the step leaves in the lease file. */
  ghost predicate Fair(s: Node, s': Node, r: Rivals) {
    NoBarging(s'.book, r)
    && (s'.bookCopy.careful ==>
          && s.bookCopy.careful
          && (Held(s'.bookCopy) == Held(s.bookCopy) || NoBarging(Held(s'.bookCopy), r)))
  }

  lemma HandOutFair(s: Node, job: JobId, order: seq<DeviceId>, now: nat, saveBook: Save, r: Rivals)
    requires job in s.jobs.pending && NoBarging(s.book, r) && r.first != r.second
    ensures NoBarging(HandOut(s, job, order, now, saveBook).node.book, r)
  {
    hide NoBarging, Persist, Held;
    ExpiredOnlyFair(s.book, HandOut(s, job, order, now, saveBook).node.book, order, now, r);
  }

  lemma DispatchFair(s: Node, pick: Option<JobId>, order: seq<DeviceId>, undo: seq<DeviceId>, now: nat,
                     saveBook: Save, saveJobs: Save, saveUndo: Save, r: Rivals)
    requires (pick.Some? ==> pick.value in s.jobs.pending) && NoBarging(s.book, r) && r.first != r.second
    ensures Fair(s, DoDispatch(s, pick, order, undo, now, saveBook, saveJobs, saveUndo).0, r)
  {
    hide NoBarging, HandOut, Persist, Held;
    if pick.Some? {
      var h := HandOut(s, pick.value, order, now, saveBook);
      HandOutFair(s, pick.value, order, now, saveBook, r);
      HandOutShape(s, pick.value, order, now, saveBook);
      FinishDispatchShape(h.node, h.jobs, h.reply, pick, undo, now, saveJobs, saveUndo);
      UnfenceAllFair(Ledger(h.node.book, h.jobs.devicePeers), undo, now, r);
    }
  }

  lemma AcknowledgeFair(s: Node, job: JobId, batch: seq<Event>, order: seq<DeviceId>, now: nat,
                        saveBook: Save, saveJobs: Save, saveUndo: Save, r: Rivals)
    requires NoBarging(s.book, r) && r.first != r.second
    ensures Fair(s, DoAcknowledge(s, job, batch, order, now, saveBook, saveJobs, saveUndo).0, r)
  {
    hide NoBarging, Persist, Held;
    var s' := DoAcknowledge(s, job, batch, order, now, saveBook, saveJobs, saveUndo).0;
    AcknowledgeHasShape(s, job, batch, order, now, saveBook, saveJobs, saveUndo);
    hide DoAcknowledge;
    RestoreMeaning(s.jobs, s.book, job, order, now);
    var book := Restore(s.jobs, s.book, job, order, now).0;
    ExpiredOnlyFair(s.book, book, order, now, r);
    ExpiredOnlyFair(s.book, s'.book, order, now, r);
  }

  lemma LeaseFair(s: Node, peer: PeerId, isAgent: bool, request: LeaseRequest, order: seq<DeviceId>,
                  visit: seq<DeviceId>, now: nat, saveBook: Save, saveJobs: Save, r: Rivals)
    requires BookInv(s.book) && NoBarging(s.book, r) && r.first != r.second
    requires request.Disconnect? && peer == r.first ==> GotIt(s.book, r)
    ensures Fair(s, DoLease(s, peer, isAgent, request, order, visit, now, saveBook, saveJobs).0, r)
  {
    var b1 := ReleaseAll(s.book, order, now);
    ReleaseAllFair(s.book, order, now, r);
    ReleaseAllKeeps(s.jobs, s.book, order, now);
    if GotIt(s.book, r) {
      var k :| r.since <= k && IsGrant(s.book, k, r.device, r.first);
      assert IsGrant(b1, k, r.device, r.first);
    }
    LeaseShape(s, peer, isAgent, request, order, visit, now, saveBook, saveJobs);
    hide DoLease, Persist, Held;
    ServeFair(b1, s.jobs.devicePeers, peer, isAgent, request, visit, now, r);
  }

  /** `first` gives up its place. */
  ghost predicate Leaves(step: Step, r: Rivals) {
    step.LeaseOp? && step.lease.Disconnect? && step.peer == r.first
  }

  lemma InventoryFair(s: Node, peer: PeerId, isAgent: bool, host: HostId, connected: set<DeviceId>,
                      order: seq<DeviceId>, now: nat, save: Save, r: Rivals)
    requires NoBarging(s.book, r) && r.first != r.second
    ensures Fair(s, DoInventory(s, peer, isAgent, host, connected, order, now, save).0, r)
  {
    hide NoBarging, Persist, Held;
    var b1 := s.book.(pendingDetach := s.book.pendingDetach - connected);
    SameQueueFair(s.book, b1, r);
    DetachAllFair(Ledger(b1, s.jobs.devicePeers + (map d | d in connected :: peer)), order, now, r);
    InventoryShape(s, peer, isAgent, host, connected, order, now, save);
  }

  lemma AdmitFair(s: Node, peer: PeerId, request: AppleRequest, order: seq<DeviceId>, now: nat, save: Save, r: Rivals)
    requires NoBarging(s.book, r) && r.first != r.second
    ensures Fair(s, DoAdmit(s, peer, request, order, now, save).0, r)
  {
    hide NoBarging, Held;
    ReleaseAllFair(s.book, order, now, r);
  }

  lemma ProgressFair(s: Node, peer: PeerId, job: JobId, batch: seq<Event>, terminal: bool, order: seq<DeviceId>,
                     now: nat, saveBook: Save, saveJobs: Save, saveUndo: Save, r: Rivals)
    requires NoBarging(s.book, r) && r.first != r.second
    ensures Fair(s, DoProgress(s, peer, job, batch, terminal, order, now, saveBook, saveJobs, saveUndo).0, r)
  {
    hide NoBarging, DoAcknowledge, DoFinish, Persist, Held;
    if terminal {
      UnfenceAllFair(Ledger(s.book, s.jobs.devicePeers), order, now, r);
      FinishShape(s, job, batch, order, now, saveBook, saveJobs);
    } else { AcknowledgeFair(s, job, batch, order, now, saveBook, saveJobs, saveUndo, r); }
  }

  /** A step that leaves the lease book and its file alone. */
  lemma QuietFair(s: Node, step: Step, r: Rivals)
    requires Possible(s, step) && (step.Announce? || step.Create? || step.Cancel?) && NoBarging(s.book, r)
    ensures Fair(s, Exec(s, step).0, r)
  {
    hide NoBarging, Persist, Held, NewJob, CancelJob;
  }

  lemma ExpireFair(s: Node, step: Step, r: Rivals)
    requires Possible(s, step) && step.Expire? && r.first != r.second && NoBarging(s.book, r)
    ensures Fair(s, Exec(s, step).0, r)
  {
    hide NoBarging, Held, ReleaseAll;
    ReleaseAllFair(s.book, step.order, step.now, r);
  }

  lemma HeartbeatFair(s: Node, step: Step, r: Rivals)
    requires Possible(s, step) && (step.Inventory? || step.Dispatch?) && r.first != r.second && NoBarging(s.book, r)
    ensures Fair(s, Exec(s, step).0, r)
  {
    hide NoBarging, DoInventory, DoDispatch, Fair;
    if step.Inventory? {
      InventoryFair(s, step.peer, step.isAgent, step.host, step.connected, step.order, step.now, step.save, r);
    } else {
      DispatchFair(s, step.pick, step.order, step.undo, step.now, step.saveBook, step.saveJobs, step.saveUndo, r);
    }
  }

  lemma AppleFair(s: Node, step: Step, r: Rivals)
    requires Possible(s, step) && (step.Admit? || step.Progress?) && r.first != r.second && NoBarging(s.book, r)
    ensures Fair(s, Exec(s, step).0, r)
  {
    hide NoBarging, DoAdmit, DoProgress, Fair;
    if step.Admit? { AdmitFair(s, step.peer, step.request, step.order, step.now, step.save, r); }
    else {
      ProgressFair(s, step.peer, step.job, step.batch, step.terminal, step.order, step.now,
                   step.saveBook, step.saveJobs, step.saveUndo, r);
    }
  }

  lemma LeaseStepFair(s: Node, step: Step, r: Rivals)
    requires LifeInv(s) && Possible(s, step) && step.LeaseOp? && r.first != r.second && NoBarging(s.book, r)
    requires Leaves(step, r) ==> GotIt(s.book, r)
    ensures Fair(s, Exec(s, step).0, r)
  {
    assert BookInv(s.book);
    hide LifeInv, BookInv, NoBarging, DoLease, Fair, GotIt;
    LeaseFair(s, step.peer, step.isAgent, step.lease, step.order, step.visit, step.now,
              step.saveBook, step.saveJobs, r);
  }

  lemma StepFair(s: Node, step: Step, r: Rivals)
    requires LifeInv(s) && Possible(s, step) && !step.Restart? && r.first != r.second && NoBarging(s.book, r)
    requires Leaves(step, r) ==> GotIt(s.book, r)
    ensures Fair(s, Exec(s, step).0, r)
  {
    hide LifeInv, NoBarging, Possible, Exec, Fair, Leaves, GotIt;
    match step
    case Inventory(_, _, _, _, _, _, _) => HeartbeatFair(s, step, r);
    case Expire(_, _, _) => ExpireFair(s, step, r);
    case Announce(_, _) => QuietFair(s, step, r);
    case Dispatch(_, _, _, _, _, _, _, _) => HeartbeatFair(s, step, r);
    case Admit(_, _, _, _, _) => AppleFair(s, step, r);
    case Create(_, _, _, _, _, _) => QuietFair(s, step, r);
    case Progress(_, _, _, _, _, _, _, _, _) => AppleFair(s, step, r);
    case Cancel(_, _, _) => QuietFair(s, step, r);
    case LeaseOp(_, _, _, _, _, _, _, _) => LeaseStepFair(s, step, r);
  }

  /** A start goes on with the queue it finds. */
  lemma RestartFair(s: Node, step: Step, r: Rivals)
    requires step.Restart? && Possible(s, step) && r.first != r.second && NoBarging(Held(s.bookCopy), r)
    ensures Fair(s, Exec(s, step).0, r)
  {
    hide NoBarging, DoRestart, Persist, Held;
    var b1 := ReleaseAll(Held(s.bookCopy), step.order, step.now);
    ReleaseAllFair(Held(s.bookCopy), step.order, step.now, r);
    UnfenceAllFair(Ledger(b1, Held(s.jobsCopy).devicePeers), step.undo, step.now, r);
    RestartShape(s, step.order, step.undo, step.now, step.saveBook, step.saveJobs, step.saveAgain);
  }

  ghost predicate NeverLeaves(run: seq<Step>, r: Rivals) {
    forall i | 0 <= i < |run| :: !Leaves(run[i], r)
  }

  /** The run stays within one life of the process and `first` never disconnects. */
  ghost predicate Stays(run: seq<Step>, r: Rivals) {
    NeverLeaves(run, r) && (forall i | 0 <= i < |run| :: !run[i].Restart?)
  }

  lemma {:induction false} RunFair(s: Node, run: seq<Step>, r: Rivals)
    requires LifeInv(s) && PossibleRun(s, run) && r.first != r.second && NoBarging(s.book, r) && Stays(run, r)
    ensures NoBarging(After(s, run).book, r)
    decreases |run|
  {
    if run != [] {
      hide LifeInv, NoBarging, Possible, Exec, Leaves;
      assert !run[0].Restart? && !Leaves(run[0], r);
      LifeStep(s, run[0]);
      StepFair(s, run[0], r);
      assert Stays(run[1..], r);
      RunFair(Exec(s, run[0]).0, run[1..], r);
    }
  }

  /** Across restarts too, from a queue that is on disk. */
  lemma {:induction false} RunFairOnDisk(s: Node, run: seq<Step>, r: Rivals)
    requires NodeInv(s) && PossibleRun(s, run) && Careful(After(s, run)) && r.first != r.second
    requires NoBarging(s.book, r) && NoBarging(Held(s.bookCopy), r) && NeverLeaves(run, r)
    ensures NoBarging(After(s, run).book, r)
    decreases |run|
  {
    if run != [] {
      var s' := Exec(s, run[0]).0;
      RunCareful(s', run[1..]);
      hide NoBarging, Possible, Exec, Leaves, Held, LifeInv, DiskInv;
      assert !Leaves(run[0], r);
      if run[0].Restart? { RestartFair(s, run[0], r); } else { StepFair(s, run[0], r); }
      StepInv(s, run[0]);
      RunFairOnDisk(s', run[1..], r);
    }
  }

  /** Read off the grants: every later grant to `second` comes after one to `first`. */
  lemma InTurnGrants(b: Book, r: Rivals)
    requires NoBarging(b, r)
    ensures forall k | r.since <= k < |b.grants| && b.grants[k] == Grant(r.device, r.second) ::
              exists j | r.since <= j < k :: b.grants[j] == Grant(r.device, r.first)
  {
    forall k | r.since <= k < |b.grants| && b.grants[k] == Grant(r.device, r.second)
      ensures exists j | r.since <= j < k :: b.grants[j] == Grant(r.device, r.first)
    {
      assert IsGrant(b, k, r.device, r.second);
      var j :| r.since <= j < k && IsGrant(b, j, r.device, r.first);
    }
  }

  /** No barging: if `first` is queued for a device and `second` is not queued before it, then whatever
      requests, expiries, detaches and reports follow, every later grant of that device to `second` comes
      after one to `first`, unless `first` itself disconnects. */
  lemma FirstComeFirstServed(s: Node, run: seq<Step>, device: DeviceId, first: PeerId, second: PeerId, place: nat)
    requires LifeInv(s) && PossibleRun(s, run) && first != second
    requires var r := Rivals(device, first, second, |s.book.grants|);
             AheadAt(s.book.waiting, r, place) && Stays(run, r)
    ensures var grants := After(s, run).book.grants;
            forall k | |s.book.grants| <= k < |grants| && grants[k] == Grant(device, second) ::
              exists j | |s.book.grants| <= j < k :: grants[j] == Grant(device, first)
  {
    var r := Rivals(device, first, second, |s.book.grants|);
    assert NoBarging(s.book, r);
    RunFair(s, run, r);
    InTurnGrants(After(s, run).book, r);
  }

  /** A place in the queue outlives the process: once the queue is in the lease file, as it is when a queue
      request has been answered, the same holds across any number of restarts. */
  lemma FirstComeFirstServedAcrossRestarts(s: Node, run: seq<Step>, device: DeviceId, first: PeerId,
                                           second: PeerId, place: nat)
    requires NodeInv(s) && PossibleRun(s, run) && Careful(After(s, run)) && first != second
    requires Held(s.bookCopy) == s.book
    requires var r := Rivals(device, first, second, |s.book.grants|);
             AheadAt(s.book.waiting, r, place) && NeverLeaves(run, r)
    ensures var grants := After(s, run).book.grants;
            forall k | |s.book.grants| <= k < |grants| && grants[k] == Grant(device, second) ::
              exists j | |s.book.grants| <= j < k :: grants[j] == Grant(device, first)
  {
    var r := Rivals(device, first, second, |s.book.grants|);
    assert NoBarging(s.book, r);
    RunFairOnDisk(s, run, r);
    InTurnGrants(After(s, run).book, r);
  }

  /** The answer to a queue request says that the queue is in the lease file. */
  lemma AnsweredQueueIsOnDisk(s: Node, step: Step)
    requires Possible(s, step) && step.LeaseOp? && Exec(s, step).1.LeaseAnswer? && Careful(Exec(s, step).0)
    ensures Held(Exec(s, step).0.bookCopy) == Exec(s, step).0.book
  {
    hide ReleaseAll, Serve, Held;
  }
}
