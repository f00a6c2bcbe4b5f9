/** Runs in which a save loses the snapshot it replaces: what the theorems over careful runs promise is not
    kept without that condition. */
module RegistryRollBacks {
  import opened Common
  import opened AppleProtocol
  import opened Leases
  import opened SnapshotFiles
  import opened Persistence
  import opened RegistryState
  import opened RegistryInvariant
  import opened RegistryRuns
  import opened RegistryPaths

  // ---------------------------------------------------------------- a cancellation that is lost

  /** The registry after it has restarted from a cancellation whose save stopped with the main file retired. */
  function Withdrawn(request: AppleRequest, device: DeviceId, client: PeerId, agent: PeerId, host: HostId): Node {
    var open := OneJob(request, device, client, agent, host);
    var closed := CancelJob(open, JobId(request.key));
    Node(closed, EMPTY_BOOK, map[], {}, Persist(SavedAll(NO_JOBS, [open]), closed, MainRetired),
         SavedAll(EMPTY_BOOK, [EMPTY_BOOK, EMPTY_BOOK, EMPTY_BOOK]), true)
  }

  /** A start that finds no lease and no fence takes the job maps over as they are. */
  lemma StartsAsSaved(s: Node)
    requires Held(s.bookCopy) == EMPTY_BOOK
    ensures var restart := Restart([], [], 0, SAVED, SAVED, SAVED);
            && Possible(s, restart)
            && Exec(s, restart).0 == Node(Held(s.jobsCopy), EMPTY_BOOK, map[], {}, s.jobsCopy,
                                          Persist(s.bookCopy, EMPTY_BOOK, SAVED), true)
  {
    hide Persist, Held;
  }

  lemma AdmitsFreely(s: Node, request: AppleRequest, client: PeerId)
    requires s.running && s.book == EMPTY_BOOK && s.admitted == {} && !request.operation.MutatesDevice()
    ensures var admit := Admit(client, request, [], 0, SAVED);
            Possible(s, admit) && Exec(s, admit).0 == s.(admitted := {Submission(client, request)})
  {
    hide Persist, Held;
  }

  lemma Cancels(s: Node, request: AppleRequest, client: PeerId, save: Save)
    requires var job := JobId(request.key);
             s.running && job in s.jobs.pending && job in s.jobs.clients && s.jobs.clients[job] == client
    ensures var job := JobId(request.key);
            var cancel, closed := Cancel(client, job, save), CancelJob(s.jobs, job);
            && Possible(s, cancel)
            && Exec(s, cancel).0 == s.(jobs := closed, jobsCopy := Persist(s.jobsCopy, closed, save))
  {
    hide Persist, Held, CancelJob;
  }

  /** Three sections of a heartbeat. */
  function Heartbeat(device: DeviceId, agent: PeerId, host: HostId, snapshot: Host): seq<Step> {
    [Inventory(agent, true, host, {device}, [], 0, SAVED), Expire([], 0, SAVED), Announce(host, snapshot)]
  }

  /** ... a submission that needs no lease, its cancellation, and a restart. */
  function Withdrawing(request: AppleRequest, client: PeerId, host: HostId): seq<Step> {
    [Admit(client, request, [], 0, SAVED), Create(client, request, Some(host), 1, 0, SAVED),
     Cancel(client, JobId(request.key), MainRetired), Restart([], [], 0, SAVED, SAVED, SAVED)]
  }

  /** A registry that knows one host, with no lease and no job. */
  function OneHost(device: DeviceId, agent: PeerId, host: HostId, snapshot: Host): Node {
    Node(OneAgent(agent, host, device), EMPTY_BOOK, map[host := snapshot], {}, NothingSaved(NO_JOBS),
         SavedAll(EMPTY_BOOK, [EMPTY_BOOK, EMPTY_BOOK]), true)
  }

  lemma HostIsReached(device: DeviceId, agent: PeerId, host: HostId, snapshot: Host)
    ensures var run := Heartbeat(device, agent, host, snapshot);
            PossibleRun(NEW_NODE, run)
            && RegistryState.After(NEW_NODE, run) == OneHost(device, agent, host, snapshot)
  {
    hide Possible, Exec, Persist, Held, SavedAll;
    var run := Heartbeat(device, agent, host, snapshot);
    SavedNothing(EMPTY_BOOK);
    SavedMore(EMPTY_BOOK, [], EMPTY_BOOK, [EMPTY_BOOK]);
    SavedMore(EMPTY_BOOK, [EMPTY_BOOK], EMPTY_BOOK, [EMPTY_BOOK, EMPTY_BOOK]);
    var s1 := NEW_NODE.(jobs := OneAgent(agent, host, device), bookCopy := SavedAll(EMPTY_BOOK, [EMPTY_BOOK]));
    TakesInventory(NEW_NODE, agent, host, device);
    var s2 := s1.(bookCopy := SavedAll(EMPTY_BOOK, [EMPTY_BOOK, EMPTY_BOOK]));
    ExpiresNothing(s1);
    Announces(s2, host, snapshot);
    OneStep(s2, run[2], []);
    OneStep(s1, run[1], [run[2]]);
    OneStep(NEW_NODE, run[0], [run[1], run[2]]);
  }

  lemma WithdrawsAndRestarts(request: AppleRequest, device: DeviceId, client: PeerId, agent: PeerId, host: HostId,
                             snapshot: Host)
    requires !request.operation.MutatesDevice() && Suits(snapshot, request)
    ensures var s, run := OneHost(device, agent, host, snapshot), Withdrawing(request, client, host);
            PossibleRun(s, run) && RegistryState.After(s, run) == Withdrawn(request, device, client, agent, host)
  {
    hide Possible, Exec, Persist, Held, SavedAll, NewJob, CancelJob;
    var s, run := OneHost(device, agent, host, snapshot), Withdrawing(request, client, host);
    var open := OneJob(request, device, client, agent, host);
    var closed := CancelJob(open, JobId(request.key));
    SubmittedJob(request, device, client, agent, host);
    var s1 := s.(admitted := {Submission(client, request)});
    AdmitsFreely(s, request, client);
    var s2 := s1.(jobs := open, jobsCopy := SavedAll(NO_JOBS, [open]));
    SavedNothing(NO_JOBS);
    SavedMore(NO_JOBS, [], open, [open]);
    Creates(s1, request, client, host, snapshot);
    var s3 := s2.(jobs := closed, jobsCopy := Persist(s2.jobsCopy, closed, MainRetired));
    Cancels(s2, request, client, MainRetired);
    OlderSaveReturns(NO_JOBS, [open], closed, closed);
    SavedAllHolds(EMPTY_BOOK, [EMPTY_BOOK, EMPTY_BOOK]);
    SavedMore(EMPTY_BOOK, [EMPTY_BOOK, EMPTY_BOOK], EMPTY_BOOK, [EMPTY_BOOK, EMPTY_BOOK, EMPTY_BOOK]);
    StartsAsSaved(s3);
    OneStep(s3, run[3], []);
    OneStep(s2, run[2], [run[3]]);
    OneStep(s1, run[1], [run[2], run[3]]);
    OneStep(s, run[0], [run[1], run[2], run[3]]);
  }

  /** It comes about, from an empty registry. */
  lemma WithdrawnIsReached(request: AppleRequest, device: DeviceId, client: PeerId, agent: PeerId, host: HostId,
                           snapshot: Host)
    requires !request.operation.MutatesDevice() && Suits(snapshot, request)
    ensures var run := Heartbeat(device, agent, host, snapshot) + Withdrawing(request, client, host);
            PossibleRun(NEW_NODE, run)
            && RegistryState.After(NEW_NODE, run) == Withdrawn(request, device, client, agent, host)
  {
    hide Possible, Exec, OneHost, Withdrawn, Heartbeat, Withdrawing;
    HostIsReached(device, agent, host, snapshot);
    WithdrawsAndRestarts(request, device, client, agent, host, snapshot);
    Onward(NEW_NODE, Heartbeat(device, agent, host, snapshot), Withdrawing(request, client, host));
  }

  /** Reached as it is, the state satisfies the invariant, and the job is closed in memory and on disk. */
  lemma WithdrawnFits(request: AppleRequest, device: DeviceId, client: PeerId, agent: PeerId, host: HostId,
                      snapshot: Host)
    requires !request.operation.MutatesDevice() && Suits(snapshot, request)
    ensures var s, job := Withdrawn(request, device, client, agent, host), JobId(request.key);
            NodeInv(s) && Careful(s) && Closed(s.jobs, job) && Closed(Held(s.jobsCopy), job)
  {
    hide NodeInv, Persist, Held, SavedAll, NewJob;
    var open := OneJob(request, device, client, agent, host);
    var closed := CancelJob(open, JobId(request.key));
    SubmittedJob(request, device, client, agent, host);
    OlderSaveReturns(NO_JOBS, [open], closed, closed);
    SavedAllHolds(EMPTY_BOOK, [EMPTY_BOOK, EMPTY_BOOK, EMPTY_BOOK]);
    WithdrawnIsReached(request, device, client, agent, host, snapshot);
    NewNodeInv();
    RunInv(NEW_NODE, Heartbeat(device, agent, host, snapshot) + Withdrawing(request, client, host));
  }

  /** A job not yet reported on may be handed out. */
  lemma OpenIsHandedOut(s: Node, request: AppleRequest, device: DeviceId, client: PeerId, agent: PeerId, host: HostId)
    requires !request.operation.MutatesDevice()
    requires s.running && s.jobs == OneJob(request, device, client, agent, host) && s.book == EMPTY_BOOK
    ensures var job := JobId(request.key);
            Possible(s, Dispatch(host, Some(job), [], [], 0, SAVED, SAVED, SAVED))
  {
    hide Persist, Held, NewJob;
    SubmittedJob(request, device, client, agent, host);
  }

  /** Saving stops after emptying `.next`, the registry starts again, and the next heartbeat fetches the job. */
  function Refetching(request: AppleRequest, device: DeviceId, client: PeerId, agent: PeerId, host: HostId,
                      snapshot: Host): seq<Step>
  {
    [LeaseOp(client, false, Validate(0, device, client), [], [], 0, SAVED, Truncated),
     Restart([], [], 0, SAVED, SAVED, SAVED)]
    + Heartbeat(device, agent, host, snapshot)
    + [Dispatch(host, Some(JobId(request.key)), [], [], 0, SAVED, SAVED, SAVED)]
  }

  /** A heartbeat at a registry that has just started and finds the job open. */
  lemma FetchesOpenJob(s: Node, request: AppleRequest, device: DeviceId, client: PeerId, agent: PeerId, host: HostId,
                       snapshot: Host)
    requires !request.operation.MutatesDevice() && s.running && s.hosts == map[]
    requires s.jobs == OneJob(request, device, client, agent, host) && s.book == EMPTY_BOOK
    ensures PossibleRun(s, Heartbeat(device, agent, host, snapshot)
                           + [Dispatch(host, Some(JobId(request.key)), [], [], 0, SAVED, SAVED, SAVED)])
  {
    hide Possible, Exec, Persist, Held, NewJob;
    var run := Heartbeat(device, agent, host, snapshot)
               + [Dispatch(host, Some(JobId(request.key)), [], [], 0, SAVED, SAVED, SAVED)];
    SubmittedJob(request, device, client, agent, host);
    var s1 := s.(bookCopy := Persist(s.bookCopy, s.book, SAVED));
    TakesInventoryAgain(s, agent, host, device);
    var s2 := s1.(bookCopy := Persist(s1.bookCopy, s.book, SAVED));
    ExpiresNothing(s1);
    var s3 := s2.(hosts := map[host := snapshot]);
    Announces(s2, host, snapshot);
    OpenIsHandedOut(s3, request, device, client, agent, host);
    OneStep(s3, run[3], []);
    OneStep(s2, run[2], [run[3]]);
    OneStep(s1, run[1], [run[2], run[3]]);
    OneStep(s, run[0], [run[1], run[2], run[3]]);
    assert run == [run[0]] + [run[1], run[2], run[3]];
  }

  /** The withdrawn job is closed in memory and on disk, and nevertheless handed out again: a save of the job
      maps stops after emptying `.next`, and the start after it finds the snapshot before the cancellation. */
  lemma WithdrawnIsHandedOut(request: AppleRequest, device: DeviceId, client: PeerId, agent: PeerId, host: HostId,
                             snapshot: Host)
    requires !request.operation.MutatesDevice() && Suits(snapshot, request)
    ensures var s, job := Withdrawn(request, device, client, agent, host), JobId(request.key);
            var run := Refetching(request, device, client, agent, host, snapshot);
            && NodeInv(s) && Careful(s) && Closed(s.jobs, job) && Closed(Held(s.jobsCopy), job)
            && PossibleRun(s, run) && !Careful(RegistryState.After(s, run))
            && run[|run| - 1].Dispatch? && run[|run| - 1].pick == Some(job)
  {
    hide Persist, Held, SavedAll, Exec, Possible, NodeInv, Closed, NewJob, CancelJob, Heartbeat;
    var s, open := Withdrawn(request, device, client, agent, host), OneJob(request, device, client, agent, host);
    var validate := LeaseOp(client, false, Validate(0, device, client), [], [], 0, SAVED, Truncated);
    var restart := Restart([], [], 0, SAVED, SAVED, SAVED);
    var fetch := Heartbeat(device, agent, host, snapshot)
                 + [Dispatch(host, Some(JobId(request.key)), [], [], 0, SAVED, SAVED, SAVED)];
    WithdrawnFits(request, device, client, agent, host, snapshot);
    OlderSaveReturns(NO_JOBS, [open], s.jobs, s.jobs);
    SavedAllHolds(EMPTY_BOOK, [EMPTY_BOOK, EMPTY_BOOK, EMPTY_BOOK]);
    var s1 := s.(bookCopy := Persist(s.bookCopy, EMPTY_BOOK, SAVED),
                 jobsCopy := Persist(s.jobsCopy, s.jobs, Truncated));
    var s2 := Node(open, EMPTY_BOOK, map[], {}, s1.jobsCopy, Persist(s1.bookCopy, EMPTY_BOOK, SAVED), true);
    Validates(s, device, client, [], Truncated);
    SavedMore(EMPTY_BOOK, [EMPTY_BOOK, EMPTY_BOOK, EMPTY_BOOK], EMPTY_BOOK,
              [EMPTY_BOOK, EMPTY_BOOK, EMPTY_BOOK, EMPTY_BOOK]);
    SavedAllHolds(EMPTY_BOOK, [EMPTY_BOOK, EMPTY_BOOK, EMPTY_BOOK, EMPTY_BOOK]);
    StartsAsSaved(s1);
    FetchesOpenJob(s2, request, device, client, agent, host, snapshot);
    OneStep(s1, restart, fetch);
    OneStep(s, validate, [restart] + fetch);
    assert [validate] + ([restart] + fetch) == Refetching(request, device, client, agent, host, snapshot);
    if Careful(RegistryState.After(s1, [restart] + fetch)) {
      RunCareful(s1, [restart] + fetch);
      assert false;
    }
  }

  // ---------------------------------------------------------------- an acknowledgement that is lost

  /** The job maps of a job that has been handed out and not yet reported on. */
  function HandedOver(request: AppleRequest, device: DeviceId, client: PeerId, agent: PeerId, host: HostId): Jobs {
    MarkDispatched(OneJob(request, device, client, agent, host), JobId(request.key))
  }

  /** ... and after its first report. */
  function Acknowledged(request: AppleRequest, device: DeviceId, client: PeerId, agent: PeerId, host: HostId): Jobs {
    Acknowledge(HandedOver(request, device, client, agent, host), JobId(request.key), [])
  }

  /** The saves of the job maps up to the hand-out, all complete. */
  function Saves(request: AppleRequest, device: DeviceId, client: PeerId, agent: PeerId, host: HostId): seq<Jobs> {
    [OneAgent(agent, host, device), OneJob(request, device, client, agent, host),
     HandedOver(request, device, client, agent, host)]
  }

  /** The registry after a start from an acknowledgement whose save stopped with the main file retired. */
  function OnlyInNext(request: AppleRequest, device: DeviceId, client: PeerId, agent: PeerId, host: HostId): Node {
    var acked := Acknowledged(request, device, client, agent, host);
    var lease, fenced := OneLease(device, client), OneFence(device, client, JobId(request.key));
    Node(acked, fenced, map[], {},
         Persist(SavedAll(NO_JOBS, Saves(request, device, client, agent, host)), acked, MainRetired),
         SavedAll(EMPTY_BOOK, [EMPTY_BOOK, lease, lease, lease, fenced, fenced, fenced]), true)
  }

  lemma AcknowledgedJob(request: AppleRequest, device: DeviceId, client: PeerId, agent: PeerId, host: HostId)
    ensures var jobs, job := Acknowledged(request, device, client, agent, host), JobId(request.key);
            && job !in HandedOver(request, device, client, agent, host).acknowledged
            && jobs.pending == map[job := request] && job in jobs.acknowledged && job in jobs.dispatched
  {
    hide NewJob;
    SubmittedJob(request, device, client, agent, host);
  }

  /** A start that finds one fence of an acknowledged job takes both copies over as they are. */
  lemma StartsWithFence(s: Node, device: DeviceId, client: PeerId, job: JobId)
    requires Held(s.bookCopy) == OneFence(device, client, job)
    requires job in Held(s.jobsCopy).pending && job in Held(s.jobsCopy).acknowledged
    ensures var restart := Restart([], [], 0, SAVED, SAVED, SAVED);
            && Possible(s, restart)
            && Exec(s, restart).0 == Node(Held(s.jobsCopy), OneFence(device, client, job), map[], {}, s.jobsCopy,
                                          Persist(s.bookCopy, OneFence(device, client, job), SAVED), true)
  {
    hide Persist, Held;
    assert Expired(OneFence(device, client, job), 0) == {};
    assert Orphans(Held(s.jobsCopy), OneFence(device, client, job)) == {};
  }

  /** The hand-out, the report and the restart. */
  function FromSubmission(request: AppleRequest, device: DeviceId, agent: PeerId, host: HostId): seq<Step> {
    var job := JobId(request.key);
    [Dispatch(host, Some(job), [], [device], 0, SAVED, SAVED, SAVED),
     Progress(agent, job, [], false, [], 0, SAVED, MainRetired, SAVED),
     Restart([], [], 0, SAVED, SAVED, SAVED)]
  }

  lemma ReportsAndRestarts(request: AppleRequest, device: DeviceId, client: PeerId, agent: PeerId, host: HostId,
                           snapshot: Host)
    requires NamesLease(request, device)
    ensures var s := OneSubmission(request, device, client, agent, host, snapshot);
            var run := FromSubmission(request, device, agent, host);
            PossibleRun(s, run) && RegistryState.After(s, run) == OnlyInNext(request, device, client, agent, host)
  {
    hide Possible, Exec, Persist, Held, SavedAll, NewJob, Acknowledge;
    var s := OneSubmission(request, device, client, agent, host, snapshot);
    var run, job := FromSubmission(request, device, agent, host), JobId(request.key);
    var agents, lease, fenced := OneAgent(agent, host, device), OneLease(device, client), OneFence(device, client, job);
    var saves, acked := Saves(request, device, client, agent, host), Acknowledged(request, device, client, agent, host);
    SubmittedJob(request, device, client, agent, host);
    AcknowledgedJob(request, device, client, agent, host);
    var s1 := s.(jobs := saves[2], jobsCopy := SavedAll(NO_JOBS, saves), book := fenced,
                 bookCopy := SavedAll(EMPTY_BOOK, [EMPTY_BOOK, lease, lease, lease, fenced]));
    SavedMore(NO_JOBS, [saves[0], saves[1]], saves[2], saves);
    SavedMore(EMPTY_BOOK, [EMPTY_BOOK, lease, lease, lease], fenced, [EMPTY_BOOK, lease, lease, lease, fenced]);
    HandsOut(s, request, device, client, host);
    var s2 := s1.(jobs := acked, jobsCopy := Persist(s1.jobsCopy, acked, MainRetired),
                  bookCopy := SavedAll(EMPTY_BOOK, [EMPTY_BOOK, lease, lease, lease, fenced, fenced]));
    SavedMore(EMPTY_BOOK, [EMPTY_BOOK, lease, lease, lease, fenced], fenced,
              [EMPTY_BOOK, lease, lease, lease, fenced, fenced]);
    Reports(s1, request, device, client, agent, MainRetired);
    OlderSaveReturns(NO_JOBS, saves, acked, acked);
    SavedAllHolds(EMPTY_BOOK, [EMPTY_BOOK, lease, lease, lease, fenced, fenced]);
    SavedMore(EMPTY_BOOK, [EMPTY_BOOK, lease, lease, lease, fenced, fenced], fenced,
              [EMPTY_BOOK, lease, lease, lease, fenced, fenced, fenced]);
    StartsWithFence(s2, device, client, job);
    OneStep(s2, run[2], []);
    OneStep(s1, run[1], [run[2]]);
    OneStep(s, run[0], [run[1], run[2]]);
  }

  /** It comes about, from an empty registry. */
  lemma OnlyInNextIsReached(request: AppleRequest, device: DeviceId, client: PeerId, agent: PeerId, host: HostId,
                            snapshot: Host)
    requires NamesLease(request, device) && Suits(snapshot, request)
    ensures var run := ToSubmission(request, device, client, agent, host, snapshot)
                       + FromSubmission(request, device, agent, host);
            && PossibleRun(NEW_NODE, run)
            && RegistryState.After(NEW_NODE, run) == OnlyInNext(request, device, client, agent, host)
  {
    hide Possible, Exec, OneSubmission, OnlyInNext, ToSubmission, FromSubmission;
    SubmissionIsReached(request, device, client, agent, host, snapshot);
    ReportsAndRestarts(request, device, client, agent, host, snapshot);
    Onward(NEW_NODE, ToSubmission(request, device, client, agent, host, snapshot),
           FromSubmission(request, device, agent, host));
  }

  /** Reached as it is, the state satisfies the invariant, and the job runs on the device in memory and on disk. */
  lemma OnlyInNextFits(request: AppleRequest, device: DeviceId, client: PeerId, agent: PeerId, host: HostId,
                       snapshot: Host)
    requires NamesLease(request, device) && Suits(snapshot, request)
    ensures var s := OnlyInNext(request, device, client, agent, host);
            NodeInv(s) && Careful(s) && Durable(s, device, JobId(request.key), 1, client)
  {
    hide NodeInv, Persist, Held, SavedAll, Acknowledge, NewJob;
    var s, job := OnlyInNext(request, device, client, agent, host), JobId(request.key);
    var lease, fenced := OneLease(device, client), OneFence(device, client, job);
    AcknowledgedJob(request, device, client, agent, host);
    OlderSaveReturns(NO_JOBS, Saves(request, device, client, agent, host), s.jobs, s.jobs);
    SavedAllHolds(EMPTY_BOOK, [EMPTY_BOOK, lease, lease, lease, fenced, fenced, fenced]);
    OnlyInNextIsReached(request, device, client, agent, host, snapshot);
    NewNodeInv();
    RunInv(NEW_NODE, ToSubmission(request, device, client, agent, host, snapshot)
                     + FromSubmission(request, device, agent, host));
  }

  /** From there saving stops after emptying `.next`, and the next start takes the device away from the job,
      although nobody reported its end and nobody detached the device. */
  lemma AcknowledgementIsLost(request: AppleRequest, device: DeviceId, client: PeerId, agent: PeerId, host: HostId,
                              snapshot: Host)
    requires NamesLease(request, device) && Suits(snapshot, request)
    ensures var s, job := OnlyInNext(request, device, client, agent, host), JobId(request.key);
            var run := [LeaseOp(client, false, Validate(0, device, client), [], [device], 0, SAVED, Truncated),
                        Restart([], [device], 0, SAVED, SAVED, SAVED)];
            && NodeInv(s) && Careful(s) && Durable(s, device, job, 1, client)
            && PossibleRun(s, run) && Kept(s, run, device, job)
            && device !in RegistryState.After(s, run).book.writers
  {
    hide Persist, Held, SavedAll, NodeInv, Durable, Careful, Acknowledge, MarkDispatched, NewJob, Exec, Possible;
    var s, job := OnlyInNext(request, device, client, agent, host), JobId(request.key);
    var lease, fenced := OneLease(device, client), OneFence(device, client, job);
    var fails := LeaseOp(client, false, Validate(0, device, client), [], [device], 0, SAVED, Truncated);
    var restart := Restart([], [device], 0, SAVED, SAVED, SAVED);
    OnlyInNextFits(request, device, client, agent, host, snapshot);
    AcknowledgedJob(request, device, client, agent, host);
    OlderSaveReturns(NO_JOBS, Saves(request, device, client, agent, host), s.jobs, s.jobs);
    SavedAllHolds(EMPTY_BOOK, [EMPTY_BOOK, lease, lease, lease, fenced, fenced, fenced]);
    var s1 := s.(bookCopy := Persist(s.bookCopy, fenced, SAVED), jobsCopy := Persist(s.jobsCopy, s.jobs, Truncated));
    Validates(s, device, client, [device], Truncated);
    SavedMore(EMPTY_BOOK, [EMPTY_BOOK, lease, lease, lease, fenced, fenced, fenced], fenced,
              [EMPTY_BOOK, lease, lease, lease, fenced, fenced, fenced, fenced]);
    SavedAllHolds(EMPTY_BOOK, [EMPTY_BOOK, lease, lease, lease, fenced, fenced, fenced, fenced]);
    DropsOneFence(s1, device, client, job);
    OneStep(s1, restart, []);
    OneStep(s, fails, [restart]);
    assert Kept(s1, [restart], device, job) by { assert [restart][1..] == []; }
    assert [fails] + [restart] == [fails, restart] && [fails, restart][1..] == [restart];
  }

  lemma DropsOneFence(s: Node, device: DeviceId, client: PeerId, job: JobId)
    requires Held(s.bookCopy) == OneFence(device, client, job) && job !in Held(s.jobsCopy).acknowledged
    ensures var restart := Restart([], [device], 0, SAVED, SAVED, SAVED);
            Possible(s, restart) && device !in Exec(s, restart).0.book.writers
  {
    hide Persist, Held;
    var jobs, b := Held(s.jobsCopy), Held(s.bookCopy);
    assert Orphans(jobs, b) == {device};
    UnfenceAllWriters(Ledger(b, jobs.devicePeers), [device], {device}, 0);
  }
}
