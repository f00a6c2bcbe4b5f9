/** Single steps of small registries, from which runs out of an empty registry are put together. */
module RegistryPaths {
  import opened Common
  import opened AppleProtocol
  import opened Leases
  import opened Persistence
  import opened RegistryState

  /** Puts one step in front of a run. */
  lemma OneStep(s: Node, step: Step, rest: seq<Step>)
    requires Possible(s, step) && PossibleRun(Exec(s, step).0, rest)
    ensures PossibleRun(s, [step] + rest)
    ensures After(s, [step] + rest) == After(Exec(s, step).0, rest)
  {
    assert ([step] + rest)[1..] == rest;
  }

  /** Runs one run after the other. */
  lemma {:induction false} Onward(s: Node, run: seq<Step>, more: seq<Step>)
    requires PossibleRun(s, run) && PossibleRun(After(s, run), more)
    ensures PossibleRun(s, run + more) && After(s, run + more) == After(After(s, run), more)
    decreases |run|
  {
    hide Possible, Exec;
    if run == [] {
      assert run + more == more;
    } else {
      var s' := Exec(s, run[0]).0;
      Onward(s', run[1..], more);
      OneStep(s, run[0], run[1..] + more);
      FirstApart(run, more);
    }
  }

  lemma FirstApart<T>(run: seq<T>, more: seq<T>)
    requires run != []
    ensures [run[0]] + (run[1..] + more) == run + more
  {
  }

  // ---------------------------------------------------------------- hosts and leases

  /** The job maps after a first heartbeat of `agent`'s host with one device. */
  function OneAgent(agent: PeerId, host: HostId, device: DeviceId): Jobs {
    NO_JOBS.(hostPeers := map[host := agent], devicePeers := map[device := agent])
  }

  lemma TakesInventory(s: Node, agent: PeerId, host: HostId, device: DeviceId)
    requires s.running && s.jobs == NO_JOBS && s.book == EMPTY_BOOK
    ensures var inventory := Inventory(agent, true, host, {device}, [], 0, SAVED);
            && Possible(s, inventory)
            && Exec(s, inventory).0
               == s.(jobs := OneAgent(agent, host, device), bookCopy := Persist(s.bookCopy, EMPTY_BOOK, SAVED))
  {
    hide Persist, Held;
    assert NO_JOBS.hostPeers[host := agent] == map[host := agent];
    assert EMPTY_BOOK.pendingDetach - {device} == {};
  }

  /** A later heartbeat with the same device changes nothing. */
  lemma TakesInventoryAgain(s: Node, agent: PeerId, host: HostId, device: DeviceId)
    requires s.running && s.book.pendingDetach == {}
    requires s.jobs.hostPeers == map[host := agent] && s.jobs.devicePeers == map[device := agent]
    ensures var inventory := Inventory(agent, true, host, {device}, [], 0, SAVED);
            && Possible(s, inventory)
            && Exec(s, inventory).0 == s.(bookCopy := Persist(s.bookCopy, s.book, SAVED))
  {
    hide Persist, Held, InventoryClash, Detached;
    SamePeers(s.jobs, agent, host, device);
    assert s.book.(pendingDetach := s.book.pendingDetach - {device}) == s.book;
  }

  lemma SamePeers(jobs: Jobs, agent: PeerId, host: HostId, device: DeviceId)
    requires jobs.hostPeers == map[host := agent] && jobs.devicePeers == map[device := agent]
    ensures var connected := {device};
            && !InventoryClash(jobs, agent, host, connected) && Detached(jobs, agent, connected) == {}
            && jobs.devicePeers + (map d | d in connected :: agent) == jobs.devicePeers
            && jobs.hostPeers[host := agent] == jobs.hostPeers
  {
  }

  /** The lease book with one lease, numbered 1, which runs out at time 10. */
  function OneLease(device: DeviceId, client: PeerId): Book {
    EMPTY_BOOK.(nextId := 1, active := map[device := Lease(1, device, client, 10)], grants := [Grant(device, client)])
  }

  lemma Acquires(s: Node, device: DeviceId, client: PeerId)
    requires s.running && s.book == EMPTY_BOOK
    ensures var acquire := LeaseOp(client, false, Acquire(device, 10), [], [], 0, SAVED, SAVED);
            var book := OneLease(device, client);
            && Possible(s, acquire)
            && Exec(s, acquire).0 == s.(book := book, bookCopy := Persist(s.bookCopy, book, SAVED),
                                        jobsCopy := Persist(s.jobsCopy, s.jobs, SAVED))
  {
    hide Persist, Held;
    assert Insert(EMPTY_BOOK, device, client, 10, 0) == OneLease(device, client);
  }

  /** A lease request that changes nothing saves both files all the same. */
  lemma Validates(s: Node, device: DeviceId, client: PeerId, visit: seq<DeviceId>, save: Save)
    requires s.running && Expired(s.book, 0) == {} && IsOrderOf(visit, HeldBy(s.book, client))
    ensures var validate := LeaseOp(client, false, Validate(0, device, client), [], visit, 0, SAVED, save);
            && Possible(s, validate)
            && Exec(s, validate).0 == s.(bookCopy := Persist(s.bookCopy, s.book, SAVED),
                                         jobsCopy := Persist(s.jobsCopy, s.jobs, save))
  {
    hide Persist, Held;
  }

  lemma ExpiresNothing(s: Node)
    requires s.running && Expired(s.book, 0) == {}
    ensures var expire := Expire([], 0, SAVED);
            && Possible(s, expire)
            && Exec(s, expire).0 == s.(bookCopy := Persist(s.bookCopy, s.book, SAVED))
  {
    hide Persist, Held;
  }

  lemma Announces(s: Node, host: HostId, snapshot: Host)
    requires s.running && s.hosts == map[]
    ensures Possible(s, Announce(host, snapshot))
    ensures Exec(s, Announce(host, snapshot)).0 == s.(hosts := map[host := snapshot])
  {
  }

  // ---------------------------------------------------------------- one job

  /** The request mutates `device` under lease 1. */
  predicate NamesLease(request: AppleRequest, device: DeviceId) {
    request.operation.MutatesDevice() && request.device == Some(device) && request.lease == Some(1)
  }

  /** The host can be given the job at time 0. */
  predicate Suits(snapshot: Host, request: AppleRequest) {
    && request.capability in snapshot.capabilities && snapshot.heartbeat == 0
    && (request.device.Some? ==> request.device.value in snapshot.connected)
  }

  lemma Admits(s: Node, request: AppleRequest, device: DeviceId, client: PeerId)
    requires s.running && s.book == OneLease(device, client) && s.admitted == {} && NamesLease(request, device)
    ensures var admit := Admit(client, request, [], 0, SAVED);
            && Possible(s, admit)
            && Exec(s, admit).0 == s.(admitted := {Submission(client, request)},
                                      bookCopy := Persist(s.bookCopy, s.book, SAVED))
  {
    hide Persist, Held;
    assert Expired(s.book, 0) == {};
  }

  lemma Creates(s: Node, request: AppleRequest, client: PeerId, host: HostId, snapshot: Host)
    requires s.running && s.hosts == map[host := snapshot] && s.admitted == {Submission(client, request)}
    requires request.key !in s.jobs.requests && Suits(snapshot, request)
    ensures var create, jobs := Create(client, request, Some(host), 1, 0, SAVED), NewJob(s.jobs, client, request, host);
            && Possible(s, create)
            && Exec(s, create).0 == s.(jobs := jobs, jobsCopy := Persist(s.jobsCopy, jobs, SAVED))
  {
    hide Persist, Held, NewJob;
  }

  /** A fence on the device of the one lease. */
  function OneFence(device: DeviceId, client: PeerId, job: JobId): Book {
    OneLease(device, client).(writers := map[device := job])
  }

  /** The job is handed out under its lease. */
  lemma HandsOut(s: Node, request: AppleRequest, device: DeviceId, client: PeerId, host: HostId)
    requires var job := JobId(request.key);
             && s.running && s.book == OneLease(device, client) && NamesLease(request, device)
             && job in s.jobs.pending && s.jobs.pending[job] == request
             && job in s.jobs.hosts && s.jobs.hosts[job] == host
             && job in s.jobs.clients && s.jobs.clients[job] == client && job !in s.jobs.acknowledged
    ensures var job := JobId(request.key);
            var dispatch := Dispatch(host, Some(job), [], [device], 0, SAVED, SAVED, SAVED);
            var jobs, book := MarkDispatched(s.jobs, job), OneFence(device, client, job);
            && Possible(s, dispatch)
            && Exec(s, dispatch).0 == s.(jobs := jobs, jobsCopy := Persist(s.jobsCopy, jobs, SAVED),
                                         book := book, bookCopy := Persist(s.bookCopy, book, SAVED))
  {
    hide Persist, Held;
    var job := JobId(request.key);
    assert Expired(s.book, 0) == {};
    assert s.book.writers[device := job] == map[device := job];
    assert Orphans(s.jobs, OneFence(device, client, job)) == {device};
  }

  /** A report on the job whose save of the job maps stops at `save`. */
  lemma Reports(s: Node, request: AppleRequest, device: DeviceId, client: PeerId, agent: PeerId, save: Save)
    requires var job := JobId(request.key);
             && s.running && s.book == OneFence(device, client, job) && NamesLease(request, device)
             && job in s.jobs.pending && s.jobs.pending[job] == request
             && job in s.jobs.agents && s.jobs.agents[job] == agent
             && job in s.jobs.clients && s.jobs.clients[job] == client
    ensures var job := JobId(request.key);
            var report := Progress(agent, job, [], false, [], 0, SAVED, save, SAVED);
            var jobs := Acknowledge(s.jobs, job, []);
            && Possible(s, report)
            && Exec(s, report).0 == s.(jobs := jobs, jobsCopy := Persist(s.jobsCopy, jobs, save),
                                       bookCopy := Persist(s.bookCopy, s.book, SAVED))
  {
    hide Persist, Held, Acknowledge;
    assert Expired(s.book, 0) == {};
    assert Restore(s.jobs, s.book, JobId(request.key), [], 0) == (s.book, Fence(false));
  }

  // ---------------------------------------------------------------- a submitted job

  function OneJob(request: AppleRequest, device: DeviceId, client: PeerId, agent: PeerId, host: HostId): Jobs {
    NewJob(OneAgent(agent, host, device), client, request, host)
  }

  lemma SubmittedJob(request: AppleRequest, device: DeviceId, client: PeerId, agent: PeerId, host: HostId)
    ensures var jobs, job := OneJob(request, device, client, agent, host), JobId(request.key);
            && jobs.pending == map[job := request] && jobs.hosts == map[job := host]
            && jobs.clients == map[job := client] && jobs.agents == map[job := agent]
            && jobs.acknowledged == {} && jobs.dispatched == {}
            && jobs.hostPeers == map[host := agent] && jobs.devicePeers == map[device := agent]
  {
  }

  /** A registry with one agent and one lease. */
  function Leased(device: DeviceId, client: PeerId, agent: PeerId, host: HostId, snapshot: Host): Node {
    var lease := OneLease(device, client);
    Node(OneAgent(agent, host, device), lease, map[host := snapshot], {},
         SavedAll(NO_JOBS, [OneAgent(agent, host, device)]), SavedAll(EMPTY_BOOK, [EMPTY_BOOK, lease, lease]), true)
  }

  /** ... and one job submitted under the lease. */
  function OneSubmission(request: AppleRequest, device: DeviceId, client: PeerId, agent: PeerId, host: HostId,
                         snapshot: Host): Node
  {
    var lease := OneLease(device, client);
    Node(OneJob(request, device, client, agent, host), lease, map[host := snapshot], {Submission(client, request)},
         SavedAll(NO_JOBS, [OneAgent(agent, host, device), OneJob(request, device, client, agent, host)]),
         SavedAll(EMPTY_BOOK, [EMPTY_BOOK, lease, lease, lease]), true)
  }

  /** Three sections of a heartbeat, with the lease request of a client in between. */
  function ToLease(device: DeviceId, client: PeerId, agent: PeerId, host: HostId, snapshot: Host): seq<Step> {
    [Inventory(agent, true, host, {device}, [], 0, SAVED),
     LeaseOp(client, false, Acquire(device, 10), [], [], 0, SAVED, SAVED),
     Expire([], 0, SAVED),
     Announce(host, snapshot)]
  }

  /** ... and then its submission. */
  function ToSubmission(request: AppleRequest, device: DeviceId, client: PeerId, agent: PeerId, host: HostId,
                        snapshot: Host): seq<Step>
  {
    ToLease(device, client, agent, host, snapshot)
    + [Admit(client, request, [], 0, SAVED), Create(client, request, Some(host), 1, 0, SAVED)]
  }

  lemma AcquiresFirst(device: DeviceId, client: PeerId, agent: PeerId, host: HostId)
    ensures var lease := OneLease(device, client);
            var run := [Inventory(agent, true, host, {device}, [], 0, SAVED),
                        LeaseOp(client, false, Acquire(device, 10), [], [], 0, SAVED, SAVED)];
            && PossibleRun(NEW_NODE, run)
            && After(NEW_NODE, run) == Node(OneAgent(agent, host, device), lease, map[], {},
                                            SavedAll(NO_JOBS, [OneAgent(agent, host, device)]),
                                            SavedAll(EMPTY_BOOK, [EMPTY_BOOK, lease]), true)
  {
    hide Possible, Exec, Persist, Held, SavedAll;
    var agents, lease := OneAgent(agent, host, device), OneLease(device, client);
    SavedNothing(NO_JOBS);
    SavedNothing(EMPTY_BOOK);
    var s1 := NEW_NODE.(jobs := agents, bookCopy := SavedAll(EMPTY_BOOK, [EMPTY_BOOK]));
    SavedMore(EMPTY_BOOK, [], EMPTY_BOOK, [EMPTY_BOOK]);
    TakesInventory(NEW_NODE, agent, host, device);
    SavedMore(EMPTY_BOOK, [EMPTY_BOOK], lease, [EMPTY_BOOK, lease]);
    SavedMore(NO_JOBS, [], agents, [agents]);
    Acquires(s1, device, client);
    var acquire := LeaseOp(client, false, Acquire(device, 10), [], [], 0, SAVED, SAVED);
    OneStep(s1, acquire, []);
    OneStep(NEW_NODE, Inventory(agent, true, host, {device}, [], 0, SAVED), [acquire]);
  }

  lemma ExpiresAndAnnounces(s: Node, host: HostId, snapshot: Host)
    requires s.running && s.hosts == map[] && Expired(s.book, 0) == {}
    ensures var run := [Expire([], 0, SAVED), Announce(host, snapshot)];
            && PossibleRun(s, run)
            && After(s, run) == s.(hosts := map[host := snapshot], bookCopy := Persist(s.bookCopy, s.book, SAVED))
  {
    hide Possible, Exec, Persist, Held;
    var s1 := s.(bookCopy := Persist(s.bookCopy, s.book, SAVED));
    ExpiresNothing(s);
    Announces(s1, host, snapshot);
    OneStep(s1, Announce(host, snapshot), []);
    OneStep(s, Expire([], 0, SAVED), [Announce(host, snapshot)]);
  }

  lemma LeaseIsReached(device: DeviceId, client: PeerId, agent: PeerId, host: HostId, snapshot: Host)
    ensures var run := ToLease(device, client, agent, host, snapshot);
            PossibleRun(NEW_NODE, run) && After(NEW_NODE, run) == Leased(device, client, agent, host, snapshot)
  {
    hide Possible, Exec, Persist, Held, SavedAll, OneAgent;
    var lease := OneLease(device, client);
    var first := [Inventory(agent, true, host, {device}, [], 0, SAVED),
                  LeaseOp(client, false, Acquire(device, 10), [], [], 0, SAVED, SAVED)];
    AcquiresFirst(device, client, agent, host);
    ExpiresAndAnnounces(After(NEW_NODE, first), host, snapshot);
    SavedMore(EMPTY_BOOK, [EMPTY_BOOK, lease], lease, [EMPTY_BOOK, lease, lease]);
    Onward(NEW_NODE, first, [Expire([], 0, SAVED), Announce(host, snapshot)]);
    assert first + [Expire([], 0, SAVED), Announce(host, snapshot)] == ToLease(device, client, agent, host, snapshot);
  }

  lemma SubmitsUnderLease(request: AppleRequest, device: DeviceId, client: PeerId, agent: PeerId, host: HostId,
                          snapshot: Host)
    requires NamesLease(request, device) && Suits(snapshot, request)
    ensures var s := Leased(device, client, agent, host, snapshot);
            var run := [Admit(client, request, [], 0, SAVED), Create(client, request, Some(host), 1, 0, SAVED)];
            && PossibleRun(s, run)
            && After(s, run) == OneSubmission(request, device, client, agent, host, snapshot)
  {
    hide Possible, Exec, Persist, Held, SavedAll, NewJob;
    var agents, lease := OneAgent(agent, host, device), OneLease(device, client);
    var job := OneJob(request, device, client, agent, host);
    var s := Leased(device, client, agent, host, snapshot);
    var s1 := s.(admitted := {Submission(client, request)},
                 bookCopy := SavedAll(EMPTY_BOOK, [EMPTY_BOOK, lease, lease, lease]));
    SavedMore(EMPTY_BOOK, [EMPTY_BOOK, lease, lease], lease, [EMPTY_BOOK, lease, lease, lease]);
    Admits(s, request, device, client);
    SavedMore(NO_JOBS, [agents], job, [agents, job]);
    Creates(s1, request, client, host, snapshot);
    var create := Create(client, request, Some(host), 1, 0, SAVED);
    OneStep(s1, create, []);
    OneStep(s, Admit(client, request, [], 0, SAVED), [create]);
  }

  lemma SubmissionIsReached(request: AppleRequest, device: DeviceId, client: PeerId, agent: PeerId, host: HostId,
                            snapshot: Host)
    requires NamesLease(request, device) && Suits(snapshot, request)
    ensures var run := ToSubmission(request, device, client, agent, host, snapshot);
            && PossibleRun(NEW_NODE, run)
            && After(NEW_NODE, run) == OneSubmission(request, device, client, agent, host, snapshot)
  {
    hide Possible, Exec, Leased, OneSubmission, ToLease;
    LeaseIsReached(device, client, agent, host, snapshot);
    SubmitsUnderLease(request, device, client, agent, host, snapshot);
    Onward(NEW_NODE, ToLease(device, client, agent, host, snapshot),
           [Admit(client, request, [], 0, SAVED), Create(client, request, Some(host), 1, 0, SAVED)]);
  }
}
