/** Submitting a job, once or again: the lease check, the idempotency key, and what a repetition is answered. */
module RegistrySubmissions {
  import opened Common
  import opened AppleProtocol
  import opened Leases
  import opened Persistence
  import opened RegistryState
  import opened RegistryInvariant
  import opened RegistryRuns
  import opened RegistryPaths

  // ---------------------------------------------------------------- the lease check

  /** The lease the request names is active on the device it names, and `peer` holds it. */
  predicate InForce(b: Book, peer: PeerId, request: AppleRequest) {
    && request.device.Some? && request.device.value in b.active
    && request.lease == Some(b.active[request.device.value].id)
    && b.active[request.device.value].client == peer
  }

  /** Holding the lease before the check, with time left on it or a job still running under it. */
  predicate InForceAt(b: Book, peer: PeerId, request: AppleRequest, now: nat) {
    InForce(b, peer, request)
    && (now < b.active[request.device.value].expiresAt || request.device.value in b.writers)
  }

  /** For a lease that has been issued, what the check finds after expiring leases can be told before it,
      whatever order they expire in: nobody is promoted into an old lease number. */
  lemma InForceExactly(b: Book, peer: PeerId, request: AppleRequest, order: seq<DeviceId>, now: nat)
    requires ExpiryOrder(b, order, now)
    requires request.lease.Some? && request.lease.value <= b.nextId
    ensures InForce(ReleaseAll(b, order, now), peer, request) <==> InForceAt(b, peer, request, now)
  {
    ReleaseAllMeaning(b, order, Expired(b, now), now);
    var r := ReleaseAll(b, order, now);
    if request.device.Some? {
      var d := request.device.value;
      if d in Expired(b, now) && d !in b.writers { assert Promoted(b, r, d, now); }
    }
  }

  /** The answer of the lease check. */
  function Verdict(b: Book, peer: PeerId, request: AppleRequest, order: seq<DeviceId>, now: nat, save: Save): Reply {
    if !request.operation.MutatesDevice() then Done
    else if !save.Complete? then Refused("persistence_failed")
    else if InForce(ReleaseAll(b, order, now), peer, request) then Done
    else Refused("lease_inactive")
  }

  /** The lease check reads and changes the lease book only, and lets a submission through exactly when it
      answers it with `Done`. */
  lemma AdmitTouchesNoJob(s: Node, step: Step)
    requires Possible(s, step) && step.Admit?
    ensures var (s', reply) := Exec(s, step);
            && reply == Verdict(s.book, step.peer, step.request, step.order, step.now, step.save)
            && s'.jobs == s.jobs && s'.jobsCopy == s.jobsCopy && s'.running == s.running
            && s'.admitted == s.admitted + (if reply == Done then {Submission(step.peer, step.request)} else {})
  {
  }

  // ---------------------------------------------------------------- submitting again

  /** A repetition of a remembered submission, in its two critical sections with anything in between. */
  datatype Repetition = Repetition(before: seq<Step>, admit: Step, between: seq<Step>, create: Step)

  ghost predicate Repeats(s: Node, r: Repetition, key: Name) {
    && PossibleRun(s, r.before) && r.admit.Admit? && Possible(After(s, r.before), r.admit)
    && r.admit.request.key == key
    && (var s1 := Exec(After(s, r.before), r.admit).0;
        && PossibleRun(s1, r.between) && Careful(After(s1, r.between))
        && r.create.Create? && r.create.peer == r.admit.peer && r.create.request == r.admit.request
        && Possible(After(s1, r.between), r.create))
  }

  /** However much later, and across restarts, a submission under a remembered key gets past the lease check
      exactly if the operation does not mutate a device, or the lease file can be saved and the named lease is
      active on the device and held by the peer. Then it is answered from memory: the same request gets the
      same job, a different one is a conflict. Neither section changes a job map, and the second nothing. */
  lemma Resubmission(s: Node, r: Repetition, first: AppleRequest)
    requires NodeInv(s) && Remembers(s.jobs, first) && Remembers(Held(s.jobsCopy), first)
    requires Repeats(s, r, first.key)
    ensures var t, again := After(s, r.before), r.admit.request;
            var (s1, checked) := Exec(t, r.admit);
            var u := After(s1, r.between);
            && s1.jobs == t.jobs && s1.jobsCopy == t.jobsCopy
            && (checked == Done <==>
                  || !again.operation.MutatesDevice()
                  || (r.admit.save.Complete?
                      && InForce(ReleaseAll(t.book, r.admit.order, r.admit.now), r.admit.peer, again)))
            && Exec(u, r.create)
               == (u, if again == first then Job(JobId(first.key)) else Refused("idempotency_conflict"))
  {
    var t := After(s, r.before);
    var s1 := Exec(t, r.admit).0;
    var u := After(s1, r.between);
    AdmitTouchesNoJob(t, r.admit);
    RunCareful(s1, r.between);
    StepCareful(t, r.admit);
    RemembersRun(s, r.before, first);
    hide Exec, Remembers, NodeInv, Careful;
    StepInv(t, r.admit);
    RemembersStep(t, r.admit, first);
    RemembersRun(s1, r.between, first);
    AnsweredFromMemory(u, r.create, first);
  }

  lemma AnsweredFromMemory(u: Node, create: Step, first: AppleRequest)
    requires Possible(u, create) && create.Create? && NodeInv(u) && Remembers(u.jobs, first)
    requires create.request.key == first.key
    ensures Exec(u, create)
            == (u, if create.request == first then Job(JobId(first.key)) else Refused("idempotency_conflict"))
  {
  }

  /** Told before the call: an identical repetition that mutates a device is let through exactly if the save
      completes and its client still holds the lease, unexpired or with a job running under it. */
  lemma IdenticalRepetition(s: Node, admit: Step, first: AppleRequest)
    requires NodeInv(s) && Remembers(s.jobs, first) && first.operation.MutatesDevice()
    requires Possible(s, admit) && admit.Admit? && admit.request == first
    ensures Exec(s, admit).1 ==
            if !admit.save.Complete? then Refused("persistence_failed")
            else if InForceAt(s.book, admit.peer, first, admit.now) then Done
            else Refused("lease_inactive")
  {
    assert NamesGrant(first, s.jobs.clients[JobId(first.key)], Held(s.bookCopy).grants);
    InForceExactly(s.book, admit.peer, first, admit.order, admit.now);
  }

  // ---------------------------------------------------------------- the repetition that is refused

  /** A client submits a job under a lease; before the job is handed out the lease runs out, and the very same
      submission is refused. The check takes the lease away. The state before it comes about from an empty
      registry, and remembers the submission in memory and on disk. */
  lemma LapsedLeaseRefusesRepetition(request: AppleRequest, device: DeviceId, client: PeerId, agent: PeerId,
                                     host: HostId, snapshot: Host)
    requires NamesLease(request, device) && Suits(snapshot, request)
    ensures var run := ToSubmission(request, device, client, agent, host, snapshot);
            && PossibleRun(NEW_NODE, run)
            && var s, admit := After(NEW_NODE, run), Admit(client, request, [device], 10, SAVED);
               && NodeInv(s) && Careful(s) && Remembers(s.jobs, request) && Remembers(Held(s.jobsCopy), request)
               && Possible(s, admit) && Exec(s, admit).1 == Refused("lease_inactive")
               && Exec(s, admit).0.book.active == map[]
  {
    hide Persist, Held, SavedAll, NodeInv, NewJob, Possible, Exec;
    var s := OneSubmission(request, device, client, agent, host, snapshot);
    var lease, jobs := OneLease(device, client), OneJob(request, device, client, agent, host);
    SubmissionIsReached(request, device, client, agent, host, snapshot);
    SavedAllHolds(NO_JOBS, [OneAgent(agent, host, device), jobs]);
    SavedAllHolds(EMPTY_BOOK, [EMPTY_BOOK, lease, lease, lease]);
    NewNodeInv();
    RunInv(NEW_NODE, ToSubmission(request, device, client, agent, host, snapshot));
    NewJobIsRemembered(OneAgent(agent, host, device), client, request, host);
    LapsedIsRefused(s, request, device, client);
  }

  lemma NewJobIsRemembered(jobs: Jobs, client: PeerId, request: AppleRequest, host: HostId)
    ensures Remembers(NewJob(jobs, client, request, host), request)
  {
  }

  lemma LapsedIsRefused(s: Node, request: AppleRequest, device: DeviceId, client: PeerId)
    requires s.running && s.book == OneLease(device, client) && NamesLease(request, device)
    ensures var admit := Admit(client, request, [device], 10, SAVED);
            && Possible(s, admit) && Exec(s, admit).1 == Refused("lease_inactive")
            && Exec(s, admit).0.book.active == map[]
  {
    hide Persist, Held;
    assert Expired(s.book, 10) == {device};
    assert ReleaseAll(s.book, [device], 10) == Release(s.book, device, 10);
  }
}
