/** The request handlers of the registry, updating the shared job maps and lease book in place. Each one is
    proved equal to a step of module `RegistryState`; `step` reports which. */
module RegistryServer {
  import opened Common
  import opened AppleProtocol
  import opened Leases
  import opened LeaseBookStore
  import opened Persistence
  import opened RegistryState
  import opened RegistryInvariant
  import opened EventReports
  import opened HeartbeatAnswers
  import opened RegistryAnswers

  class Registry {
    var state: Jobs
    const leases: LeaseBook
    var hosts: map<HostId, Host>
    ghost var admitted: set<Submission>
    ghost var stateCopy: Copy<Jobs>
    ghost var leasesCopy: Copy<Book>
    ghost var running: bool

    ghost function Node(): Node
      reads this, leases
    {
      RegistryState.Node(state, leases.View(), hosts, admitted, stateCopy, leasesCopy, running)
    }

    /** A registry that has read its files and serves nothing yet. */
    constructor (loadedState: Jobs, loadedLeases: Book, ghost stateFiles: Copy<Jobs>, ghost leaseFiles: Copy<Book>)
      requires loadedState == Held(stateFiles) && loadedLeases == Held(leaseFiles)
      ensures fresh(leases)
      ensures Node() == RegistryState.Node(loadedState, loadedLeases, map[], {}, stateFiles, leaseFiles, false)
    {
      state, hosts, admitted, running := loadedState, map[], {}, false;
      leases := new LeaseBook(loadedLeases);
      stateCopy, leasesCopy := stateFiles, leaseFiles;
    }

    /** The rest of a start: expired leases go, then orphaned fences. Where a save fails the start fails, and
        only what it left in the files remains. */
    method Start(now: nat, saveBook: Save, saveJobs: Save, saveAgain: Save)
      returns (ok: bool, ghost order: seq<DeviceId>, ghost undo: seq<DeviceId>)
      requires state == Held(stateCopy) && leases.View() == Held(leasesCopy)
      requires hosts == map[] && admitted == {} && !running
      modifies this, leases
      ensures Possible(old(Node()), Restart(order, undo, now, saveBook, saveJobs, saveAgain))
      ensures var s' := Exec(old(Node()), Restart(order, undo, now, saveBook, saveJobs, saveAgain)).0;
              && ok == s'.running && (ok ==> Node() == s')
              && Node().jobsCopy == s'.jobsCopy && Node().bookCopy == s'.bookCopy && Node().running == s'.running
    {
      hide Persist, Held, ReleaseAll, Orphans, Reconcile;
      order := leases.Expire(now);
      ok := PersistLeases(saveBook);
      if !ok {
        undo := SomeOrder(Orphans(state, leases.View()));
        return;
      }
      ok, undo := ReconcileFiles(now, saveJobs, saveAgain);
      running := ok;
    }

    /** Reconciles what was loaded, and saves it where that changed anything. */
    method ReconcileFiles(now: nat, saveJobs: Save, saveAgain: Save) returns (ok: bool, ghost undo: seq<DeviceId>)
      modifies this`state, this`stateCopy, this`leasesCopy, leases
      ensures IsOrderOf(undo, Orphans(old(state), old(leases.View())))
      ensures (state, leases.View()) == Reconcile(old(state), old(leases.View()), undo, now)
      ensures ok == (undo == [] || (saveJobs.Complete? && saveAgain.Complete?))
      ensures stateCopy == if undo == [] then old(stateCopy) else Persist(old(stateCopy), state, saveJobs)
      ensures leasesCopy == if undo == [] || !saveJobs.Complete? then old(leasesCopy)
                            else Persist(old(leasesCopy), leases.View(), saveAgain)
    {
      hide Persist, Orphans, Reconcile;
      var orphaned;
      orphaned, undo := ReconcileState(now);
      OrderIsEmpty(undo, Orphans(old(state), old(leases.View())));
      ok := true;
      if orphaned {
        ok := PersistState(saveJobs);
        if !ok { return; }
        ok := PersistLeases(saveAgain);
      }
    }

    // ------------------------------------------------------------ files

    method PersistLeases(save: Save) returns (ok: bool)
      modifies this`leasesCopy
      ensures ok == save.Complete? && leasesCopy == Persist(old(leasesCopy), leases.View(), save)
    {
      hide Persist, Held;
      leasesCopy := Persist(leasesCopy, leases.View(), save);
      ok := save.Complete?;
    }

    method PersistState(save: Save) returns (ok: bool)
      modifies this`stateCopy
      ensures ok == save.Complete? && stateCopy == Persist(old(stateCopy), state, save)
    {
      hide Persist, Held;
      stateCopy := Persist(stateCopy, state, save);
      ok := save.Complete?;
    }

    // ------------------------------------------------------------ fences

    method DropFence(device: DeviceId, now: nat)
      modifies this`state, leases
      ensures Ledger(leases.View(), state.devicePeers)
              == Unfence(Ledger(old(leases.View()), old(state.devicePeers)), device, now)
      ensures state == old(state).(devicePeers := state.devicePeers)
    {
      leases.writers := leases.writers - {device};
      if device in leases.pendingRelease {
        leases.pendingRelease := leases.pendingRelease - {device};
        leases.ReleaseDevice(device, now);
      }
      if device in leases.pendingDetach {
        leases.pendingDetach := leases.pendingDetach - {device};
        state := state.(devicePeers := state.devicePeers - {device});
      }
    }

    method DropFences(devices: set<DeviceId>, now: nat) returns (ghost order: seq<DeviceId>)
      modifies this`state, leases
      ensures IsOrderOf(order, devices)
      ensures Ledger(leases.View(), state.devicePeers)
              == UnfenceAll(Ledger(old(leases.View()), old(state.devicePeers)), order, now)
      ensures state == old(state).(devicePeers := state.devicePeers)
    {
      ghost var before := Ledger(leases.View(), state.devicePeers);
      order := [];
      var left := devices;
      while left != {}
        invariant left <= devices && IsOrderOf(order, devices - left)
        invariant Ledger(leases.View(), state.devicePeers) == UnfenceAll(before, order, now)
        invariant state == old(state).(devicePeers := state.devicePeers)
      {
        var device :| device in left;
        DropFence(device, now);
        UnfenceAllSnoc(before, order, device, now);
        OrderSnoc(order, devices - left, device);
        left := left - {device};
        order := order + [device];
        assert devices - left == devices - (left + {device}) + {device};
      }
      assert devices - left == devices;
    }

    /** Drops the fences of jobs that are not acknowledged and pending. */
    method ReconcileState(now: nat) returns (orphaned: bool, ghost order: seq<DeviceId>)
      modifies this`state, leases
      ensures IsOrderOf(order, Orphans(old(state), old(leases.View())))
      ensures (state, leases.View()) == Reconcile(old(state), old(leases.View()), order, now)
      ensures orphaned <==> Orphans(old(state), old(leases.View())) != {}
    {
      var orphans := set d | d in leases.writers
                             && (leases.writers[d] !in state.acknowledged || leases.writers[d] !in state.pending);
      order := DropFences(orphans, now);
      orphaned := orphans != {};
    }

    method RestoreWriter(job: JobId, now: nat) returns (restored: Restored, ghost order: seq<DeviceId>)
      modifies leases
      ensures ExpiryOrder(old(leases.View()), order, now)
      ensures (leases.View(), restored) == Restore(state, old(leases.View()), job, order, now)
    {
      order := SomeOrder(Expired(leases.View(), now));
      if job !in state.pending { return NoFence("unknown_job"), order; }
      var request := state.pending[job];
      if !request.operation.MutatesDevice() { return Fence(false), order; }
      order := leases.Expire(now);
      if request.device.None? || request.lease.None? || job !in state.clients {
        return NoFence("lease_inactive"), order;
      }
      var device := request.device.value;
      var valid := device in leases.active && leases.active[device].id == request.lease.value
                   && leases.active[device].client == state.clients[job];
      if !valid { return NoFence("lease_inactive"), order; }
      if device in leases.writers {
        return if leases.writers[device] == job then Fence(false) else NoFence("device_writer_busy"), order;
      }
      leases.writers := leases.writers[device := job];
      return Fence(true), order;
    }

    // ------------------------------------------------------------ heartbeat

    method HeartbeatInventory(peer: PeerId, isAgent: bool, host: HostId, connected: set<DeviceId>, now: nat, save: Save)
      returns (reply: Reply, ghost step: Step)
      requires running
      modifies this, leases
      ensures Possible(old(Node()), step) && Exec(old(Node()), step) == (Node(), reply)
      ensures step.Inventory? && step == Inventory(peer, isAgent, host, connected, step.order, now, save)
      ensures InventoryTells(old(Node()), Node(), peer, isAgent, host, connected, now, save, reply)
    {
      hide Persist, Held, DetachAll, Detached, InventoryClash, InventoryTells, IsOrderOf;
      ghost var order := SomeOrder(Detached(state, peer, connected));
      if !isAgent { reply := Refused("agent_access_denied"); }
      else if InventoryClash(state, peer, host, connected) { reply := Refused("agent_identity_mismatch"); }
      else {
        var detached := Detached(state, peer, connected);
        state := state.(hostPeers := state.hostPeers[host := peer],
                        devicePeers := state.devicePeers + (map d | d in connected :: peer));
        leases.pendingDetach := leases.pendingDetach - connected;
        order := DetachEach(detached, now);
        var ok := PersistLeases(save);
        reply := if ok then Done else Refused("persistence_failed");
      }
      step := Inventory(peer, isAgent, host, connected, order, now, save);
      InventoryAnswers(old(Node()), step);
    }

    method DetachEach(devices: set<DeviceId>, now: nat) returns (ghost order: seq<DeviceId>)
      modifies this`state, leases
      ensures IsOrderOf(order, devices)
      ensures Ledger(leases.View(), state.devicePeers)
              == DetachAll(Ledger(old(leases.View()), old(state.devicePeers)), order, now)
      ensures state == old(state).(devicePeers := state.devicePeers)
    {
      ghost var before := Ledger(leases.View(), state.devicePeers);
      order := [];
      var left := devices;
      while left != {}
        invariant left <= devices && IsOrderOf(order, devices - left)
        invariant Ledger(leases.View(), state.devicePeers) == DetachAll(before, order, now)
        invariant state == old(state).(devicePeers := state.devicePeers)
      {
        var device :| device in left;
        var writerActive := device in leases.writers;
        leases.DetachDevice(device, now);
        if !writerActive {
          state := state.(devicePeers := state.devicePeers - {device});
        }
        DetachAllSnoc(before, order, device, now);
        OrderSnoc(order, devices - left, device);
        left := left - {device};
        order := order + [device];
        assert devices - left == devices - (left + {device}) + {device};
      }
      assert devices - left == devices;
    }

    method HeartbeatExpire(now: nat, save: Save) returns (reply: Reply, ghost step: Step)
      requires running
      modifies this, leases
      ensures Possible(old(Node()), step) && Exec(old(Node()), step) == (Node(), reply)
      ensures step.Expire? && step == RegistryState.Expire(step.order, now, save)
      ensures ExpireTells(old(Node()), Node(), now, save, reply)
    {
      hide Persist, Held, ExpireTells;
      ghost var order := leases.Expire(now);
      step := RegistryState.Expire(order, now, save);
      var ok := PersistLeases(save);
      reply := if ok then Done else Refused("persistence_failed");
      ExpireAnswers(old(Node()), step);
    }

    /** A job the host may be handed, found by scanning the pending map. */
    method FindJob(host: HostId) returns (pick: Option<JobId>)
      ensures pick.Some? ==> Candidate(Node(), host, pick.value)
      ensures pick.None? ==> forall job :: !Candidate(Node(), host, job)
    {
      var left := state.pending.Keys;
      while left != {}
        invariant left <= state.pending.Keys
        invariant forall job | job in state.pending && job !in left :: !Candidate(Node(), host, job)
      {
        var job :| job in left;
        var request := state.pending[job];
        if job in state.hosts && state.hosts[job] == host && job !in state.acknowledged
           && (!request.operation.MutatesDevice() || request.device.None?
               || request.device.value !in leases.writers || leases.writers[request.device.value] == job)
        {
          return Some(job);
        }
        left := left - {job};
      }
      return None;
    }

    method HeartbeatDispatch(host: HostId, now: nat, saveBook: Save, saveJobs: Save, saveUndo: Save)
      returns (reply: Reply, ghost step: Step)
      requires running
      modifies this, leases
      ensures Possible(old(Node()), step) && Exec(old(Node()), step) == (Node(), reply)
      ensures step.Dispatch?
              && step == Dispatch(host, step.pick, step.order, step.undo, now, saveBook, saveJobs, saveUndo)
      ensures DispatchTells(old(Node()), Node(), host, now, saveBook, saveJobs, saveUndo, reply)
    {
      hide Persist, Held, HandOut, DoDispatch, Candidate, Orphans, DispatchTells;
      var pick := FindJob(host);
      ghost var order, undo;
      reply, order, undo := DispatchJob(pick, now, saveBook, saveJobs, saveUndo);
      step := Dispatch(host, pick, order, undo, now, saveBook, saveJobs, saveUndo);
      DispatchAnswers(old(Node()), step);
    }

    method DispatchJob(pick: Option<JobId>, now: nat, saveBook: Save, saveJobs: Save, saveUndo: Save)
      returns (reply: Reply, ghost order: seq<DeviceId>, ghost undo: seq<DeviceId>)
      requires pick.Some? ==> pick.value in state.pending
      modifies this, leases
      ensures ExpiryOrder(old(leases.View()), order, now)
      ensures pick.Some? ==> IsOrderOf(undo, UndoSet(old(Node()), pick.value, order, now))
      ensures (Node(), reply) == DoDispatch(old(Node()), pick, order, undo, now, saveBook, saveJobs, saveUndo)
    {
      hide Persist, Held, HandOut, FinishDispatch, UndoSet;
      if pick.None? {
        order := SomeOrder(Expired(leases.View(), now));
        reply, undo := FinishHeartbeat(pick, Done, now, saveJobs, saveUndo);
      } else {
        reply, order, undo := DispatchPicked(pick.value, now, saveBook, saveJobs, saveUndo);
      }
    }

    method DispatchPicked(job: JobId, now: nat, saveBook: Save, saveJobs: Save, saveUndo: Save)
      returns (reply: Reply, ghost order: seq<DeviceId>, ghost undo: seq<DeviceId>)
      requires job in state.pending
      modifies this, leases
      ensures ExpiryOrder(old(leases.View()), order, now)
      ensures IsOrderOf(undo, UndoSet(old(Node()), job, order, now))
      ensures (Node(), reply) == DoDispatch(old(Node()), Some(job), order, undo, now, saveBook, saveJobs, saveUndo)
    {
      hide Persist, Held, HandOut, FinishDispatch, DoDispatch, Orphans;
      var stopped;
      reply, stopped, order := HandOutJob(job, now, saveBook);
      HandOutShape(old(Node()), job, order, now, saveBook);
      if stopped {
        undo := SomeOrder(UndoSet(old(Node()), job, order, now));
        reply := Refused("persistence_failed");
      } else {
        reply, undo := FinishHeartbeat(Some(job), reply, now, saveJobs, saveUndo);
      }
      DispatchesPicked(old(Node()), Node(), reply, job, order, undo, now, saveBook, saveJobs, saveUndo);
    }

    /** Saves the job maps after a hand-out, taking the hand-out back if that fails. */
    method FinishHeartbeat(pick: Option<JobId>, answer: Reply, now: nat, saveJobs: Save, saveUndo: Save)
      returns (reply: Reply, ghost undo: seq<DeviceId>)
      modifies this, leases
      ensures pick.Some? ==>
                var jobs := old(state).(dispatched := old(state).dispatched - {pick.value});
                IsOrderOf(undo, Orphans(jobs, old(leases.View())))
      ensures (Node(), reply)
              == FinishDispatch(old(Node()), old(state), answer, pick, undo, now, saveJobs, saveUndo)
    {
      hide Persist, Held;
      undo := [];
      if pick.Some? {
        undo := SomeOrder(Orphans(state.(dispatched := state.dispatched - {pick.value}), leases.View()));
      }
      var ok := PersistState(saveJobs);
      if ok { return answer, undo; }
      if pick.Some? {
        state := state.(dispatched := state.dispatched - {pick.value});
        var orphaned;
        orphaned, undo := ReconcileState(now);
        var _ := PersistLeases(saveUndo);
      }
      reply := Refused("persistence_failed");
    }

    /** Grants and fences the lease a picked job names, or rejects the job. */
    method HandOutJob(job: JobId, now: nat, saveBook: Save)
      returns (reply: Reply, stopped: bool, ghost order: seq<DeviceId>)
      requires job in state.pending
      modifies this, leases
      ensures ExpiryOrder(old(leases.View()), order, now)
      ensures var h := HandOut(old(Node()), job, order, now, saveBook);
              && h.stopped == stopped && h.reply == reply
              && Node() == if stopped then h.node else h.node.(jobs := h.jobs)
    {
      hide Persist, Held, PushEvent, MarkDispatched, ReleaseAll, HandOut;
      order := SomeOrder(Expired(leases.View(), now));
      var request := state.pending[job];
      reply, stopped := Work(job, request, None), false;
      if !(request.operation.MutatesDevice() && request.device.Some? && request.lease.Some?) {
        MarkInMemory(job);
      } else {
        var device := request.device.value;
        order := leases.Expire(now);
        if device in leases.active && leases.active[device].id == request.lease.value
           && job in state.clients && state.clients[job] == leases.active[device].client
        {
          var grant := LeaseGrant(request.lease.value, device, leases.active[device].client, job);
          leases.writers := leases.writers[device := job];
          reply := Work(job, request, Some(grant));
          var ok := PersistLeases(saveBook);
          stopped := !ok;
          if ok { MarkInMemory(job); }
        } else {
          state := PushEvent(state.(pending := state.pending - {job}), job, Event(1, Rejected));
          reply := Done;
        }
      }
      HandsOutInPlace(old(Node()), Node(), reply, stopped, job, order, now, saveBook);
    }

    method MarkInMemory(job: JobId)
      modifies this`state
      ensures state == MarkDispatched(old(state), job)
    {
      state := state.(dispatched := state.dispatched + {job});
    }
  
    // ------------------------------------------------------------ Apple jobs

    /** First half of a submission: the lease check. A submission that passes goes on to `CreateJob`. */
    method AdmitJob(peer: PeerId, request: AppleRequest, now: nat, save: Save) returns (reply: Reply, ghost step: Step)
      requires running
      modifies this, leases
      ensures Possible(old(Node()), step) && Exec(old(Node()), step) == (Node(), reply)
      ensures step.Admit? && step == Admit(peer, request, step.order, now, save)
      ensures AdmitTells(old(Node()), Node(), peer, request, now, save, reply)
    {
      hide Persist, Held, DoAdmit, AdmitTells;
      ghost var order;
      reply, order := CheckLease(peer, request, now, save);
      step := Admit(peer, request, order, now, save);
      AdmitAnswers(old(Node()), step);
    }

    method CheckLease(peer: PeerId, request: AppleRequest, now: nat, save: Save)
      returns (reply: Reply, ghost order: seq<DeviceId>)
      modifies this, leases
      ensures ExpiryOrder(old(leases.View()), order, now)
      ensures (Node(), reply) == DoAdmit(old(Node()), peer, request, order, now, save)
    {
      hide Persist, Held, ReleaseAll;
      order := SomeOrder(Expired(leases.View(), now));
      if request.operation.MutatesDevice() {
        order := leases.Expire(now);
        var valid := request.device.Some? && request.device.value in leases.active
                     && request.lease == Some(leases.active[request.device.value].id)
                     && leases.active[request.device.value].client == peer;
        var ok := PersistLeases(save);
        if !ok { return Refused("persistence_failed"), order; }
        if !valid { return Refused("lease_inactive"), order; }
      }
      admitted := admitted + {Submission(peer, request)};
      reply := Done;
    }

    /** An eligible host, found by scanning the registered ones. */
    method FindHost(request: AppleRequest, offline: nat, now: nat) returns (target: Option<HostId>)
      ensures target.Some? ==> Eligible(hosts, target.value, request, offline, now)
      ensures target.None? ==> forall host :: !Eligible(hosts, host, request, offline, now)
    {
      var left := hosts.Keys;
      while left != {}
        invariant left <= hosts.Keys
        invariant forall host | host in hosts && host !in left :: !Eligible(hosts, host, request, offline, now)
      {
        var host :| host in left;
        if Eligible(hosts, host, request, offline, now) { return Some(host); }
        left := left - {host};
      }
      return None;
    }

    /** Second half of a submission: one job per idempotency key. */
    method CreateJob(peer: PeerId, request: AppleRequest, offline: nat, now: nat, save: Save)
      returns (reply: Reply, ghost step: Step)
      requires Submission(peer, request) in admitted
      requires running
      modifies this
      ensures Possible(old(Node()), step) && Exec(old(Node()), step) == (Node(), reply)
      ensures step.Create? && step == Create(peer, request, step.target, offline, now, save)
      ensures CreateTells(old(Node()), Node(), peer, request, offline, now, save, reply)
    {
      hide Persist, Held, NewJob, CreateTells;
      var target := FindHost(request, offline, now);
      step := Create(peer, request, target, offline, now, save);
      if request.key in state.requests {
        reply := if request.key in state.operations && state.operations[request.key] != request
                 then Refused("idempotency_conflict") else Job(state.requests[request.key]);
      } else if target.None? {
        reply := Refused("no_eligible_host");
      } else {
        CreateInMemory(peer, request, target.value);
        var ok := PersistState(save);
        reply := if ok then Job(JobId(request.key)) else Refused("registry_stopped");
      }
      CreateAnswers(old(Node()), step);
    }

    method CreateInMemory(peer: PeerId, request: AppleRequest, target: HostId)
      modifies this`state
      ensures state == NewJob(old(state), peer, request, target)
    {
      var job := JobId(request.key);
      state := state.(requests := state.requests[request.key := job],
                      operations := state.operations[request.key := request],
                      pending := state.pending[job := request],
                      hosts := state.hosts[job := target],
                      clients := state.clients[job := peer]);
      if target in state.hostPeers {
        state := state.(agents := state.agents[job := state.hostPeers[target]]);
      }
      state := state.(events := state.events[job := []]);
    }

    /** Stores the events of a report whose sequence numbers are new. */
    method StoreEvents(job: JobId, batch: seq<Event>)
      modifies this`state
      ensures state == old(state).(events := old(state).events[job := AddEvents(EventsOf(old(state), job), batch)])
      ensures Added(EventsOf(old(state), job), batch, state.events[job])
    {
      hide Added;
      AddEventsAdds(EventsOf(state, job), batch);
      var existing, i := EventsOf(state, job), 0;
      while i < |batch|
        invariant i <= |batch| && state == old(state)
        invariant AddEvents(EventsOf(state, job), batch) == AddEvents(existing, batch[i..])
      {
        assert batch[i..][1..] == batch[i + 1..];
        if !exists e | e in existing :: e.sequence == batch[i].sequence {
          existing := existing + [batch[i]];
        }
        i := i + 1;
      }
      state := state.(events := state.events[job := existing]);
    }

    method ReportProgress(peer: PeerId, job: JobId, batch: seq<Event>, terminal: bool, now: nat,
                          saveBook: Save, saveJobs: Save, saveUndo: Save)
      returns (reply: Reply, ghost step: Step)
      requires running
      modifies this, leases
      ensures Possible(old(Node()), step) && Exec(old(Node()), step) == (Node(), reply)
      ensures step.Progress?
              && step == Progress(peer, job, batch, terminal, step.order, now, saveBook, saveJobs, saveUndo)
      ensures ProgressTells(old(Node()), Node(), peer, job, batch, terminal, now, saveBook, saveJobs, saveUndo, reply)
    {
      hide Persist, Held, DoFinish, DoAcknowledge, ProgressTells, IsOrderOf, Expired, FencedBy;
      ghost var order := SomeOrder(if terminal then FencedBy(leases.View(), job) else Expired(leases.View(), now));
      if job !in state.agents || state.agents[job] != peer { reply := Refused("apple_progress_access_denied"); }
      else if terminal { reply, order := FinishJob(job, batch, now, saveBook, saveJobs); }
      else { reply, order := AcknowledgeJob(job, batch, now, saveBook, saveJobs, saveUndo); }
      step := Progress(peer, job, batch, terminal, order, now, saveBook, saveJobs, saveUndo);
      ProgressAnswers(old(Node()), step);
    }

    method FinishJob(job: JobId, batch: seq<Event>, now: nat, saveBook: Save, saveJobs: Save)
      returns (reply: Reply, ghost order: seq<DeviceId>)
      modifies this, leases
      ensures IsOrderOf(order, FencedBy(old(leases.View()), job))
      ensures (Node(), reply) == DoFinish(old(Node()), job, batch, order, now, saveBook, saveJobs)
    {
      hide Persist, Held, UnfenceAll, Finish;
      order := FinishInMemory(job, batch, now);
      var ok := PersistState(saveJobs);
      if !ok { return Refused("persistence_failed"), order; }
      ok := PersistLeases(saveBook);
      reply := if ok then Done else Refused("persistence_failed");
    }

    method FinishInMemory(job: JobId, batch: seq<Event>, now: nat) returns (ghost order: seq<DeviceId>)
      modifies this`state, leases
      ensures IsOrderOf(order, FencedBy(old(leases.View()), job))
      ensures var l := UnfenceAll(Ledger(old(leases.View()), old(state).devicePeers), order, now);
              leases.View() == l.book && state == Finish(old(state), job, batch, l.devicePeers)
    {
      hide UnfenceAll, AddEvents;
      StoreEvents(job, batch);
      var finished := set d | d in leases.writers && leases.writers[d] == job;
      order := DropFences(finished, now);
      state := state.(pending := state.pending - {job}, cancelled := state.cancelled - {job});
    }

    method AcknowledgeJob(job: JobId, batch: seq<Event>, now: nat, saveBook: Save, saveJobs: Save, saveUndo: Save)
      returns (reply: Reply, ghost order: seq<DeviceId>)
      modifies this, leases
      ensures ExpiryOrder(old(leases.View()), order, now)
      ensures (Node(), reply) == DoAcknowledge(old(Node()), job, batch, order, now, saveBook, saveJobs, saveUndo)
    {
      hide Persist, Held, Restore, DoRecord, DoAcknowledge;
      var restored;
      restored, order := RestoreWriter(job, now);
      var ok := PersistLeases(saveBook);
      ghost var s1 := Node();
      if restored.NoFence? { reply := Refused(restored.code); }
      else if !ok { reply := Refused("persistence_failed"); }
      else { reply := RecordAcknowledgement(job, batch, restored.added, saveJobs, saveUndo); }
      AcknowledgesInTwoHalves(old(Node()), s1, Node(), reply, restored, job, batch, order, now,
                              saveBook, saveJobs, saveUndo);
    }

    /** Marks the job acknowledged and saves that; a fence added just before goes again if saving fails. */
    method RecordAcknowledgement(job: JobId, batch: seq<Event>, added: bool, saveJobs: Save, saveUndo: Save)
      returns (reply: Reply)
      modifies this`state, this`stateCopy, this`leasesCopy, leases
      ensures (Node(), reply) == DoRecord(old(Node()), job, batch, added, saveJobs, saveUndo)
    {
      hide Persist, Held, Acknowledge, RegistryState.DropFences, DoRecord;
      AcknowledgeInMemory(job, batch);
      var ok := PersistState(saveJobs);
      reply := if ok then Done else Refused("persistence_failed");
      ghost var s1 := Node();
      if !ok && added {
        ForgetFences(job);
        var _ := PersistLeases(saveUndo);
      }
      RecordsInTwoHalves(old(Node()), s1, Node(), job, batch, added, saveJobs, saveUndo);
    }

    method ForgetFences(job: JobId)
      modifies leases
      ensures leases.View() == RegistryState.DropFences(old(leases.View()), job)
    {
      leases.writers := leases.writers - (set d | d in leases.writers && leases.writers[d] == job);
    }

    method AcknowledgeInMemory(job: JobId, batch: seq<Event>)
      modifies this`state
      ensures state == Acknowledge(old(state), job, batch)
    {
      StoreEvents(job, batch);
      state := state.(acknowledged := state.acknowledged + {job});
    }

    method CancelApple(peer: PeerId, job: JobId, save: Save) returns (reply: Reply)
      requires running
      modifies this
      ensures Possible(old(Node()), Cancel(peer, job, save))
      ensures Exec(old(Node()), Cancel(peer, job, save)) == (Node(), reply)
      ensures CancelTells(old(Node()), Node(), peer, job, save, reply)
    {
      hide Persist, Held, CancelJob, Possible, Exec, CancelTells;
      if job !in state.clients || state.clients[job] != peer {
        reply := Refused("apple_cancel_access_denied");
      } else if job !in state.pending {
        reply := Refused("unknown_job");
      } else {
        CancelInMemory(job);
        var ok := PersistState(save);
        reply := if ok then Done else Refused("registry_stopped");
      }
      CancelsOrRefuses(old(Node()), Node(), reply, peer, job, save);
      CancelAnswers(old(Node()), Cancel(peer, job, save));
    }

    method CancelInMemory(job: JobId)
      modifies this`state
      ensures state == CancelJob(old(state), job)
    {
      if job in state.dispatched {
        state := state.(cancelled := state.cancelled + {job});
      } else {
        state := state.(pending := state.pending - {job});
        state := state.(events := state.events[job := EventsOf(state, job) + [Event(1, Cancelled)]]);
      }
    }

    // ------------------------------------------------------------ leases

    method HandleLease(peer: PeerId, isAgent: bool, request: LeaseRequest, now: nat, saveBook: Save, saveJobs: Save)
      returns (reply: Reply, ghost step: Step)
      requires LifeInv(Node())
      requires running
      modifies this, leases
      ensures Possible(old(Node()), step) && Exec(old(Node()), step) == (Node(), reply)
      ensures step.LeaseOp?
              && step == LeaseOp(peer, isAgent, request, step.order, step.visit, now, saveBook, saveJobs)
      ensures LeaseTells(old(Node()), Node(), peer, isAgent, request, now, saveBook, saveJobs, reply)
    {
      hide Persist, Held, LeaseTells, ReleaseAll, IsOrderOf, Leases.Serve;
      ReleaseAllInvAnyOrder(leases.View(), now);
      ghost var order := leases.Expire(now);
      var answer, peers;
      ghost var visit;
      answer, peers, visit := leases.Serve(state.devicePeers, peer, isAgent, request, now);
      step := LeaseOp(peer, isAgent, request, order, visit, now, saveBook, saveJobs);
      state := state.(devicePeers := peers);
      var ok := PersistLeases(saveBook);
      if ok { ok := PersistState(saveJobs); }
      reply := if ok then LeaseAnswer(answer) else Refused("persistence_failed");
      LeaseOpAnswers(old(Node()), step);
    }
  }

  lemma AcknowledgesInTwoHalves(s: Node, s1: Node, s': Node, reply: Reply, restored: Restored, job: JobId,
                                batch: seq<Event>, order: seq<DeviceId>, now: nat,
                                saveBook: Save, saveJobs: Save, saveUndo: Save)
    requires Restore(s.jobs, s.book, job, order, now) == (s1.book, restored)
    requires s1 == s.(book := s1.book, bookCopy := Persist(s.bookCopy, s1.book, saveBook))
    requires if restored.NoFence? then s' == s1 && reply == Refused(restored.code)
             else if !saveBook.Complete? then s' == s1 && reply == Refused("persistence_failed")
             else (s', reply) == DoRecord(s1, job, batch, restored.added, saveJobs, saveUndo)
    ensures (s', reply) == DoAcknowledge(s, job, batch, order, now, saveBook, saveJobs, saveUndo)
  {
    hide Persist, Held, Restore, DoRecord;
  }

  /** A hand-out and the end of the heartbeat, which does not depend on the job maps it replaces. */
  lemma DispatchesPicked(s: Node, s': Node, reply: Reply, job: JobId, order: seq<DeviceId>, undo: seq<DeviceId>,
                         now: nat, saveBook: Save, saveJobs: Save, saveUndo: Save)
    requires job in s.jobs.pending
    requires var h := HandOut(s, job, order, now, saveBook);
             if h.stopped then s' == h.node && reply == Refused("persistence_failed")
             else (s', reply) == FinishDispatch(h.node.(jobs := h.jobs), h.jobs, h.reply, Some(job), undo, now,
                                                saveJobs, saveUndo)
    ensures (s', reply) == DoDispatch(s, Some(job), order, undo, now, saveBook, saveJobs, saveUndo)
  {
    hide HandOut, Persist, Held, Reconcile;
  }

  /** A hand-out, told by what the request needs and what the expired book holds. */
  lemma HandsOutInPlace(s: Node, s': Node, reply: Reply, stopped: bool, job: JobId, order: seq<DeviceId>, now: nat,
                        saveBook: Save)
    requires job in s.jobs.pending
    requires var request := s.jobs.pending[job];
             if !(request.operation.MutatesDevice() && request.device.Some? && request.lease.Some?) then
               s' == s.(jobs := MarkDispatched(s.jobs, job)) && reply == Work(job, request, None) && !stopped
             else
               var device, book := request.device.value, ReleaseAll(s.book, order, now);
               if device in book.active && book.active[device].id == request.lease.value
                  && job in s.jobs.clients && s.jobs.clients[job] == book.active[device].client
               then
                 var fenced := book.(writers := book.writers[device := job]);
                 && reply == Work(job, request,
                                  Some(LeaseGrant(request.lease.value, device, book.active[device].client, job)))
                 && stopped == !saveBook.Complete?
                 && s' == s.(book := fenced, bookCopy := Persist(s.bookCopy, fenced, saveBook),
                             jobs := if stopped then s.jobs else MarkDispatched(s.jobs, job))
               else
                 && s' == s.(book := book, jobs := PushEvent(s.jobs.(pending := s.jobs.pending - {job}), job,
                                                             Event(1, Rejected)))
                 && reply == Done && !stopped
    ensures var h := HandOut(s, job, order, now, saveBook);
            h.stopped == stopped && h.reply == reply && s' == if stopped then h.node else h.node.(jobs := h.jobs)
  {
    hide Persist, Held, PushEvent, MarkDispatched, ReleaseAll;
  }

  lemma CancelsOrRefuses(s: Node, s': Node, reply: Reply, peer: PeerId, job: JobId, save: Save)
    requires s.running
    requires if !(job in s.jobs.clients && s.jobs.clients[job] == peer) then
               s' == s && reply == Refused("apple_cancel_access_denied")
             else if job !in s.jobs.pending then s' == s && reply == Refused("unknown_job")
             else
               var jobs := CancelJob(s.jobs, job);
               && s' == s.(jobs := jobs, jobsCopy := Persist(s.jobsCopy, jobs, save))
               && reply == if save.Complete? then Done else Refused("registry_stopped")
    ensures Possible(s, Cancel(peer, job, save)) && Exec(s, Cancel(peer, job, save)) == (s', reply)
  {
    hide Persist, Held, CancelJob;
  }

  lemma RecordsInTwoHalves(s: Node, s1: Node, s': Node, job: JobId, batch: seq<Event>, added: bool,
                           saveJobs: Save, saveUndo: Save)
    requires var jobs := Acknowledge(s.jobs, job, batch);
             s1 == s.(jobs := jobs, jobsCopy := Persist(s.jobsCopy, jobs, saveJobs))
    requires var undone := RegistryState.DropFences(s.book, job);
             s' == if saveJobs.Complete? || !added then s1
                   else s1.(book := undone, bookCopy := Persist(s.bookCopy, undone, saveUndo))
    ensures DoRecord(s, job, batch, added, saveJobs, saveUndo)
            == (s', if saveJobs.Complete? then Done else Refused("persistence_failed"))
  {
    hide Persist, Held, Acknowledge, RegistryState.DropFences;
  }

  lemma OrderIsEmpty(order: seq<DeviceId>, devices: set<DeviceId>)
    requires IsOrderOf(order, devices)
    ensures order == [] <==> devices == {}
  {
    if devices == {} { OrderOfNothing(order); }
  }

  lemma ReleaseAllInvAnyOrder(b: Book, now: nat)
    requires BookInv(b)
    ensures forall order :: BookInv(ReleaseAll(b, order, now))
  {
    forall order ensures BookInv(ReleaseAll(b, order, now)) { ReleaseAllInv(b, order, now); }
  }

  ghost function UndoSet(s: Node, job: JobId, order: seq<DeviceId>, now: nat): set<DeviceId>
    requires job in s.jobs.pending
  {
    var h := HandOut(s, job, order, now, SAVED);
    Orphans(h.jobs.(dispatched := h.jobs.dispatched - {job}), h.node.book)
  }

  lemma {:induction false} UnfenceAllSnoc(l: Ledger, order: seq<DeviceId>, d: DeviceId, now: nat)
    ensures UnfenceAll(l, order + [d], now) == Unfence(UnfenceAll(l, order, now), d, now)
    decreases |order|
  {
    if order != [] {
      assert (order + [d])[1..] == order[1..] + [d];
      UnfenceAllSnoc(Unfence(l, order[0], now), order[1..], d, now);
    } else {
      assert (order + [d])[1..] == [];
    }
  }

  lemma {:induction false} DetachAllSnoc(l: Ledger, order: seq<DeviceId>, d: DeviceId, now: nat)
    ensures DetachAll(l, order + [d], now) == DetachOne(DetachAll(l, order, now), d, now)
    decreases |order|
  {
    if order != [] {
      assert (order + [d])[1..] == order[1..] + [d];
      DetachAllSnoc(DetachOne(l, order[0], now), order[1..], d, now);
    } else {
      assert (order + [d])[1..] == [];
    }
  }
}
