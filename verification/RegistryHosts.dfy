/** Which host a job is made for, and that it is the one to be handed it. */
module RegistryHosts {
  import opened Common
  import opened AppleProtocol
  import opened Leases
  import opened Persistence
  import opened RegistryState
  import opened RegistryInvariant
  import opened RegistryRuns
  import opened HeartbeatAnswers
  import opened RegistryAnswers

  // ---------------------------------------------------------------- the choice

  /** A submission under a new key is refused for want of a host exactly when no announced host is recent, has the
      capability, and has the device connected where one is named. Otherwise its job is made for a host that is
      and has all that. */
  lemma NewJobHasHost(s: Node, step: Step)
    requires Possible(s, step) && step.Create? && step.request.key !in s.jobs.requests
    ensures var (s', reply) := Exec(s, step);
            var job, request := JobId(step.request.key), step.request;
            && (reply == Refused("no_eligible_host") <==>
                  forall host | host in s.hosts ::
                    !(&& step.now - s.hosts[host].heartbeat < step.offline
                      && request.capability in s.hosts[host].capabilities
                      && (request.device.Some? ==> request.device.value in s.hosts[host].connected)))
            && (reply != Refused("no_eligible_host") ==>
                  && job in s'.jobs.hosts && s'.jobs.hosts[job] in s.hosts
                  && var host := s.hosts[s'.jobs.hosts[job]];
                     && step.now - host.heartbeat < step.offline
                     && request.capability in host.capabilities
                     && (request.device.Some? ==> request.device.value in host.connected))
  {
    CreateAnswers(s, step);
    hide Exec, Possible, Persist, Held;
  }

  /** The step submits `job` and finds `host` announced with all that the request takes. */
  ghost predicate Chooses(s: Node, step: Step, job: JobId, host: HostId) {
    && step.Create? && job == JobId(step.request.key)
    && host in s.hosts
    && step.now - s.hosts[host].heartbeat < step.offline
    && step.request.capability in s.hosts[host].capabilities
    && (step.request.device.Some? ==> step.request.device.value in s.hosts[host].connected)
  }

  /** Somewhere in the run `host` was chosen for `job`. */
  ghost predicate Chosen(s: Node, run: seq<Step>, job: JobId, host: HostId)
    requires PossibleRun(s, run)
    decreases |run|
  {
    run != [] && (Chooses(s, run[0], job, host) || Chosen(Exec(s, run[0]).0, run[1..], job, host))
  }

  /** The maps name `host` for `job`. */
  predicate Names(jobs: Jobs, job: JobId, host: HostId) {
    job in jobs.hosts && jobs.hosts[job] == host
  }

  ghost predicate NamedBefore(s: Node, job: JobId, host: HostId) {
    Names(s.jobs, job, host) || Names(Held(s.jobsCopy), job, host)
  }

  /** Names of hosts come from before the step, or from the step's own choice. */
  ghost predicate NamesCome(s: Node, step: Step, jobs: Jobs) {
    forall job, host | Names(jobs, job, host) :: NamedBefore(s, job, host) || Chooses(s, step, job, host)
  }

  lemma CreateNames(s: Node, step: Step)
    requires Possible(s, step) && step.Create?
    ensures NamesCome(s, step, Exec(s, step).0.jobs)
  {
    CreateAnswers(s, step);
    hide Exec, Possible, Persist, Held;
  }

  lemma RestartNames(s: Node, step: Step)
    requires Possible(s, step) && step.Restart? && NodeInv(s) && Careful(Exec(s, step).0)
    ensures NamesCome(s, step, Exec(s, step).0.jobs) && NamesCome(s, step, Held(Exec(s, step).0.jobsCopy))
  {
    RestartShape(s, step.order, step.undo, step.now, step.saveBook, step.saveJobs, step.saveAgain);
    RestartBook(s, step.order, step.undo, step.now);
    hide Held, Persist, DoRestart, ReleaseAll, Reconcile, NodeInv, Keeps, Orphans;
  }

  /** What a step other than a start saves names the hosts that memory names. */
  lemma DiskNames(s: Node, s': Node, step: Step)
    requires SavedJobsMove(s, s', DoneBy(s, step)) && Careful(s') && NamesCome(s, step, s'.jobs)
    ensures NamesCome(s, step, Held(s'.jobsCopy))
  {
    hide Grow, Chooses, Held;
    if Held(s'.jobsCopy) != Held(s.jobsCopy) {
      assert JobsWithin(Held(s'.jobsCopy), s'.jobs);
    }
  }

  lemma SameNames(s: Node, s': Node, step: Step)
    requires s'.jobs.hosts == s.jobs.hosts
    ensures NamesCome(s, step, s'.jobs)
  {
  }

  lemma StepNames(s: Node, step: Step)
    requires NodeInv(s) && Possible(s, step) && Careful(Exec(s, step).0)
    ensures NamesCome(s, step, Exec(s, step).0.jobs) && NamesCome(s, step, Held(Exec(s, step).0.jobsCopy))
  {
    if step.Restart? { RestartNames(s, step); }
    else {
      assert LifeInv(s);
      hide Exec, Possible, NodeInv, LifeInv, NamesCome, SavedJobsMove, Grow, Keeps, Held, Careful, DoneBy, Ended;
      StepAdvances(s, step);
      if step.Create? { CreateNames(s, step); }
      else {
        if step.Admit? { AdmitNames(s, step); } else { SubmissionsSame(s, step); }
        SameNames(s, Exec(s, step).0, step);
      }
      DiskNames(s, Exec(s, step).0, step);
    }
  }

  lemma AdmitNames(s: Node, step: Step)
    requires Possible(s, step) && step.Admit?
    ensures Exec(s, step).0.jobs == s.jobs
  {
  }

  lemma {:induction false} RunNames(s: Node, run: seq<Step>, job: JobId, host: HostId)
    requires NodeInv(s) && PossibleRun(s, run) && Careful(After(s, run)) && Names(After(s, run).jobs, job, host)
    ensures NamedBefore(s, job, host) || Chosen(s, run, job, host)
    decreases |run|
  {
    if run != [] {
      hide NodeInv, Possible, Exec, Careful, Chooses, Held;
      var s' := Exec(s, run[0]).0;
      RunCareful(s', run[1..]);
      StepInv(s, run[0]);
      StepNames(s, run[0]);
      RunNames(s', run[1..], job, host);
    }
  }

  /** Every job the registry knows was made for a host that had, when the job was submitted, announced all that
      the job takes. */
  lemma EveryJobHasItsHost(run: seq<Step>, job: JobId)
    requires PossibleRun(NEW_NODE, run) && Careful(After(NEW_NODE, run)) && job in After(NEW_NODE, run).jobs.clients
    ensures var hosts := After(NEW_NODE, run).jobs.hosts;
            job in hosts && Chosen(NEW_NODE, run, job, hosts[job])
  {
    hide Possible, Exec, Chosen;
    NewNodeInv();
    RunInv(NEW_NODE, run);
    KnownHasHost(After(NEW_NODE, run), job);
    RunNames(NEW_NODE, run, job, After(NEW_NODE, run).jobs.hosts[job]);
  }

  lemma KnownHasHost(s: Node, job: JobId)
    requires NodeInv(s) && job in s.jobs.clients
    ensures job in s.jobs.hosts
  {
  }

  // ---------------------------------------------------------------- hand-outs

  /** Whoever is handed a job, after whatever has happened, had announced all it takes when it was submitted. */
  lemma WorkGoesToChosenHost(run: seq<Step>, step: Step)
    requires PossibleRun(NEW_NODE, run) && Careful(After(NEW_NODE, run)) && Possible(After(NEW_NODE, run), step)
    requires step.Dispatch? && Exec(After(NEW_NODE, run), step).1.Work?
    ensures Chosen(NEW_NODE, run, Exec(After(NEW_NODE, run), step).1.job, step.host)
  {
    hide Chosen, Exec, Possible;
    NewNodeInv();
    var job := Exec(After(NEW_NODE, run), step).1.job;
    WorkIsForItsHost(After(NEW_NODE, run), step);
    RunNames(NEW_NODE, run, job, step.host);
  }

  lemma NamesMove(s: Node, s': Node, done: set<JobId>, job: JobId, host: HostId)
    requires JobsMove(s, s', done) && Names(s.jobs, job, host) && Names(Held(s.jobsCopy), job, host)
    ensures Names(s'.jobs, job, host) && Names(Held(s'.jobsCopy), job, host)
  {
  }

  /** A job that is on disk stays with its host. */
  lemma {:induction false} HostStays(s: Node, run: seq<Step>, job: JobId, host: HostId)
    requires NodeInv(s) && PossibleRun(s, run) && Careful(After(s, run))
    requires Names(s.jobs, job, host) && Names(Held(s.jobsCopy), job, host)
    ensures Names(After(s, run).jobs, job, host) && Names(Held(After(s, run).jobsCopy), job, host)
    decreases |run|
  {
    if run != [] {
      hide NodeInv, Possible, Exec, Careful, Names, JobsMove;
      RunCareful(Exec(s, run[0]).0, run[1..]);
      StepInv(s, run[0]);
      StepMoves(s, run[0]);
      NamesMove(s, Exec(s, run[0]).0, DoneBy(s, run[0]), job, host);
      HostStays(Exec(s, run[0]).0, run[1..], job, host);
    }
  }

  /** Work that was handed out is on disk, and names its host there. */
  lemma WorkIsOnDisk(s: Node, step: Step)
    requires Possible(s, step) && step.Dispatch? && Exec(s, step).1.Work? && Careful(Exec(s, step).0)
    ensures var s', job := Exec(s, step).0, Exec(s, step).1.job;
            Names(s'.jobs, job, step.host) && Names(Held(s'.jobsCopy), job, step.host)
  {
    WorkIsForItsHost(s, step);
    SubmissionsSame(s, step);
    WorkIsSaved(s, step);
    hide Exec, Possible, Held;
  }

  lemma WorkIsSaved(s: Node, step: Step)
    requires Possible(s, step) && step.Dispatch? && Exec(s, step).1.Work? && Careful(Exec(s, step).0)
    ensures Held(Exec(s, step).0.jobsCopy) == Exec(s, step).0.jobs
  {
    hide Held, HandOut, Reconcile;
  }

  /** However often a job is handed out, and whatever happens in between, it goes to one host. */
  lemma OneHostPerJob(s: Node, first: Step, run: seq<Step>, second: Step)
    requires NodeInv(s) && Possible(s, first) && first.Dispatch? && Exec(s, first).1.Work?
    requires PossibleRun(Exec(s, first).0, run) && Careful(After(Exec(s, first).0, run))
    requires var t := After(Exec(s, first).0, run);
             && Possible(t, second) && second.Dispatch? && Exec(t, second).1.Work?
             && Exec(t, second).1.job == Exec(s, first).1.job
    ensures second.host == first.host
  {
    hide Possible, Exec, NodeInv, Careful, Held;
    var s' := Exec(s, first).0;
    RunCareful(s', run);
    StepInv(s, first);
    WorkIsOnDisk(s, first);
    HostStays(s', run, Exec(s, first).1.job, first.host);
    WorkIsForItsHost(After(s', run), second);
  }
}
