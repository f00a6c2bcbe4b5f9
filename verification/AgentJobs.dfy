/** The Apple agent's job table: idempotent submission, and the events that workers append to a job. */
module AgentJobs {
  import opened Common
  import opened AppleProtocol

  datatype ProgressEvent = ProgressEvent(sequence: nat, kind: Kind, payload: Name, terminal: bool)

  datatype Kind = Accepted | Progress | Succeeded | Failed

  /** Job ids carry the number of the job. */
  datatype Agent = Agent(
    nextJob: nat,
    requestJobs: map<Name, nat>,
    keyJobs: map<Name, nat>,
    jobRequests: map<nat, AppleRequest>,
    events: map<nat, seq<ProgressEvent>>)

  const NO_JOBS := Agent(1, map[], map[], map[], map[])

  predicate SameOperation(left: AppleRequest, right: AppleRequest) {
    && left.version == right.version && left.capability == right.capability && left.workspace == right.workspace
    && left.device == right.device && left.lease == right.lease && left.operation == right.operation
  }

  function Find(m: map<Name, nat>, id: Name): Option<nat> {
    if id in m then Some(m[id]) else None
  }

  // ---------------------------------------------------------------- what calls do

  datatype Submitted = Started(job: nat) | Known(job: nat) | Conflict

  function Submission(a: Agent, r: AppleRequest): Submitted {
    var byRequest, byKey := Find(a.requestJobs, r.requestId), Find(a.keyJobs, r.key);
    if byRequest.Some? && byKey.Some? && byRequest != byKey then Conflict
    else
      var known := if byRequest.Some? then byRequest else byKey;
      if known.None? then Started(a.nextJob)
      else if known.value in a.jobRequests && SameOperation(a.jobRequests[known.value], r) then Known(known.value)
      else Conflict
  }

  function AfterSubmit(a: Agent, r: AppleRequest, blank: Name): Agent {
    match Submission(a, r)
    case Conflict => a
    case Known(job) => a.(requestJobs := a.requestJobs[r.requestId := job], keyJobs := a.keyJobs[r.key := job])
    case Started(job) =>
      Agent(
        job + 1,
        a.requestJobs[r.requestId := job],
        a.keyJobs[r.key := job],
        a.jobRequests[job := r],
        a.events[job := [ProgressEvent(1, Accepted, blank, false)]])
  }

  predicate Ended(events: seq<ProgressEvent>) {
    exists e <- events :: e.terminal
  }

  function AfterAppend(events: seq<ProgressEvent>, kind: Kind, payload: Name, terminal: bool): seq<ProgressEvent> {
    if Ended(events) then events else events + [ProgressEvent(|events| + 1, kind, payload, terminal)]
  }

  // ---------------------------------------------------------------- whole runs

  /** Submissions, and appends by workers in any interleaving whatsoever. */
  datatype Call =
    | Submit(request: AppleRequest, blank: Name)
    | Append(job: nat, kind: Kind, payload: Name, terminal: bool)

  function Do(a: Agent, c: Call): Agent {
    match c
    case Submit(r, blank) => AfterSubmit(a, r, blank)
    case Append(job, kind, payload, terminal) =>
      if job in a.events then a.(events := a.events[job := AfterAppend(a.events[job], kind, payload, terminal)]) else a
  }

  function Run(calls: seq<Call>): Agent {
    if calls == [] then NO_JOBS else Do(Run(calls[..|calls| - 1]), calls[|calls| - 1])
  }

  /** The job that call `i` was accepted for, if it is a submission and was. */
  function AcceptedJob(calls: seq<Call>, i: nat): Option<nat>
    requires i < |calls|
  {
    match calls[i]
    case Submit(r, _) =>
      (match Submission(Run(calls[..i]), r)
       case Started(job) => Some(job)
       case Known(job) => Some(job)
       case Conflict => None)
    case Append(_, _, _, _) => None
  }

  predicate StartsJob(calls: seq<Call>, i: nat, job: nat)
    requires i < |calls|
  {
    calls[i].Submit? && Submission(Run(calls[..i]), calls[i].request) == Started(job)
  }

  /** Events are numbered from one, and only the last can be terminal. */
  ghost predicate WellNumbered(events: seq<ProgressEvent>) {
    && events != []
    && (forall i | 0 <= i < |events| :: events[i].sequence == i + 1)
    && (forall i | 0 <= i < |events| - 1 :: !events[i].terminal)
  }

  ghost predicate AgentInv(a: Agent) {
    && a.jobRequests.Keys == a.events.Keys
    && NamesJobs(a.requestJobs, a.jobRequests.Keys) && NamesJobs(a.keyJobs, a.jobRequests.Keys)
    && (forall job <- a.jobRequests.Keys :: job < a.nextJob)
    && AllNumbered(a.events)
  }

  ghost predicate NamesJobs(m: map<Name, nat>, jobs: set<nat>) {
    forall id <- m :: m[id] in jobs
  }

  ghost predicate AllNumbered(events: map<nat, seq<ProgressEvent>>) {
    forall job <- events :: WellNumbered(events[job])
  }

  ghost predicate Extends<K, V>(m: map<K, V>, n: map<K, V>) {
    forall k <- m :: k in n && n[k] == m[k]
  }

  ghost predicate EventsGrow(m: map<nat, seq<ProgressEvent>>, n: map<nat, seq<ProgressEvent>>) {
    forall job <- m :: job in n && m[job] <= n[job]
  }

  /** What an agent knows is never forgotten or changed: no identifier is remapped, no job's request changes,
      and events are only added. */
  ghost predicate Remembers(a: Agent, b: Agent) {
    && Extends(a.requestJobs, b.requestJobs) && Extends(a.keyJobs, b.keyJobs)
    && Extends(a.jobRequests, b.jobRequests) && EventsGrow(a.events, b.events)
    && a.nextJob <= b.nextJob
  }

  lemma AppendKeepsNumbers(events: seq<ProgressEvent>, kind: Kind, payload: Name, terminal: bool)
    requires WellNumbered(events)
    ensures WellNumbered(AfterAppend(events, kind, payload, terminal))
    ensures events <= AfterAppend(events, kind, payload, terminal)
  {
    if !Ended(events) {
      assert forall i | 0 <= i < |events| :: events[i] in events;
    }
  }

  lemma AppendStep(events: map<nat, seq<ProgressEvent>>, job: nat, more: seq<ProgressEvent>)
    requires AllNumbered(events) && job in events && WellNumbered(more) && events[job] <= more
    ensures AllNumbered(events[job := more]) && EventsGrow(events, events[job := more])
    ensures events[job := more].Keys == events.Keys
  {
  }

  lemma NewEvents(events: map<nat, seq<ProgressEvent>>, job: nat, first: seq<ProgressEvent>)
    requires AllNumbered(events) && job !in events && WellNumbered(first)
    ensures AllNumbered(events[job := first]) && EventsGrow(events, events[job := first])
  {
  }

  lemma NameJob(m: map<Name, nat>, jobs: set<nat>, more: set<nat>, id: Name, job: nat)
    requires NamesJobs(m, jobs) && jobs <= more && job in more && (id in m ==> m[id] == job)
    ensures NamesJobs(m[id := job], more) && Extends(m, m[id := job])
  {
  }

  lemma SubmitKeeps(a: Agent, r: AppleRequest, blank: Name)
    requires AgentInv(a)
    ensures AgentInv(AfterSubmit(a, r, blank)) && Remembers(a, AfterSubmit(a, r, blank))
  {
    hide NamesJobs, AllNumbered, SameOperation;
    match Submission(a, r)
    case Conflict =>
    case Known(job) =>
      NameJob(a.requestJobs, a.jobRequests.Keys, a.jobRequests.Keys, r.requestId, job);
      NameJob(a.keyJobs, a.jobRequests.Keys, a.jobRequests.Keys, r.key, job);
    case Started(job) =>
      var jobs := a.jobRequests[job := r].Keys;
      NameJob(a.requestJobs, a.jobRequests.Keys, jobs, r.requestId, job);
      NameJob(a.keyJobs, a.jobRequests.Keys, jobs, r.key, job);
      NewEvents(a.events, job, [ProgressEvent(1, Accepted, blank, false)]);
  }

  lemma StepKeeps(a: Agent, c: Call)
    requires AgentInv(a)
    ensures AgentInv(Do(a, c)) && Remembers(a, Do(a, c))
  {
    hide NamesJobs, AfterSubmit, WellNumbered, AfterAppend;
    match c
    case Submit(r, blank) => SubmitKeeps(a, r, blank);
    case Append(job, kind, payload, terminal) =>
      if job in a.events {
        AppendKeepsNumbers(a.events[job], kind, payload, terminal);
        AppendStep(a.events, job, AfterAppend(a.events[job], kind, payload, terminal));
      }
  }

  lemma {:induction false} RunKeeps(calls: seq<Call>)
    ensures AgentInv(Run(calls))
  {
    if calls != [] {
      RunKeeps(calls[..|calls| - 1]);
      StepKeeps(Run(calls[..|calls| - 1]), calls[|calls| - 1]);
    }
  }

  /** No identifier is ever remapped over a run. */
  lemma {:induction false} NeverForgets(calls: seq<Call>, i: nat)
    requires i <= |calls|
    ensures Remembers(Run(calls[..i]), Run(calls))
    decreases |calls| - i
  {
    if i == |calls| {
      assert calls[..i] == calls;
    } else {
      NeverForgets(calls, i + 1);
      RunKeeps(calls[..i]);
      StepKeeps(Run(calls[..i]), calls[i]);
      assert calls[..i + 1][..i] == calls[..i];
      RemembersOn(Run(calls[..i]), Run(calls[..i + 1]), Run(calls));
    }
  }

  lemma ForgetsNothing(a: Agent)
    ensures Remembers(a, a)
  {
  }

  lemma RemembersOn(a: Agent, b: Agent, c: Agent)
    requires Remembers(a, b) && Remembers(b, c)
    ensures Remembers(a, c)
  {
  }

  /** An accepted submission stays on record: both its identifiers name its job, whose request is the same
      operation. */
  lemma AcceptedStays(calls: seq<Call>, i: nat)
    requires i < |calls| && AcceptedJob(calls, i).Some?
    ensures var a, r, job := Run(calls), calls[i].request, AcceptedJob(calls, i).value;
            && r.requestId in a.requestJobs && a.requestJobs[r.requestId] == job
            && r.key in a.keyJobs && a.keyJobs[r.key] == job
            && job in a.jobRequests && SameOperation(a.jobRequests[job], r)
  {
    assert calls[..i + 1][..i] == calls[..i];
    RunKeeps(calls[..i]);
    NeverForgets(calls, i + 1);
  }

  /** Idempotence: over any run, accepted submissions that share either identifier get one job and are the
      same operation. */
  lemma SharedIdentifierSharesJob(calls: seq<Call>, i: nat, k: nat)
    requires i < |calls| && k < |calls| && AcceptedJob(calls, i).Some? && AcceptedJob(calls, k).Some?
    requires calls[i].request.requestId == calls[k].request.requestId || calls[i].request.key == calls[k].request.key
    ensures AcceptedJob(calls, i) == AcceptedJob(calls, k)
    ensures SameOperation(calls[i].request, calls[k].request)
  {
    AcceptedStays(calls, i);
    AcceptedStays(calls, k);
  }

  /** The same operation under the same protocol, for the same device and lease, in the same workspace. */
  predicate SameWork(r: AppleRequest, q: AppleRequest) {
    q == r.(requestId := q.requestId, key := q.key)
  }

  /** Neither identifier names another job than `job`, and at least one names it. */
  ghost predicate Identifies(a: Agent, r: AppleRequest, job: nat) {
    && (r.requestId in a.requestJobs || r.key in a.keyJobs)
    && (r.requestId in a.requestJobs ==> a.requestJobs[r.requestId] == job)
    && (r.key in a.keyJobs ==> a.keyJobs[r.key] == job)
  }

  /** A submission starts a job exactly if both its identifiers are new, and then a new one. It is answered with a
      job known already exactly if its identifiers name that job and it differs from the request the job was
      started for in nothing but the identifiers. */
  lemma AnsweredExactly(a: Agent, r: AppleRequest, job: nat)
    requires AgentInv(a)
    ensures Submission(a, r) == Known(job) <==>
              Identifies(a, r, job) && job in a.jobRequests && SameWork(a.jobRequests[job], r)
    ensures Submission(a, r).Started? <==> r.requestId !in a.requestJobs && r.key !in a.keyJobs
    ensures Submission(a, r) == Started(job) ==> job !in a.jobRequests && job !in a.events
  {
  }

  /** Over any run: repeating an accepted submission under either of its identifiers, the other being new or its
      own, gets its job again exactly if nothing else differs, and is a conflict otherwise. */
  lemma RepetitionGetsItsJob(calls: seq<Call>, i: nat, r: AppleRequest)
    requires i < |calls| && AcceptedJob(calls, i).Some?
    requires var first := calls[i].request;
             && (r.requestId == first.requestId || r.key == first.key)
             && (r.requestId == first.requestId || r.requestId !in Run(calls).requestJobs)
             && (r.key == first.key || r.key !in Run(calls).keyJobs)
    ensures Submission(Run(calls), r) ==
            if SameWork(calls[i].request, r) then Known(AcceptedJob(calls, i).value) else Conflict
  {
    AcceptedStays(calls, i);
    hide Run, AcceptedJob;
  }

  /** What a worker reports of a job that has not ended is stored behind its other events as it was reported, under
      the next number, and stays there; once the job has ended nothing is. */
  lemma ReportIsKept(calls: seq<Call>, i: nat)
    requires i < |calls| && calls[i].Append? && calls[i].job in Run(calls[..i]).events
    ensures var c, before := calls[i], Run(calls[..i]).events[calls[i].job];
            && c.job in Run(calls).events && before <= Run(calls).events[c.job]
            && (if exists k :: 0 <= k < |before| && before[k].terminal then Run(calls).events[c.job] == before
                else
                  && |before| < |Run(calls).events[c.job]|
                  && Run(calls).events[c.job][|before|]
                     == ProgressEvent(|before| + 1, c.kind, c.payload, c.terminal))
  {
    var job, before := calls[i].job, Run(calls[..i]).events[calls[i].job];
    assert calls[..i + 1][..i] == calls[..i];
    NeverForgets(calls, i);
    NeverForgets(calls, i + 1);
    RunKeeps(calls);
    var now := Run(calls).events[job];
    if exists k :: 0 <= k < |before| && before[k].terminal {
      var k :| 0 <= k < |before| && before[k].terminal;
      assert now[k].terminal;
      assert |now| == |before|;
    } else {
      assert !Ended(before);
      var next := Run(calls[..i + 1]).events[job];
      assert next <= now && next[|before|] == ProgressEvent(|before| + 1, calls[i].kind, calls[i].payload,
                                                            calls[i].terminal);
    }
  }

  /** Each job is started once. */
  lemma StartedOnce(calls: seq<Call>, i: nat, k: nat, job: nat)
    requires i < k < |calls| && StartsJob(calls, i, job)
    ensures !StartsJob(calls, k, job)
  {
    assert calls[..k][..i + 1] == calls[..i + 1] && calls[..i + 1][..i] == calls[..i];
    NeverForgets(calls[..k], i + 1);
  }

  /** An accepted job was started by exactly that submission or by an earlier one. */
  lemma {:induction false} AcceptedWasStarted(calls: seq<Call>, job: nat)
    requires job in Run(calls).jobRequests
    ensures exists i: nat :: i < |calls| && StartsJob(calls, i, job)
  {
    var front, last := calls[..|calls| - 1], |calls| - 1;
    if job in Run(front).jobRequests {
      AcceptedWasStarted(front, job);
      var i: nat :| i < |front| && StartsJob(front, i, job);
      assert front[..i] == calls[..i];
      assert StartsJob(calls, i, job);
    } else {
      assert StartsJob(calls, last, job);
    }
  }

  /** Under any interleaving of appends a job's events are numbered from one without gaps, start with its
      acceptance, and hold at most one terminal event, which is the last. */
  lemma EventsOfJob(calls: seq<Call>, job: nat)
    requires job in Run(calls).events
    ensures var events := Run(calls).events[job];
            && WellNumbered(events)
            && (forall i, k | 0 <= i < |events| && 0 <= k < |events| && events[i].terminal && events[k].terminal ::
                  i == k)
            && events[0].kind == Accepted && !events[0].terminal
  {
    RunKeeps(calls);
    FirstIsAcceptance(calls, job);
  }

  lemma {:induction false} FirstIsAcceptance(calls: seq<Call>, job: nat)
    requires job in Run(calls).events
    ensures var events := Run(calls).events[job];
            events != [] && events[0].kind == Accepted && !events[0].terminal
  {
    RunKeeps(calls[..|calls| - 1]);
    if job in Run(calls[..|calls| - 1]).events {
      FirstIsAcceptance(calls[..|calls| - 1], job);
    }
  }

  // ---------------------------------------------------------------- reading events

  function Later(events: seq<ProgressEvent>, after: nat): seq<ProgressEvent> {
    if events == [] then []
    else
      var front, e := Later(events[..|events| - 1], after), events[|events| - 1];
      if e.sequence > after then front + [e] else front
  }

  /** A reader who has seen `after` events gets exactly the others. */
  lemma {:induction false} LaterIsRest(events: seq<ProgressEvent>, after: nat)
    requires forall i | 0 <= i < |events| :: events[i].sequence == i + 1
    ensures Later(events, after) == if after <= |events| then events[after..] else []
  {
    if events != [] {
      var front, e := events[..|events| - 1], events[|events| - 1];
      LaterIsRest(front, after);
      if after <= |front| {
        assert events[after..] == front[after..] + [e];
      }
    }
  }

  datatype EventsError = UnknownJob | InvalidEventCursor

  datatype Events = Read(events: seq<ProgressEvent>) | NotRead(error: EventsError)

  datatype Acceptance = AcceptedAs(job: nat) | Invalid | IdempotencyConflict

  class AppleAgent {
    var nextJob: nat
    var requestJobs: map<Name, nat>
    var keyJobs: map<Name, nat>
    var jobRequests: map<nat, AppleRequest>
    var events: map<nat, seq<ProgressEvent>>
    /** The jobs whose workers have been started, in order. */
    var started: seq<nat>

    ghost function State(): Agent
      reads this
    {
      Agent(nextJob, requestJobs, keyJobs, jobRequests, events)
    }

    ghost predicate Valid()
      reads this
    {
      AgentInv(State())
    }

    constructor ()
      ensures Valid() && State() == NO_JOBS && started == []
    {
      nextJob, requestJobs, keyJobs, jobRequests, events, started := 1, map[], map[], map[], map[], [];
    }

    /** `valid` is the outcome of validating the request, `blank` the empty payload. */
    method Submit(request: AppleRequest, valid: bool, blank: Name) returns (acceptance: Acceptance)
      requires Valid()
      modifies this
      ensures Valid() && Remembers(old(State()), State())
      ensures if !valid then acceptance == Invalid && State() == old(State()) && started == old(started)
              else
                && State() == AfterSubmit(old(State()), request, blank)
                && match Submission(old(State()), request)
                   case Started(job) => acceptance == AcceptedAs(job) && started == old(started) + [job]
                   case Known(job) => acceptance == AcceptedAs(job) && started == old(started)
                   case Conflict => acceptance == IdempotencyConflict && started == old(started)
    {
      hide AgentInv, Remembers, SameOperation;
      SubmitKeeps(State(), request, blank);
      ForgetsNothing(State());
      if !valid { return Invalid; }
      var requestJob, keyJob := Find(requestJobs, request.requestId), Find(keyJobs, request.key);
      if requestJob.Some? && keyJob.Some? && requestJob != keyJob { return IdempotencyConflict; }
      var known := if requestJob.Some? then requestJob else keyJob;
      if known.Some? {
        var job := known.value;
        if !(job in jobRequests && SameOperation(jobRequests[job], request)) { return IdempotencyConflict; }
        requestJobs := requestJobs[request.requestId := job];
        keyJobs := keyJobs[request.key := job];
        return AcceptedAs(job);
      }
      var job := nextJob;
      nextJob := nextJob + 1;
      jobRequests := jobRequests[job := request];
      requestJobs := requestJobs[request.requestId := job];
      keyJobs := keyJobs[request.key := job];
      events := events[job := [ProgressEvent(1, Accepted, blank, false)]];
      started := started + [job];
      return AcceptedAs(job);
    }

    /** What a worker does with the state; after a terminal event, nothing. */
    method AppendEvent(job: nat, kind: Kind, payload: Name, terminal: bool)
      requires Valid() && job in events
      modifies this`events
      ensures Valid() && Remembers(old(State()), State())
      ensures State() == Do(old(State()), Append(job, kind, payload, terminal))
    {
      hide AgentInv, Remembers;
      StepKeeps(State(), Append(job, kind, payload, terminal));
      var existing := events[job];
      var i := 0;
      while i < |existing| && !existing[i].terminal
        invariant i <= |existing| && forall k | 0 <= k < i :: !existing[k].terminal
      {
        i := i + 1;
      }
      if i < |existing| {
        assert existing[i] in existing;
        assert events[job := existing] == events;
        return;
      }
      events := events[job := existing + [ProgressEvent(|existing| + 1, kind, payload, terminal)]];
    }

    method EventsAfter(job: nat, after: nat) returns (result: Events)
      requires Valid()
      ensures result == if job !in events then NotRead(UnknownJob)
                        else if after > |events[job]| then NotRead(InvalidEventCursor)
                        else Read(events[job][after..])
    {
      if job !in events { return NotRead(UnknownJob); }
      if after > |events[job]| { return NotRead(InvalidEventCursor); }
      LaterIsRest(events[job], after);
      return Read(Later(events[job], after));
    }
  }
}
