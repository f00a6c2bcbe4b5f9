/** The event journal: a bounded window over the events of the current epoch, an idempotency index, per
    activity sequence numbers, and paged reads from a cursor. */
module EventJournal {
  import opened Common

  type Digest = Name
  type Key = Name
  type Activity = Name
  type Subscriber = Name

  const MAX_EVENTS: nat := 1000
  const MAX_PAGE_EVENTS: nat := 256
  const MAX_PAGE_BYTES: nat := 256 * 1024
  const MAX_SUBSCRIBERS: nat := 32
  const SUBSCRIBER_IDLE_MS: nat := 15000

  datatype ActivityEvent = ActivityEvent(activity: Activity, sequence: nat, body: Name)

  /** What the journal takes from outside: validation, the size and digest of an event's JSON, and what it
      checks of a key's text. */
  datatype Codec = Codec(
    valid: ActivityEvent -> bool,
    size: ActivityEvent -> nat,
    digest: ActivityEvent -> Digest,
    blank: Key -> bool,
    long: Key -> bool)

  datatype Stored = Stored(cursor: nat, event: ActivityEvent, bytes: nat, key: Key)

  datatype Cursor = Cursor(epoch: nat, sequence: nat)

  datatype Subscription = Subscription(acknowledged: Cursor, lastActive: nat)

  /** `history` is a history variable: every event of the current epoch. */
  datatype Journal = Journal(
    epoch: nat,
    revision: nat,
    next: nat,
    events: seq<Stored>,
    bytes: nat,
    keys: map<Key, Digest>,
    sequences: map<Activity, nat>,
    subscribers: map<Subscriber, Subscription>,
    maxEvents: nat,
    maxBytes: nat,
    history: seq<Stored>)

  datatype AppendError =
    | InvalidEvent | EmptyIdempotencyKey | IdempotencyKeyTooLong | IdempotencyConflict
    | NonMonotonicSequence(expected: nat) | SequenceOverflow | EpochOverflow | LimitExceeded

  datatype AppendOutcome = Appended | DuplicateCollapsed | Refused(error: AppendError) | PrecommitFailed

  // ---------------------------------------------------------------- appending

  /** The checks that do not look at the idempotency index. */
  function EventChecks(c: Codec, key: Key, e: ActivityEvent): Option<AppendError> {
    if !c.valid(e) then Some(InvalidEvent)
    else if c.blank(key) then Some(EmptyIdempotencyKey)
    else if c.long(key) then Some(IdempotencyKeyTooLong)
    else None
  }

  function LimitChecks(c: Codec, j: Journal, e: ActivityEvent): Option<AppendError> {
    if e.sequence == U64_MAX then Some(SequenceOverflow)
    else if j.maxEvents == 0 || c.size(e) > j.maxBytes then Some(LimitExceeded)
    else None
  }

  function SequenceCheck(j: Journal, e: ActivityEvent): Option<AppendError> {
    var expected := if e.activity in j.sequences then j.sequences[e.activity] + 1 else 1;
    if expected > U64_MAX then Some(SequenceOverflow)
    else if e.sequence != expected then Some(NonMonotonicSequence(expected))
    else None
  }

  function Known(c: Codec, j: Journal, key: Key, e: ActivityEvent): AppendOutcome
    requires key in j.keys
  {
    if j.keys[key] == c.digest(e) then DuplicateCollapsed else Refused(IdempotencyConflict)
  }

  /** A new activity no longer fits into the sequence table. */
  predicate NeedsRotation(j: Journal, e: ActivityEvent) {
    e.activity !in j.sequences && |j.sequences| >= MAX_EVENTS
  }

  function Rotated(j: Journal, epoch: nat, revision: nat): Journal {
    Journal(epoch, revision, 1, [], 0, map[], map[], map[], j.maxEvents, j.maxBytes, [])
  }

  predicate Full(j: Journal, size: nat) {
    |j.events| >= j.maxEvents || j.bytes + size > j.maxBytes
  }

  function DropFirst(j: Journal): Journal
    requires j.events != []
  {
    var gone := j.events[0];
    j.(events := j.events[1..],
       bytes := if gone.bytes <= j.bytes then j.bytes - gone.bytes else 0,
       keys := j.keys - {gone.key})
  }

  function Evict(j: Journal, size: nat): Journal
    decreases |j.events|
  {
    if j.events != [] && Full(j, size) then Evict(DropFirst(j), size) else j
  }

  function Push(c: Codec, j: Journal, key: Key, e: ActivityEvent): Journal {
    var stored := Stored(j.next, e, c.size(e), key);
    j.(next := j.next + 1,
       events := j.events + [stored],
       bytes := j.bytes + c.size(e),
       keys := j.keys[key := c.digest(e)],
       sequences := j.sequences[e.activity := e.sequence],
       history := j.history + [stored])
  }

  /** The last part of an append, behind all checks but those for overflow. */
  function Admit(c: Codec, j: Journal, key: Key, e: ActivityEvent, precommit: bool): (Journal, AppendOutcome) {
    if j.next == U64_MAX then (j, Refused(SequenceOverflow))
    else if !precommit then (j, PrecommitFailed)
    else (Push(c, Evict(j, c.size(e)), key, e), Appended)
  }

  function Append(c: Codec, j: Journal, key: Key, e: ActivityEvent, precommit: bool): (Journal, AppendOutcome) {
    if EventChecks(c, key, e).Some? then (j, Refused(EventChecks(c, key, e).value))
    else if key in j.keys then (j, Known(c, j, key, e))
    else if LimitChecks(c, j, e).Some? then (j, Refused(LimitChecks(c, j, e).value))
    else if SequenceCheck(j, e).Some? then (j, Refused(SequenceCheck(j, e).value))
    else if !NeedsRotation(j, e) then Admit(c, j, key, e, precommit)
    else if j.epoch == U64_MAX then (j, Refused(EpochOverflow))
    else Admit(c, Rotated(j, j.epoch + 1, j.revision), key, e, precommit)
  }

  /** The dry run: the same checks, the limits before the idempotency index. */
  function Preflight(c: Codec, j: Journal, key: Key, e: ActivityEvent): Option<AppendError> {
    if EventChecks(c, key, e).Some? then EventChecks(c, key, e)
    else if LimitChecks(c, j, e).Some? then LimitChecks(c, j, e)
    else if key in j.keys then
      if j.keys[key] == c.digest(e) then None else Some(IdempotencyConflict)
    else SequenceCheck(j, e)
  }

  // ---------------------------------------------------------------- reading

  datatype ReadResult =
    | Events(events: seq<ActivityEvent>, next: Cursor)
    | CursorAhead(newest: Cursor)
    | ResyncRequired(oldest: Cursor, revision: nat)
    | PageTooSmall

  datatype Limit = Limit(events: nat, bytes: nat)

  type Filter = ActivityEvent -> bool

  /** A page out of `entries`: what it holds, how many entries it used up, and whether the very first event
      it wanted was too big. */
  datatype Page = Page(events: seq<ActivityEvent>, used: nat, stuck: bool)

  function FillPage(entries: seq<Stored>, wanted: Filter, left: nat, room: int, first: bool): Page
    decreases |entries|
  {
    if entries == [] || left == 0 then Page([], 0, false)
    else
      var entry := entries[0];
      var cost := entry.bytes + if first then 0 else 1;
      if !wanted(entry.event) then
        var p := FillPage(entries[1..], wanted, left, room, first);
        p.(used := p.used + 1)
      else if cost > room then Page([], 0, first)
      else
        var p := FillPage(entries[1..], wanted, left - 1, room - cost, false);
        Page([entry.event] + p.events, p.used + 1, p.stuck)
  }

  /** The retained entries behind a cursor. */
  function Behind(events: seq<Stored>, sequence: nat): seq<Stored> {
    if events == [] then []
    else if events[0].cursor > sequence then [events[0]] + Behind(events[1..], sequence)
    else Behind(events[1..], sequence)
  }

  function OldestOffer(j: Journal): Cursor
    requires j.next >= 1 && (j.events != [] ==> j.events[0].cursor >= 1)
  {
    Cursor(j.epoch, if j.events == [] then j.next - 1 else j.events[0].cursor - 1)
  }

  function Read(j: Journal, cursor: Cursor, limit: Limit, wanted: Filter): ReadResult
    requires j.next >= 1 && (j.events != [] ==> j.events[0].cursor >= 1)
  {
    if cursor.epoch != j.epoch then ResyncRequired(OldestOffer(j), j.revision)
    else if cursor.sequence > j.next - 1 then CursorAhead(Cursor(j.epoch, j.next - 1))
    else if j.events != [] && cursor.sequence < j.events[0].cursor - 1 then ResyncRequired(OldestOffer(j), j.revision)
    else
      var eventLimit := if limit.events < MAX_PAGE_EVENTS then limit.events else MAX_PAGE_EVENTS;
      var byteLimit := if limit.bytes < MAX_PAGE_BYTES then limit.bytes else MAX_PAGE_BYTES;
      if eventLimit == 0 || byteLimit == 0 then PageTooSmall
      else
        var entries := Behind(j.events, cursor.sequence);
        var p := FillPage(entries, wanted, eventLimit, byteLimit - 2, true);
        if p.stuck || p.used > |entries| then PageTooSmall
        else Events(p.events, Cursor(j.epoch, if p.used == 0 then cursor.sequence else entries[p.used - 1].cursor))
  }

  // ---------------------------------------------------------------- the other operations

  function Restore(j: Journal, activity: Activity, sequence: nat): (Journal, Option<AppendError>) {
    if sequence == 0 || sequence >= U64_MAX then (j, Some(SequenceOverflow))
    else if |j.sequences| >= MAX_EVENTS && activity !in j.sequences then (j, Some(LimitExceeded))
    else if activity in j.sequences && j.sequences[activity] != sequence then (j, Some(IdempotencyConflict))
    else (j.(sequences := j.sequences[activity := sequence]), None)
  }

  function Rotate(j: Journal, epoch: nat, revision: nat): (Journal, bool) {
    if epoch <= j.epoch then (j, false) else (Rotated(j, epoch, revision), true)
  }

  function Subscribe(j: Journal, id: Subscriber, now: nat): (Journal, bool) {
    if id in j.subscribers || |j.subscribers| >= MAX_SUBSCRIBERS then (j, false)
    else (j.(subscribers := j.subscribers[id := Subscription(Cursor(j.epoch, 0), now)]), true)
  }

  datatype AckOutcome = Acknowledged | WrongEpoch | AckAhead | AckResync(oldest: Cursor) | UnknownSubscriber

  function Acknowledge(j: Journal, id: Subscriber, cursor: Cursor, now: nat): (Journal, AckOutcome)
    requires j.next >= 1 && (j.events != [] ==> j.events[0].cursor >= 1)
  {
    if cursor.epoch != j.epoch then (j, WrongEpoch)
    else if cursor.sequence >= j.next then (j, AckAhead)
    else if j.events != [] && cursor.sequence < j.events[0].cursor - 1 then (j, AckResync(OldestOffer(j)))
    else if id !in j.subscribers then (j, UnknownSubscriber)
    else
      var s := j.subscribers[id];
      var moved := if cursor.sequence >= s.acknowledged.sequence then cursor else s.acknowledged;
      (j.(subscribers := j.subscribers[id := Subscription(moved, now)]), Acknowledged)
  }

  function ExpireIdle(j: Journal, now: nat): Journal {
    j.(subscribers := map id | id in j.subscribers
                               && (if now > j.subscribers[id].lastActive then now - j.subscribers[id].lastActive else 0)
                                  <= SUBSCRIBER_IDLE_MS
                         :: j.subscribers[id])
  }

  // ---------------------------------------------------------------- the invariant

  function TotalBytes(events: seq<Stored>): nat {
    if events == [] then 0 else events[0].bytes + TotalBytes(events[1..])
  }

  /** How many events behind position `i` belong to `activity`. */
  function CountBehind(events: seq<Stored>, i: nat, activity: Activity): nat
    requires i <= |events|
    decreases |events| - i
  {
    if i == |events| then 0
    else (if events[i].event.activity == activity then 1 else 0) + CountBehind(events, i + 1, activity)
  }

  /** The retained events are the newest ones of the epoch, under consecutive cursors. */
  ghost predicate WindowInv(j: Journal) {
    && j.next == |j.history| + 1 && j.next <= U64_MAX
    && |j.events| <= |j.history| && j.events == j.history[|j.history| - |j.events|..]
    && (forall i | 0 <= i < |j.history| :: j.history[i].cursor == i + 1)
  }

  ghost predicate BoundsInv(c: Codec, j: Journal) {
    && j.bytes == TotalBytes(j.events) && j.bytes <= j.maxBytes && |j.events| <= j.maxEvents
    && (forall i | 0 <= i < |j.events| :: j.events[i].bytes == c.size(j.events[i].event))
  }

  /** The idempotency index knows exactly the retained events, each under its own key. */
  ghost predicate KeysInv(c: Codec, j: Journal) {
    && (forall i, k | 0 <= i < k < |j.events| :: j.events[i].key != j.events[k].key)
    && (forall i | 0 <= i < |j.events| ::
          j.events[i].key in j.keys && j.keys[j.events[i].key] == c.digest(j.events[i].event))
    && (forall key | key in j.keys :: HasKey(j.events, key))
  }

  ghost predicate HasKey(events: seq<Stored>, key: Key) {
    exists i :: 0 <= i < |events| && events[i].key == key
  }

  /** Entry `i` of the history counts up to its activity's recorded number. */
  ghost predicate Counted(history: seq<Stored>, sequences: map<Activity, nat>, i: nat)
    requires i < |history|
  {
    var e := history[i].event;
    e.activity in sequences && e.sequence + CountBehind(history, i + 1, e.activity) == sequences[e.activity]
  }

  /** Per activity the epoch's sequence numbers are consecutive and end at the recorded one. */
  ghost predicate SequencesInv(j: Journal) {
    && |j.sequences| <= MAX_EVENTS
    && (forall a | a in j.sequences :: 1 <= j.sequences[a] < U64_MAX)
    && (forall i | 0 <= i < |j.history| :: Counted(j.history, j.sequences, i))
  }

  ghost predicate SubscribersInv(j: Journal) {
    && |j.subscribers| <= MAX_SUBSCRIBERS
    && (forall id | id in j.subscribers ::
          j.subscribers[id].acknowledged.epoch == j.epoch && j.subscribers[id].acknowledged.sequence < j.next)
  }

  ghost predicate JournalInv(c: Codec, j: Journal) {
    WindowInv(j) && BoundsInv(c, j) && KeysInv(c, j) && SequencesInv(j) && SubscribersInv(j)
  }
}
