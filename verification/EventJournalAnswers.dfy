/** When the journal accepts an event and what it refuses others for, told of the event and of what the journal
    retains; and what that makes of the history. */
module EventJournalAnswers {
  import opened Common
  import opened EventJournal
  import opened EventJournalRuns

  /** The event and its key are well-formed. */
  predicate Presentable(c: Codec, key: Key, e: ActivityEvent) {
    c.valid(e) && !c.blank(key) && !c.long(key)
  }

  /** The event retained under `key` has the digest of `e`. */
  ghost predicate RetainedAs(c: Codec, j: Journal, key: Key, e: ActivityEvent) {
    exists i :: 0 <= i < |j.events| && j.events[i].key == key && c.digest(j.events[i].event) == c.digest(e)
  }

  lemma IndexTells(c: Codec, j: Journal, key: Key, e: ActivityEvent)
    requires KeysInv(c, j)
    ensures key in j.keys <==> HasKey(j.events, key)
    ensures key in j.keys ==> (j.keys[key] == c.digest(e) <==> RetainedAs(c, j, key, e))
  {
    if key in j.keys {
      assert HasKey(j.events, key);
      var i :| 0 <= i < |j.events| && j.events[i].key == key;
      assert forall k | 0 <= k < |j.events| && j.events[k].key == key :: k == i;
    }
  }

  /** The journal has room for the event at all. */
  predicate CanHold(c: Codec, j: Journal, e: ActivityEvent) {
    j.maxEvents >= 1 && c.size(e) <= j.maxBytes
  }

  /** The number its activity is to continue with. */
  function NextNumber(j: Journal, e: ActivityEvent): nat {
    if e.activity in j.sequences then j.sequences[e.activity] + 1 else 1
  }

  /** There is a cursor left for the event: in the next epoch where the sequence table has no place for another
      activity, in the present one otherwise. */
  predicate HasPlace(j: Journal, e: ActivityEvent) {
    if e.activity !in j.sequences && |j.sequences| >= MAX_EVENTS then j.epoch != U64_MAX else j.next != U64_MAX
  }

  /** An event under a new key is appended exactly if it and its key are well-formed, it fits, it continues its
      activity and is not its last number, there is a cursor left, and the precommit succeeds. One under a known
      key counts as a repetition exactly if it and its key are well-formed and it has the digest of the event
      retained under that key. */
  lemma AcceptedExactly(c: Codec, j: Journal, key: Key, e: ActivityEvent, precommit: bool)
    requires JournalInv(c, j)
    ensures var outcome := Append(c, j, key, e, precommit).1;
            && (outcome.Appended? <==>
                  && c.valid(e) && !c.blank(key) && !c.long(key) && !HasKey(j.events, key)
                  && j.maxEvents >= 1 && c.size(e) <= j.maxBytes
                  && e.sequence == NextNumber(j, e) && e.sequence < U64_MAX
                  && HasPlace(j, e) && precommit)
            && (outcome.DuplicateCollapsed? <==>
                  c.valid(e) && !c.blank(key) && !c.long(key) && RetainedAs(c, j, key, e))
  {
    assert j.next <= U64_MAX;
    assert e.activity in j.sequences ==> j.sequences[e.activity] < U64_MAX;
    IndexTells(c, j, key, e);
    assert RetainedAs(c, j, key, e) ==> HasKey(j.events, key);
    hide JournalInv, Push, Evict, RetainedAs, HasKey;
  }

  /** The place it gets is in the next epoch. */
  predicate Rotates(j: Journal, e: ActivityEvent) {
    e.activity !in j.sequences && |j.sequences| >= MAX_EVENTS
  }

  /** Why an event is refused, in the order in which reasons count. */
  ghost predicate RefusalTells(c: Codec, j: Journal, key: Key, e: ActivityEvent, error: AppendError) {
    var fresh_ := Presentable(c, key, e) && !HasKey(j.events, key);
    var fitting := fresh_ && e.sequence < U64_MAX && CanHold(c, j, e);
    match error
    case InvalidEvent => !c.valid(e)
    case EmptyIdempotencyKey => c.valid(e) && c.blank(key)
    case IdempotencyKeyTooLong => c.valid(e) && !c.blank(key) && c.long(key)
    case IdempotencyConflict => Presentable(c, key, e) && HasKey(j.events, key) && !RetainedAs(c, j, key, e)
    case LimitExceeded => fresh_ && e.sequence < U64_MAX && !CanHold(c, j, e)
    case NonMonotonicSequence(expected) => fitting && e.sequence != expected && expected == NextNumber(j, e)
    case SequenceOverflow =>
      fresh_ && (e.sequence >= U64_MAX
                 || (fitting && e.sequence == NextNumber(j, e) && !Rotates(j, e) && j.next == U64_MAX))
    case EpochOverflow => fitting && e.sequence == NextNumber(j, e) && Rotates(j, e) && j.epoch == U64_MAX
  }

  /** Each refusal is given exactly where it is due; so is a failed precommit, which comes after all checks. */
  lemma RefusedExactly(c: Codec, j: Journal, key: Key, e: ActivityEvent, precommit: bool, error: AppendError)
    requires JournalInv(c, j) && e.sequence <= U64_MAX
    ensures var outcome := Append(c, j, key, e, precommit).1;
            && (outcome == Refused(error) <==> RefusalTells(c, j, key, e, error))
            && (outcome.PrecommitFailed? <==>
                  && Presentable(c, key, e) && !HasKey(j.events, key) && CanHold(c, j, e)
                  && e.sequence == NextNumber(j, e) && e.sequence < U64_MAX && HasPlace(j, e) && !precommit)
  {
    assert j.next <= U64_MAX;
    assert e.activity in j.sequences ==> j.sequences[e.activity] < U64_MAX;
    IndexTells(c, j, key, e);
    assert RetainedAs(c, j, key, e) ==> HasKey(j.events, key);
    hide JournalInv, Push, Evict, RetainedAs, HasKey;
  }

  /** The dry run passes exactly what is well-formed, fits, and either continues its activity under a new key or
      has the digest of the event retained under its key. */
  lemma PassesExactly(c: Codec, j: Journal, key: Key, e: ActivityEvent)
    requires JournalInv(c, j)
    ensures Preflight(c, j, key, e).None? <==>
              && c.valid(e) && !c.blank(key) && !c.long(key)
              && e.sequence != U64_MAX && j.maxEvents >= 1 && c.size(e) <= j.maxBytes
              && (if HasKey(j.events, key) then RetainedAs(c, j, key, e) else e.sequence == NextNumber(j, e))
  {
    assert e.activity in j.sequences ==> j.sequences[e.activity] < U64_MAX;
    IndexTells(c, j, key, e);
    hide JournalInv, RetainedAs, HasKey;
  }

  // ---------------------------------------------------------------- the history

  /** Every event of the epoch is well-formed and was presented under a well-formed key; its size is that of its
      JSON. */
  ghost predicate HistorySound(c: Codec, j: Journal) {
    forall i | 0 <= i < |j.history| ::
      && c.valid(j.history[i].event) && !c.blank(j.history[i].key) && !c.long(j.history[i].key)
      && j.history[i].event.sequence < U64_MAX
      && j.history[i].bytes == c.size(j.history[i].event)
  }

  lemma SoundLonger(c: Codec, j: Journal, j': Journal, x: Stored)
    requires HistorySound(c, j) && j'.history == j.history + [x] && Presentable(c, x.key, x.event)
    requires x.event.sequence < U64_MAX && x.bytes == c.size(x.event)
    ensures HistorySound(c, j')
  {
  }

  lemma SoundTarget(c: Codec, j: Journal, e: ActivityEvent)
    requires HistorySound(c, j)
    ensures HistorySound(c, Target(j, e))
  {
  }

  lemma AppendSound(c: Codec, j: Journal, key: Key, e: ActivityEvent, precommit: bool)
    requires JournalInv(c, j) && HistorySound(c, j)
    ensures HistorySound(c, Append(c, j, key, e, precommit).0)
  {
    hide JournalInv, Append, HistorySound, Target;
    AcceptedExactly(c, j, key, e, precommit);
    AppendMeaning(c, j, key, e, precommit);
    SoundTarget(c, j, e);
    var (j', outcome) := Append(c, j, key, e, precommit);
    if outcome.Appended? { SoundLonger(c, Target(j, e), j', Stored(Target(j, e).next, e, c.size(e), key)); }
  }

  lemma StepSound(c: Codec, wanted: Filter, w: Watch, op: Op)
    requires w.journal.next >= 1 && (w.journal.events != [] ==> w.journal.events[0].cursor >= 1)
    requires JournalInv(c, w.journal) && HistorySound(c, w.journal)
    ensures HistorySound(c, Step(c, wanted, w, op).journal)
  {
    hide Append, Read, JournalInv;
    if op.DoAppend? { AppendSound(c, w.journal, op.key, op.event, op.precommit); }
  }

  /** Over any run all of the history is sound, so a consumer is given valid events only. */
  lemma {:induction false} RunSound(c: Codec, wanted: Filter, w: Watch, ops: seq<Op>)
    requires GapFree(c, wanted, w) && HistorySound(c, w.journal)
    ensures HistorySound(c, Run(c, wanted, w, ops).journal)
    decreases |ops|
  {
    if ops != [] {
      assert JournalInv(c, w.journal);
      hide GapFree, JournalInv, HistorySound, Step;
      StepGapFree(c, wanted, w, ops[0]);
      StepSound(c, wanted, w, ops[0]);
      RunSound(c, wanted, Step(c, wanted, w, ops[0]), ops[1..]);
    }
  }

  lemma {:induction false} WantedAreOfHistory(events: seq<Stored>, wanted: Filter)
    ensures forall e | e in Wanted(events, wanted) ::
              wanted(e) && exists i :: 0 <= i < |events| && events[i].event == e
  {
    if events != [] {
      WantedAreOfHistory(events[1..], wanted);
      forall e | e in Wanted(events, wanted)
        ensures wanted(e) && exists i :: 0 <= i < |events| && events[i].event == e
      {
        if e in Wanted(events[1..], wanted) {
          var i :| 0 <= i < |events[1..]| && events[1..][i].event == e;
          assert events[i + 1].event == e;
        } else {
          assert events[0].event == e;
        }
      }
    }
  }

  lemma WantedAreSound(c: Codec, j: Journal, from: nat, to: nat, wanted: Filter)
    requires HistorySound(c, j) && from <= to <= |j.history|
    ensures forall e | e in Wanted(j.history[from..to], wanted) :: wanted(e) && c.valid(e)
  {
    hide Wanted;
    var part := j.history[from..to];
    WantedAreOfHistory(part, wanted);
    forall e | e in Wanted(part, wanted) ensures wanted(e) && c.valid(e) {
      var i :| 0 <= i < |part| && part[i].event == e;
      assert j.history[from + i].event == e;
    }
  }

  /** Whatever a consumer of a fresh journal has received, it asked for, and it is valid. */
  lemma ConsumerSeesValidEvents(
      c: Codec, wanted: Filter, epoch: nat, revision: nat, maxEvents: nat, maxBytes: nat, ops: seq<Op>)
    ensures var fresh_ := Journal(epoch, revision, 1, [], 0, map[], map[], map[], maxEvents, maxBytes, []);
            var start := Watch(fresh_, Cursor(epoch, 0), 0, []);
            && GapFree(c, wanted, start)
            && (var end := Run(c, wanted, start, ops);
                end.cursor.epoch == end.journal.epoch ==> forall e | e in end.got :: wanted(e) && c.valid(e))
  {
    hide GapFree, Run, Wanted;
    var fresh_ := Journal(epoch, revision, 1, [], 0, map[], map[], map[], maxEvents, maxBytes, []);
    var start := Watch(fresh_, Cursor(epoch, 0), 0, []);
    ConsumerSeesEverythingOnce(c, wanted, epoch, revision, maxEvents, maxBytes, ops);
    RunSound(c, wanted, start, ops);
    hide HistorySound;
    var end := Run(c, wanted, start, ops);
    if end.cursor.epoch == end.journal.epoch {
      WantedAreSound(c, end.journal, end.from, end.cursor.sequence, wanted);
    }
  }

  // ---------------------------------------------------------------- pages

  /** The bytes of a list with the wanted ones of the events between two cursors, brackets and commas included. */
  function ListBytes(j: Journal, from: nat, to: nat, wanted: Filter): nat
    requires from <= to <= |j.history|
  {
    2 + PageBytes(j.history[from..to], wanted, true)
  }

  /** So many events, or so many bytes, are more than the reader or the journal allows. */
  predicate Exceeds(limit: Limit, bytes: nat) {
    bytes > limit.bytes || bytes > 256 * 1024
  }

  /** A page holds no more events and, unless it is empty, no more bytes than the reader and the journal allow. It
      ends before the end of the history only where it is full or the next wanted event does not fit in, and it is
      refused only where no event is allowed or the very first wanted one does not fit. */
  ghost predicate PageFills(j: Journal, cursor: Cursor, limit: Limit, wanted: Filter, r: ReadResult)
    requires WindowInv(j) && ReadTells(j, cursor, wanted, r)
  {
    match r
    case Events(events, next) =>
      && |events| <= limit.events && |events| <= 256
      && (events != [] ==> !Exceeds(limit, ListBytes(j, cursor.sequence, next.sequence, wanted)))
      && (next.sequence < |j.history| ==>
            || |events| == limit.events || |events| == 256
            || Exceeds(limit, ListBytes(j, cursor.sequence, next.sequence + 1, wanted)))
    case PageTooSmall =>
      || limit.events == 0 || limit.bytes == 0
      || exists next | cursor.sequence <= next < |j.history| ::
           && Wanted(j.history[cursor.sequence..next], wanted) == []
           && Exceeds(limit, ListBytes(j, cursor.sequence, next + 1, wanted))
    case _ => true
  }

  /** Without room a page is empty, and a stuck one leaves the entry it is stuck at. */
  lemma {:induction false} PageEdges(entries: seq<Stored>, wanted: Filter, left: nat, room: int, first: bool)
    ensures var p := FillPage(entries, wanted, left, room, first);
            (room < 0 ==> p.events == []) && (p.stuck ==> p.used < |entries|)
    decreases |entries|
  {
    if entries != [] && left != 0 {
      var cost := entries[0].bytes + if first then 0 else 1;
      if !wanted(entries[0].event) { PageEdges(entries[1..], wanted, left, room, first); }
      else if cost <= room { PageEdges(entries[1..], wanted, left - 1, room - cost, false); }
    }
  }

  lemma PageUsed(j: Journal, sequence: nat, wanted: Filter, left: nat, room: int)
    requires WindowInv(j) && RetainsNewest(j) && Evicted(j) <= sequence <= |j.history| && left > 0
    ensures var entries := Behind(j.events, sequence);
            var p := FillPage(entries, wanted, left, room, true);
            && p.used <= |entries| && sequence + p.used <= |j.history|
            && (p.used > 0 ==> entries[p.used - 1].cursor == sequence + p.used)
            && |p.events| <= left
            && p.events == Wanted(j.history[sequence..sequence + p.used], wanted)
            && (p.stuck ==> p.events == [] && sequence + p.used < |j.history|)
            && (p.events != [] ==> PageBytes(j.history[sequence..sequence + p.used], wanted, true) <= room)
            && (sequence + p.used < |j.history| ==>
                  || |p.events| == left
                  || PageBytes(j.history[sequence..sequence + p.used + 1], wanted, true) > room)
  {
    hide FillPage, Behind, Wanted, PageBytes, RetainsNewest;
    var entries := Behind(j.events, sequence);
    var p := FillPage(entries, wanted, left, room, true);
    BehindIsHistory(j, sequence);
    PageMeaning(entries, wanted, left, room, true);
    PageIsFull(entries, wanted, left, room, true);
    PageEdges(entries, wanted, left, room, true);
    UsedIsHistory(j.history, sequence, p.used);
    if sequence + p.used < |j.history| { UsedIsHistory(j.history, sequence, p.used + 1); }
    if p.used > 0 { assert entries[p.used - 1] == j.history[sequence + p.used - 1]; }
  }

  /** From the limits that apply to those that the reader and the journal set. */
  lemma PageAnswer(j: Journal, cursor: Cursor, limit: Limit, wanted: Filter, p: Page, left: nat, room: int)
    requires WindowInv(j) && RetainsNewest(j) && cursor.epoch == j.epoch
    requires Evicted(j) <= cursor.sequence <= |j.history|
    requires left == if limit.events < 256 then limit.events else 256
    requires room == (if limit.bytes < 256 * 1024 then limit.bytes else 256 * 1024) - 2
    requires left > 0 && p == FillPage(Behind(j.events, cursor.sequence), wanted, left, room, true)
    ensures cursor.sequence + p.used <= |j.history|
    ensures var next := Cursor(j.epoch, cursor.sequence + p.used);
            var r := if p.stuck then PageTooSmall else Events(p.events, next);
            ReadTells(j, cursor, wanted, r) ==> PageFills(j, cursor, limit, wanted, r)
  {
    hide FillPage, Behind, PageBytes, Wanted, RetainsNewest, WindowInv, ReadTells;
    PageUsed(j, cursor.sequence, wanted, left, room);
    var next := cursor.sequence + p.used;
    if p.stuck {
      assert Wanted(j.history[cursor.sequence..next], wanted) == [];
      assert Exceeds(limit, ListBytes(j, cursor.sequence, next + 1, wanted));
    }
  }

  /** What a read answers beside what `ReadMeaning` says. */
  lemma ReadFillsPage(j: Journal, cursor: Cursor, limit: Limit, wanted: Filter)
    requires WindowInv(j) && RetainsNewest(j)
    ensures j.next >= 1 && (j.events != [] ==> j.events[0].cursor >= 1)
    ensures ReadTells(j, cursor, wanted, Read(j, cursor, limit, wanted))
    ensures PageFills(j, cursor, limit, wanted, Read(j, cursor, limit, wanted))
  {
    Offers(j);
    ReadMeaning(j, cursor, limit, wanted);
    var r := Read(j, cursor, limit, wanted);
    var left := if limit.events < MAX_PAGE_EVENTS then limit.events else MAX_PAGE_EVENTS;
    var room := (if limit.bytes < MAX_PAGE_BYTES then limit.bytes else MAX_PAGE_BYTES) - 2;
    if (r.Events? || r.PageTooSmall?) && left > 0 && room >= -1 {
      var p := FillPage(Behind(j.events, cursor.sequence), wanted, left, room, true);
      PageUsed(j, cursor.sequence, wanted, left, room);
      PageAnswer(j, cursor, limit, wanted, p, left, room);
      ReadsPage(j, cursor, limit, wanted, p, left, room);
      hide FillPage, Behind, PageBytes, Wanted, RetainsNewest, WindowInv, ReadTells, Read, PageFills;
    } else {
      hide FillPage, Behind, PageBytes, Wanted, RetainsNewest, WindowInv, ReadTells, ListBytes, Exceeds;
    }
  }

  /** A read that neither cursor nor limits refuse. */
  lemma ReadUnfolds(j: Journal, cursor: Cursor, limit: Limit, wanted: Filter, entries: seq<Stored>, p: Page,
                    left: nat, room: int)
    requires j.next >= 1 && (j.events != [] ==> j.events[0].cursor >= 1)
    requires Read(j, cursor, limit, wanted).Events? || Read(j, cursor, limit, wanted).PageTooSmall?
    requires left == if limit.events < MAX_PAGE_EVENTS then limit.events else MAX_PAGE_EVENTS
    requires room == (if limit.bytes < MAX_PAGE_BYTES then limit.bytes else MAX_PAGE_BYTES) - 2
    requires left > 0 && room >= -1
    requires entries == Behind(j.events, cursor.sequence) && p == FillPage(entries, wanted, left, room, true)
    requires p.used <= |entries|
    ensures Read(j, cursor, limit, wanted)
            == if p.stuck then PageTooSmall
               else
                 var next := if p.used == 0 then cursor.sequence else entries[p.used - 1].cursor;
                 Events(p.events, Cursor(j.epoch, next))
  {
    hide FillPage, Behind;
  }

  lemma ReadsPage(j: Journal, cursor: Cursor, limit: Limit, wanted: Filter, p: Page, left: nat, room: int)
    requires WindowInv(j) && RetainsNewest(j) && Evicted(j) <= cursor.sequence <= |j.history|
    requires j.next >= 1 && (j.events != [] ==> j.events[0].cursor >= 1)
    requires Read(j, cursor, limit, wanted).Events? || Read(j, cursor, limit, wanted).PageTooSmall?
    requires left == if limit.events < MAX_PAGE_EVENTS then limit.events else MAX_PAGE_EVENTS
    requires room == (if limit.bytes < MAX_PAGE_BYTES then limit.bytes else MAX_PAGE_BYTES) - 2
    requires left > 0 && room >= -1 && p == FillPage(Behind(j.events, cursor.sequence), wanted, left, room, true)
    ensures Read(j, cursor, limit, wanted)
            == if p.stuck then PageTooSmall else Events(p.events, Cursor(j.epoch, cursor.sequence + p.used))
  {
    hide *;
    PageUsed(j, cursor.sequence, wanted, left, room);
    ReadUnfolds(j, cursor, limit, wanted, Behind(j.events, cursor.sequence), p, left, room);
  }

  // ---------------------------------------------------------------- the other operations

  /** A number is restored exactly if it is a number an event can have, it does not contradict the recorded one,
      and there is a place for it. Then the next event the journal takes of that activity is the one behind it. */
  lemma RestoredExactly(c: Codec, j: Journal, activity: Activity, sequence: nat, key: Key, e: ActivityEvent)
    requires JournalInv(c, j) && e.activity == activity
    ensures var (j', error) := Restore(j, activity, sequence);
            && (error.None? <==>
                  && 1 <= sequence < U64_MAX
                  && (if activity in j.sequences then j.sequences[activity] == sequence
                      else |j.sequences| < MAX_EVENTS))
            && (error.Some? ==> j' == j)
            && (error.None? ==>
                  && activity in j'.sequences && j'.sequences[activity] == sequence
                  && (forall a | a != activity :: a in j'.sequences <==> a in j.sequences)
                  && (forall a | a != activity && a in j.sequences :: j'.sequences[a] == j.sequences[a])
                  && j' == j.(sequences := j'.sequences)
                  && (Append(c, j', key, e, true).1.Appended? ==> e.sequence == sequence + 1))
  {
    RestoreKeeps(c, j, activity, sequence);
    var (j', error) := Restore(j, activity, sequence);
    if error.None? { AcceptedExactly(c, j', key, e, true); }
    hide JournalInv, Append, RetainedAs;
  }

  /** An epoch is opened exactly if it is a later one, and it is empty: no event, no key, no number, no subscriber
      of the last one is left in it. */
  lemma RotatedExactly(j: Journal, epoch: nat, revision: nat)
    ensures var (j', ok) := Rotate(j, epoch, revision);
            && (ok <==> j.epoch < epoch)
            && (!ok ==> j' == j)
            && (ok ==>
                  && j'.epoch == epoch && j'.revision == revision && j'.next == 1
                  && j'.history == [] && j'.events == [] && j'.bytes == 0
                  && j'.keys.Keys == {} && j'.sequences.Keys == {} && j'.subscribers.Keys == {}
                  && j'.maxEvents == j.maxEvents && j'.maxBytes == j.maxBytes)
  {
  }

  /** Of a subscriber: where it starts, which cursors it may acknowledge, and when it is dropped. */
  ghost predicate SubscribersTell(j: Journal, j': Journal, id: Subscriber) {
    && (forall k | k != id :: k in j'.subscribers <==> k in j.subscribers)
    && (forall k | k != id && k in j.subscribers :: j'.subscribers[k] == j.subscribers[k])
    && j' == j.(subscribers := j'.subscribers)
  }

  lemma SubscribedExactly(j: Journal, id: Subscriber, now: nat)
    ensures var (j', ok) := Subscribe(j, id, now);
            && (ok <==> id !in j.subscribers && |j.subscribers| < 32)
            && (!ok ==> j' == j)
            && (ok ==>
                  && SubscribersTell(j, j', id) && id in j'.subscribers
                  && j'.subscribers[id] == Subscription(Cursor(j.epoch, 0), now))
  {
  }

  lemma AcknowledgeTold(j: Journal, id: Subscriber, cursor: Cursor, now: nat, evicted: nat, newest: nat)
    requires j.next == newest + 1 && evicted <= newest
    requires if j.events == [] then newest == 0 else j.events[0].cursor == evicted + 1
    requires id in j.subscribers ==> j.subscribers[id].acknowledged.epoch == j.epoch
    ensures var (j', outcome) := Acknowledge(j, id, cursor, now);
            && (outcome.WrongEpoch? <==> cursor.epoch != j.epoch)
            && (outcome.AckAhead? <==> cursor.epoch == j.epoch && cursor.sequence > newest)
            && (outcome.AckResync? <==> cursor.epoch == j.epoch && cursor.sequence < evicted)
            && (outcome.AckResync? ==> outcome.oldest == Cursor(j.epoch, evicted))
            && (outcome.Acknowledged? <==>
                  cursor.epoch == j.epoch && evicted <= cursor.sequence <= newest && id in j.subscribers)
            && (!outcome.Acknowledged? ==> j' == j)
            && (outcome.Acknowledged? ==>
                  && SubscribersTell(j, j', id) && id in j'.subscribers
                  && j'.subscribers[id].lastActive == now
                  && j'.subscribers[id].acknowledged
                     == if cursor.sequence > j.subscribers[id].acknowledged.sequence then cursor
                        else j.subscribers[id].acknowledged)
  {
  }

  /** A cursor is acknowledged exactly if it is one of the epoch, not ahead of its history nor behind what is
      evicted, and the subscriber is known, who is then active and never moves back. */
  lemma AcknowledgedExactly(c: Codec, j: Journal, id: Subscriber, cursor: Cursor, now: nat)
    requires JournalInv(c, j) && RetainsNewest(j)
    ensures j.next >= 1 && (j.events != [] ==> j.events[0].cursor >= 1)
    ensures var (j', outcome) := Acknowledge(j, id, cursor, now);
            && (outcome.WrongEpoch? <==> cursor.epoch != j.epoch)
            && (outcome.AckAhead? <==> cursor.epoch == j.epoch && cursor.sequence > |j.history|)
            && (outcome.AckResync? <==> cursor.epoch == j.epoch && cursor.sequence < Evicted(j))
            && (outcome.AckResync? ==> outcome.oldest == Cursor(j.epoch, Evicted(j)))
            && (outcome.Acknowledged? <==>
                  cursor.epoch == j.epoch && Evicted(j) <= cursor.sequence <= |j.history| && id in j.subscribers)
            && (!outcome.Acknowledged? ==> j' == j)
            && (outcome.Acknowledged? ==>
                  && SubscribersTell(j, j', id) && id in j'.subscribers
                  && j'.subscribers[id].lastActive == now
                  && j'.subscribers[id].acknowledged
                     == if cursor.sequence > j.subscribers[id].acknowledged.sequence then cursor
                        else j.subscribers[id].acknowledged)
  {
    Offers(j);
    assert j.next == |j.history| + 1 && (if j.events == [] then |j.history| == 0 else j.events[0].cursor >= 1);
    assert id in j.subscribers ==> j.subscribers[id].acknowledged.epoch == j.epoch;
    hide JournalInv, WindowInv, RetainsNewest, OldestOffer, Acknowledge, SubscribersTell;
    AcknowledgeTold(j, id, cursor, now, Evicted(j), |j.history|);
  }

  /** Exactly the subscribers that have been idle for more than fifteen seconds are dropped. */
  lemma DroppedExactly(j: Journal, now: nat)
    ensures var j' := ExpireIdle(j, now);
            && (forall id :: id in j'.subscribers <==>
                  id in j.subscribers && now <= j.subscribers[id].lastActive + 15000)
            && (forall id | id in j'.subscribers :: j'.subscribers[id] == j.subscribers[id])
            && j' == j.(subscribers := j'.subscribers)
  {
  }
}
