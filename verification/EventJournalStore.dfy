/** The journal as an object: a queue, a byte counter and three maps changed in place under one lock. */
module EventJournalStore {
  import opened Common
  import opened EventJournal
  import opened EventJournalRuns

  class Inner {
    const c: Codec
    const maxEvents: nat
    const maxBytes: nat
    var epoch: nat
    var revision: nat
    var next: nat
    var events: seq<Stored>
    var bytes: nat
    var keys: map<Key, Digest>
    var sequences: map<Activity, nat>
    var subscribers: map<Subscriber, Subscription>
    ghost var history: seq<Stored>

    ghost function View(): Journal
      reads this
    {
      Journal(epoch, revision, next, events, bytes, keys, sequences, subscribers, maxEvents, maxBytes, history)
    }

    constructor (c: Codec, epoch: nat, revision: nat, maxEvents: nat, maxBytes: nat)
      ensures this.c == c && JournalInv(c, View()) && RetainsNewest(View())
      ensures View().history == [] && View().epoch == epoch
    {
      this.c, this.maxEvents, this.maxBytes := c, maxEvents, maxBytes;
      this.epoch, this.revision, this.next := epoch, revision, 1;
      this.events, this.bytes, this.keys, this.sequences, this.subscribers := [], 0, map[], map[], map[];
      this.history := [];
    }

    method RotateLocked(newEpoch: nat, newRevision: nat)
      modifies this
      ensures View() == Rotated(old(View()), newEpoch, newRevision)
    {
      epoch, revision, next := newEpoch, newRevision, 1;
      events, bytes := [], 0;
      keys, sequences, subscribers := map[], map[], map[];
      history := [];
    }

    method PopFront()
      requires events != []
      modifies this
      ensures View() == DropFirst(old(View()))
    {
      var removed := events[0];
      events := events[1..];
      bytes := if removed.bytes <= bytes then bytes - removed.bytes else 0;
      keys := keys - {removed.key};
    }

    /** Pops events until the new one fits; the queue is never empty when it is popped. */
    method MakeRoom(size: nat)
      requires BoundsInv(c, View()) && size <= maxBytes && maxEvents >= 1
      modifies this
      ensures View() == Evict(old(View()), size)
    {
      hide BoundsInv, DropFirst, Evict;
      ghost var start := View();
      while |events| >= maxEvents || bytes > maxBytes - size
        invariant BoundsInv(c, View()) && Evict(View(), size) == Evict(start, size)
        decreases |events|
      {
        PopsSafely(c, View(), size);
        PopFront();
      }
      StopsEvicting(View(), size);
    }

    /** The append proper, once the event has passed every check. */
    method Store(key: Key, e: ActivityEvent)
      modifies this
      ensures View() == Push(c, old(View()), key, e)
    {
      var cursor, size := next, c.size(e);
      next := next + 1;
      bytes := bytes + size;
      sequences := sequences[e.activity := e.sequence];
      keys := keys[key := c.digest(e)];
      events := events + [Stored(cursor, e, size, key)];
      history := history + [Stored(cursor, e, size, key)];
    }

    method AppendWithPrecommit(key: Key, e: ActivityEvent, precommit: bool) returns (outcome: AppendOutcome)
      requires JournalInv(c, View())
      modifies this
      ensures (View(), outcome) == Append(c, old(View()), key, e, precommit)
    {
      hide JournalInv, BoundsInv, Admit;
      if !c.valid(e) { return Refused(InvalidEvent); }
      if c.blank(key) { return Refused(EmptyIdempotencyKey); }
      if c.long(key) { return Refused(IdempotencyKeyTooLong); }
      var size, digest := c.size(e), c.digest(e);
      if key in keys {
        return if keys[key] == digest then DuplicateCollapsed else Refused(IdempotencyConflict);
      }
      if e.sequence == U64_MAX { return Refused(SequenceOverflow); }
      if maxEvents == 0 || size > maxBytes { return Refused(LimitExceeded); }
      var known := e.activity in sequences;
      var expected := if known then sequences[e.activity] + 1 else 1;
      if expected > U64_MAX { return Refused(SequenceOverflow); }
      if e.sequence != expected { return Refused(NonMonotonicSequence(expected)); }
      ghost var start := View();
      TargetKeeps(c, start, key, e);
      if !known && |sequences| >= MAX_EVENTS {
        if epoch == U64_MAX { return Refused(EpochOverflow); }
        RotateLocked(epoch + 1, revision);
      }
      Fits(c, View(), e);
      outcome := AdmitInPlace(key, e, precommit);
    }

    method AdmitInPlace(key: Key, e: ActivityEvent, precommit: bool) returns (outcome: AppendOutcome)
      requires BoundsInv(c, View()) && c.size(e) <= maxBytes && maxEvents >= 1
      modifies this
      ensures (View(), outcome) == Admit(c, old(View()), key, e, precommit)
    {
      hide BoundsInv, Evict, Push;
      if next == U64_MAX { return Refused(SequenceOverflow); }
      if !precommit { return PrecommitFailed; }
      MakeRoom(c.size(e));
      Store(key, e);
      return Appended;
    }

    method PreflightAppend(key: Key, e: ActivityEvent) returns (error: Option<AppendError>)
      ensures error == Preflight(c, View(), key, e)
    {
      if !c.valid(e) { return Some(InvalidEvent); }
      if c.blank(key) { return Some(EmptyIdempotencyKey); }
      if c.long(key) { return Some(IdempotencyKeyTooLong); }
      if e.sequence == U64_MAX { return Some(SequenceOverflow); }
      if maxEvents == 0 || c.size(e) > maxBytes { return Some(LimitExceeded); }
      if key in keys { return if keys[key] == c.digest(e) then None else Some(IdempotencyConflict); }
      var expected := if e.activity in sequences then sequences[e.activity] + 1 else 1;
      if expected > U64_MAX { return Some(SequenceOverflow); }
      if e.sequence != expected { return Some(NonMonotonicSequence(expected)); }
      return None;
    }

    /** Builds a page entry by entry, with a running byte count and cursor. */
    method ReadFiltered(cursor: Cursor, limit: Limit, wanted: Filter) returns (r: ReadResult)
      requires WindowInv(View()) && RetainsNewest(View())
      ensures next >= 1 && (events != [] ==> events[0].cursor >= 1)
      ensures r == Read(View(), cursor, limit, wanted)
    {
      hide WindowInv, RetainsNewest, FillPage, Behind;
      Offers(View());
      var newest := next - 1;
      if cursor.epoch != epoch {
        return ResyncRequired(Cursor(epoch, if events == [] then newest else events[0].cursor - 1), revision);
      }
      if cursor.sequence > newest { return CursorAhead(Cursor(epoch, newest)); }
      if events != [] && cursor.sequence < events[0].cursor - 1 {
        return ResyncRequired(Cursor(epoch, events[0].cursor - 1), revision);
      }
      var eventLimit := if limit.events < MAX_PAGE_EVENTS then limit.events else MAX_PAGE_EVENTS;
      var byteLimit := if limit.bytes < MAX_PAGE_BYTES then limit.bytes else MAX_PAGE_BYTES;
      if eventLimit == 0 || byteLimit == 0 { return PageTooSmall; }
      var entries := Behind(events, cursor.sequence);
      PageMeaning(entries, wanted, eventLimit, byteLimit - 2, true);
      var page, at, stuck := BuildPage(entries, cursor.sequence, wanted, eventLimit, byteLimit);
      return if stuck then PageTooSmall else Events(page, Cursor(epoch, at));
    }

    method BuildPage(entries: seq<Stored>, after: nat, wanted: Filter, eventLimit: nat, byteLimit: nat)
      returns (page: seq<ActivityEvent>, at: nat, stuck: bool)
      ensures var p := FillPage(entries, wanted, eventLimit, byteLimit - 2, true);
              && p.used <= |entries|
              && stuck == p.stuck
              && (!stuck ==> page == p.events && at == if p.used == 0 then after else entries[p.used - 1].cursor)
    {
      hide FillPage;
      ghost var whole := FillPage(entries, wanted, eventLimit, byteLimit - 2, true);
      PageMeaning(entries, wanted, eventLimit, byteLimit - 2, true);
      page, at, stuck := [], after, false;
      var pageBytes, i := 2, 0;
      assert entries[0..] == entries;
      while i < |entries|
        invariant i <= |entries| && |page| <= eventLimit && !stuck
        invariant at == if i == 0 then after else entries[i - 1].cursor
        invariant var rest := FillPage(entries[i..], wanted, eventLimit - |page|, byteLimit - pageBytes, page == []);
                  Continues(whole, page, i, rest)
      {
        FillNext(entries, i, wanted, eventLimit - |page|, byteLimit - pageBytes, page == []);
        if |page| == eventLimit { return; }
        var entry := entries[i];
        if !wanted(entry.event) {
          at := entry.cursor;
          i := i + 1;
          continue;
        }
        var separator := if page == [] then 0 else 1;
        if pageBytes + separator + entry.bytes > byteLimit {
          stuck := page == [];
          return;
        }
        OneMore(page, entry.event);
        pageBytes := pageBytes + separator + entry.bytes;
        page := page + [entry.event];
        at := entry.cursor;
        i := i + 1;
      }
      FillNothing(entries[i..], wanted, eventLimit - |page|, byteLimit - pageBytes, page == []);
    }

    method RestoreActivitySequence(activity: Activity, sequence: nat) returns (error: Option<AppendError>)
      modifies this
      ensures (View(), error) == Restore(old(View()), activity, sequence)
    {
      if sequence == 0 || sequence >= U64_MAX { return Some(SequenceOverflow); }
      if |sequences| >= MAX_EVENTS && activity !in sequences { return Some(LimitExceeded); }
      if activity in sequences && sequences[activity] != sequence { return Some(IdempotencyConflict); }
      sequences := sequences[activity := sequence];
      return None;
    }

    method RotateEpoch(newEpoch: nat, newRevision: nat) returns (ok: bool)
      modifies this
      ensures (View(), ok) == Rotate(old(View()), newEpoch, newRevision)
    {
      if newEpoch <= epoch { return false; }
      RotateLocked(newEpoch, newRevision);
      return true;
    }

    method AddSubscriber(id: Subscriber, now: nat) returns (ok: bool)
      modifies this
      ensures (View(), ok) == Subscribe(old(View()), id, now)
    {
      if id in subscribers || |subscribers| >= MAX_SUBSCRIBERS { return false; }
      subscribers := subscribers[id := Subscription(Cursor(epoch, 0), now)];
      return true;
    }

    method AcknowledgeCursor(id: Subscriber, cursor: Cursor, now: nat) returns (outcome: AckOutcome)
      requires JournalInv(c, View()) && RetainsNewest(View())
      modifies this
      ensures next >= 1 && (old(events) != [] ==> old(events)[0].cursor >= 1)
      ensures (View(), outcome) == Acknowledge(old(View()), id, cursor, now)
    {
      Offers(View());
      if cursor.epoch != epoch { return WrongEpoch; }
      if cursor.sequence >= next { return AckAhead; }
      if events != [] && cursor.sequence < events[0].cursor - 1 {
        return AckResync(Cursor(epoch, events[0].cursor - 1));
      }
      if id !in subscribers { return UnknownSubscriber; }
      var s := subscribers[id];
      if cursor.sequence >= s.acknowledged.sequence { s := s.(acknowledged := cursor); }
      subscribers := subscribers[id := s.(lastActive := now)];
      return Acknowledged;
    }
  }

  /** A page from entry `i` on, by what becomes of that entry. */
  lemma FillNext(entries: seq<Stored>, i: nat, wanted: Filter, left: nat, room: int, first: bool)
    requires i < |entries|
    ensures var p, entry := FillPage(entries[i..], wanted, left, room, first), entries[i];
            var cost := entry.bytes + if first then 0 else 1;
            p == if left == 0 then Page([], 0, false)
                 else if !wanted(entry.event) then
                   var rest := FillPage(entries[i + 1..], wanted, left, room, first);
                   rest.(used := rest.used + 1)
                 else if cost > room then Page([], 0, first)
                 else
                   var rest := FillPage(entries[i + 1..], wanted, left - 1, room - cost, false);
                   Page([entry.event] + rest.events, rest.used + 1, rest.stuck)
  {
    assert entries[i..][1..] == entries[i + 1..] && entries[i..][0] == entries[i];
  }

  lemma FillNothing(entries: seq<Stored>, wanted: Filter, left: nat, room: int, first: bool)
    requires entries == []
    ensures FillPage(entries, wanted, left, room, first) == Page([], 0, false)
  {
  }

  lemma OneMore<T>(page: seq<T>, x: T)
    ensures forall rest: seq<T> :: page + ([x] + rest) == page + [x] + rest
  {
    forall rest: seq<T> ensures page + ([x] + rest) == page + [x] + rest {
    }
  }

  /** The page so far and the page still to come make up the whole page. */
  ghost predicate Continues(whole: Page, page: seq<ActivityEvent>, used: nat, rest: Page) {
    whole == Page(page + rest.events, used + rest.used, rest.stuck)
  }

  /** As long as the journal is too full there is an event to pop. */
  lemma PopsSafely(c: Codec, j: Journal, size: nat)
    requires BoundsInv(c, j) && size <= j.maxBytes && j.maxEvents >= 1 && Full(j, size)
    ensures j.events != [] && BoundsInv(c, DropFirst(j)) && Evict(DropFirst(j), size) == Evict(j, size)
    ensures |DropFirst(j).events| < |j.events|
  {
    assert j.events == [] ==> TotalBytes(j.events) == 0;
    DropFirstBounds(c, j);
  }

  lemma StopsEvicting(j: Journal, size: nat)
    requires !Full(j, size)
    ensures Evict(j, size) == j
  {
  }
}
