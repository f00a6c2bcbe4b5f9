/** What every journal operation keeps, what a page holds, and what a consumer sees over a whole run. */
module EventJournalRuns {
  import opened Common
  import opened EventJournal

  // ---------------------------------------------------------------- eviction

  lemma TotalBytesSnoc(events: seq<Stored>, x: Stored)
    ensures TotalBytes(events + [x]) == TotalBytes(events) + x.bytes
  {
    if events != [] { assert (events + [x])[1..] == events[1..] + [x]; }
  }

  lemma DropFirstWindow(j: Journal)
    requires WindowInv(j) && j.events != []
    ensures WindowInv(DropFirst(j))
  {
    var n := |j.history| - |j.events|;
    assert j.history[n..][1..] == j.history[n + 1..];
  }

  lemma DropFirstKeys(c: Codec, j: Journal)
    requires KeysInv(c, j) && j.events != []
    ensures KeysInv(c, DropFirst(j))
  {
    var j' := DropFirst(j);
    assert forall i | 0 <= i < |j'.events| :: j'.events[i] == j.events[i + 1];
    forall key | key in j'.keys ensures HasKey(j'.events, key) {
      assert HasKey(j.events, key);
      var i :| 0 <= i < |j.events| && j.events[i].key == key;
      assert j'.events[i - 1].key == key;
    }
  }

  lemma DropFirstBounds(c: Codec, j: Journal)
    requires BoundsInv(c, j) && j.events != []
    ensures BoundsInv(c, DropFirst(j))
  {
  }

  /** The window from position `k` on still does not leave room for `size` bytes more. */
  ghost predicate TooFull(j: Journal, k: nat, size: nat)
    requires k <= |j.events|
  {
    |j.events| - k >= j.maxEvents || TotalBytes(j.events[k..]) + size > j.maxBytes
  }

  lemma {:induction false} EvictKeepsWindow(c: Codec, j: Journal, size: nat)
    requires WindowInv(j) && BoundsInv(c, j) && KeysInv(c, j)
    ensures var j' := Evict(j, size); WindowInv(j') && BoundsInv(c, j') && KeysInv(c, j')
    decreases |j.events|
  {
    if j.events != [] && Full(j, size) {
      DropFirstWindow(j);
      DropFirstKeys(c, j);
      DropFirstBounds(c, j);
      hide WindowInv, BoundsInv, KeysInv;
      EvictKeepsWindow(c, DropFirst(j), size);
    }
  }

  /** What eviction leaves alone. */
  lemma {:induction false} EvictFrame(j: Journal, size: nat)
    ensures var j' := Evict(j, size);
            && j'.epoch == j.epoch && j'.revision == j.revision && j'.next == j.next && j'.history == j.history
            && j'.sequences == j.sequences && j'.subscribers == j.subscribers
            && j'.maxEvents == j.maxEvents && j'.maxBytes == j.maxBytes
            && |j'.events| <= |j.events| && j'.events == j.events[|j.events| - |j'.events|..]
            && (forall key | key in j'.keys :: key in j.keys)
    decreases |j.events|
  {
    if j.events != [] && Full(j, size) { EvictFrame(DropFirst(j), size); }
  }

  /** Eviction never runs dry and makes room for an event that fits at all. */
  lemma {:induction false} EvictMakesRoom(c: Codec, j: Journal, size: nat)
    requires BoundsInv(c, j) && size <= j.maxBytes && j.maxEvents >= 1
    ensures !Full(Evict(j, size), size)
    decreases |j.events|
  {
    if j.events != [] && Full(j, size) {
      DropFirstBounds(c, j);
      EvictMakesRoom(c, DropFirst(j), size);
    }
  }

  /** Eviction drops no event it could have kept. */
  lemma {:induction false} EvictIsMinimal(c: Codec, j: Journal, size: nat, k: nat)
    requires BoundsInv(c, j) && k < |j.events| - |Evict(j, size).events|
    ensures TooFull(j, k, size)
    decreases |j.events|
  {
    if j.events != [] && Full(j, size) {
      if k == 0 { assert j.events[0..] == j.events; }
      else {
        var d := DropFirst(j);
        DropFirstBounds(c, j);
        EvictIsMinimal(c, d, size, k - 1);
        assert d.events[k - 1..] == j.events[k..];
      }
    }
  }

  // ---------------------------------------------------------------- appending

  lemma {:induction false} CountBehindSnoc(events: seq<Stored>, x: Stored, i: nat, a: Activity)
    requires i <= |events|
    ensures CountBehind(events + [x], i, a) == CountBehind(events, i, a) + if x.event.activity == a then 1 else 0
    decreases |events| - i
  {
    if i < |events| { CountBehindSnoc(events, x, i + 1, a); }
    else { assert CountBehind(events + [x], i + 1, a) == 0; }
  }

  lemma CountedSnoc(history: seq<Stored>, sequences: map<Activity, nat>, x: Stored, i: nat)
    requires i < |history| && Counted(history, sequences, i)
    requires x.event.activity in sequences ==> x.event.sequence == sequences[x.event.activity] + 1
    ensures Counted(history + [x], sequences[x.event.activity := x.event.sequence], i)
  {
    CountBehindSnoc(history, x, i + 1, history[i].event.activity);
  }

  lemma SequencesPush(j: Journal, x: Stored)
    requires SequencesInv(j) && 1 <= x.event.sequence < U64_MAX
    requires if x.event.activity in j.sequences then x.event.sequence == j.sequences[x.event.activity] + 1
             else |j.sequences| < MAX_EVENTS
    ensures SequencesInv(j.(sequences := j.sequences[x.event.activity := x.event.sequence], history := j.history + [x]))
  {
    var history, sequences := j.history + [x], j.sequences[x.event.activity := x.event.sequence];
    MapInsertSize(j.sequences, x.event.activity, x.event.sequence);
    forall i | 0 <= i < |history| ensures Counted(history, sequences, i) {
      if i < |j.history| {
        assert Counted(j.history, j.sequences, i);
        CountedSnoc(j.history, j.sequences, x, i);
      }
    }
  }

  lemma PushSequences(c: Codec, j: Journal, key: Key, e: ActivityEvent)
    requires SequencesInv(j) && LimitChecks(c, j, e).None? && SequenceCheck(j, e).None? && !NeedsRotation(j, e)
    ensures SequencesInv(Push(c, j, key, e))
  {
    SequencesPush(j, Stored(j.next, e, c.size(e), key));
    hide Counted;
  }

  lemma PushKeys(c: Codec, j: Journal, key: Key, e: ActivityEvent)
    requires KeysInv(c, j) && key !in j.keys
    ensures KeysInv(c, Push(c, j, key, e))
  {
    var j' := Push(c, j, key, e);
    forall k | k in j'.keys ensures HasKey(j'.events, k) {
      if k == key { assert j'.events[|j.events|].key == k; }
      else {
        var i :| 0 <= i < |j.events| && j.events[i].key == k;
        assert j'.events[i].key == k;
      }
    }
  }

  lemma PushWindow(c: Codec, j: Journal, key: Key, e: ActivityEvent)
    requires WindowInv(j) && j.next < U64_MAX
    ensures WindowInv(Push(c, j, key, e))
  {
    var stored, base := Stored(j.next, e, c.size(e), key), |j.history| - |j.events|;
    SuffixSnoc(j.history, base, stored);
  }

  lemma SuffixSnoc<T>(s: seq<T>, base: nat, x: T)
    requires base <= |s|
    ensures (s + [x])[base..] == s[base..] + [x]
  {
  }

  lemma PushBounds(c: Codec, j: Journal, key: Key, e: ActivityEvent)
    requires BoundsInv(c, j) && !Full(j, c.size(e))
    ensures BoundsInv(c, Push(c, j, key, e))
  {
    TotalBytesSnoc(j.events, Stored(j.next, e, c.size(e), key));
  }

  lemma PushSubscribers(c: Codec, j: Journal, key: Key, e: ActivityEvent)
    requires SubscribersInv(j)
    ensures SubscribersInv(Push(c, j, key, e))
  {
  }

  lemma PushKeeps(c: Codec, j: Journal, key: Key, e: ActivityEvent)
    requires JournalInv(c, j) && key !in j.keys && j.next < U64_MAX && !Full(j, c.size(e))
    requires LimitChecks(c, j, e).None? && SequenceCheck(j, e).None? && !NeedsRotation(j, e)
    ensures JournalInv(c, Push(c, j, key, e))
  {
    hide Push, WindowInv, BoundsInv, KeysInv, SequencesInv, SubscribersInv;
    PushWindow(c, j, key, e);
    PushBounds(c, j, key, e);
    PushKeys(c, j, key, e);
    PushSequences(c, j, key, e);
    PushSubscribers(c, j, key, e);
  }

  lemma RotatedInv(c: Codec, j: Journal, epoch: nat, revision: nat)
    ensures JournalInv(c, Rotated(j, epoch, revision))
  {
  }

  lemma EvictKeeps(c: Codec, j: Journal, size: nat)
    requires JournalInv(c, j)
    ensures JournalInv(c, Evict(j, size))
  {
    EvictKeepsWindow(c, j, size);
    EvictFrame(j, size);
    hide KeysInv, BoundsInv, WindowInv, Evict;
  }

  /** The checks look only at what eviction leaves alone. */
  lemma ChecksFrame(c: Codec, j: Journal, k: Journal, e: ActivityEvent)
    requires k.sequences == j.sequences && k.maxEvents == j.maxEvents && k.maxBytes == j.maxBytes
    ensures LimitChecks(c, k, e) == LimitChecks(c, j, e) && SequenceCheck(k, e) == SequenceCheck(j, e)
    ensures NeedsRotation(k, e) == NeedsRotation(j, e)
  {
  }

  lemma Fits(c: Codec, j: Journal, e: ActivityEvent)
    requires JournalInv(c, j) && LimitChecks(c, j, e).None?
    ensures BoundsInv(c, j) && c.size(e) <= j.maxBytes && j.maxEvents >= 1
  {
  }

  lemma EvictedReady(c: Codec, j: Journal, key: Key, e: ActivityEvent)
    requires JournalInv(c, j) && key !in j.keys && j.next < U64_MAX
    requires LimitChecks(c, j, e).None? && SequenceCheck(j, e).None? && !NeedsRotation(j, e)
    ensures var k := Evict(j, c.size(e));
            && JournalInv(c, k) && key !in k.keys && k.next < U64_MAX && !Full(k, c.size(e))
            && LimitChecks(c, k, e).None? && SequenceCheck(k, e).None? && !NeedsRotation(k, e)
  {
    hide JournalInv, BoundsInv, Evict, Full, LimitChecks, SequenceCheck, NeedsRotation;
    Fits(c, j, e);
    EvictKeeps(c, j, c.size(e));
    EvictFrame(j, c.size(e));
    EvictMakesRoom(c, j, c.size(e));
    ChecksFrame(c, j, Evict(j, c.size(e)), e);
  }

  lemma AdmitKeeps(c: Codec, j: Journal, key: Key, e: ActivityEvent, precommit: bool)
    requires JournalInv(c, j) && key !in j.keys
    requires LimitChecks(c, j, e).None? && SequenceCheck(j, e).None? && !NeedsRotation(j, e)
    ensures var (j', outcome) := Admit(c, j, key, e, precommit);
            && JournalInv(c, j')
            && (outcome.Appended? <==> precommit && j.next < U64_MAX)
            && (outcome.Appended? ==>
                  j'.epoch == j.epoch && j'.history == j.history + [Stored(j.next, e, c.size(e), key)])
            && (!outcome.Appended? ==> j' == j)
  {
    assert j.next <= U64_MAX;
    hide JournalInv, LimitChecks, SequenceCheck, NeedsRotation, Full, Evict, Push;
    if j.next < U64_MAX && precommit {
      EvictedReady(c, j, key, e);
      EvictPushFrame(c, j, key, e);
      PushKeeps(c, Evict(j, c.size(e)), key, e);
    }
  }

  lemma EvictPushFrame(c: Codec, j: Journal, key: Key, e: ActivityEvent)
    ensures var j' := Push(c, Evict(j, c.size(e)), key, e);
            j'.epoch == j.epoch && j'.history == j.history + [Stored(j.next, e, c.size(e), key)]
  {
    EvictFrame(j, c.size(e));
  }

  /** What an append would run over. */
  predicate Overflows(j: Journal, e: ActivityEvent) {
    if NeedsRotation(j, e) then j.epoch == U64_MAX else j.next == U64_MAX
  }

  /** The journal an append writes to: the current epoch, or the next one when the sequence table is full. */
  function Target(j: Journal, e: ActivityEvent): Journal {
    if NeedsRotation(j, e) then Rotated(j, j.epoch + 1, j.revision) else j
  }

  lemma TargetKeeps(c: Codec, j: Journal, key: Key, e: ActivityEvent)
    requires JournalInv(c, j) && key !in j.keys && LimitChecks(c, j, e).None? && SequenceCheck(j, e).None?
    ensures var t := Target(j, e);
            && JournalInv(c, t) && key !in t.keys && LimitChecks(c, t, e).None? && SequenceCheck(t, e).None?
            && !NeedsRotation(t, e)
  {
    if NeedsRotation(j, e) { RotatedInv(c, j, j.epoch + 1, j.revision); }
  }

  /** An append keeps the invariant; an accepted event joins the end of its epoch's history. A duplicate, a
      refusal and a failed precommit change nothing, except that the last may leave the empty next epoch. */
  lemma AppendMeaning(c: Codec, j: Journal, key: Key, e: ActivityEvent, precommit: bool)
    requires JournalInv(c, j)
    ensures var (j', outcome) := Append(c, j, key, e, precommit);
            var t := Target(j, e);
            && JournalInv(c, j')
            && (outcome.Appended? ==>
                  j'.epoch == t.epoch && j'.history == t.history + [Stored(t.next, e, c.size(e), key)])
            && (outcome.PrecommitFailed? ==> j' == t)
            && (outcome.DuplicateCollapsed? || outcome.Refused? ==> j' == j)
  {
    hide JournalInv, Admit, SequenceCheck, LimitChecks, EventChecks, Rotated;
    if EventChecks(c, key, e).None? && key !in j.keys && LimitChecks(c, j, e).None? && SequenceCheck(j, e).None? {
      TargetKeeps(c, j, key, e);
      AdmitKeeps(c, Target(j, e), key, e, precommit);
      AdmitTells(c, Target(j, e), key, e, precommit);
      RotationHasRoom(j, e);
    }
  }

  lemma AdmitTells(c: Codec, j: Journal, key: Key, e: ActivityEvent, precommit: bool)
    ensures Admit(c, j, key, e, precommit).1.Refused? <==> j.next == U64_MAX
    ensures !Admit(c, j, key, e, precommit).1.DuplicateCollapsed?
  {
  }

  lemma RotationHasRoom(j: Journal, e: ActivityEvent)
    ensures NeedsRotation(j, e) ==> Target(j, e).next < U64_MAX
  {
  }

  // ---------------------------------------------------------------- the dry run

  predicate Accepted(outcome: AppendOutcome) {
    outcome.Appended? || outcome.DuplicateCollapsed?
  }

  /** Different events have different digests. */
  ghost predicate CollisionFree(c: Codec) {
    forall e, f :: c.digest(e) == c.digest(f) ==> e == f
  }

  /** In a reachable journal a retained event passes the limit checks, so their order does not matter. */
  lemma RetainedPasses(c: Codec, j: Journal, key: Key, e: ActivityEvent)
    requires JournalInv(c, j) && CollisionFree(c) && key in j.keys && j.keys[key] == c.digest(e)
    ensures LimitChecks(c, j, e).None?
  {
    assert HasKey(j.events, key);
    var i :| 0 <= i < |j.events| && j.events[i].key == key;
    RetainedWithin(c, j, i);
  }

  lemma RetainedWithin(c: Codec, j: Journal, i: nat)
    requires JournalInv(c, j) && i < |j.events|
    ensures LimitChecks(c, j, j.events[i].event).None?
  {
    var e, h := j.events[i].event, |j.history| - |j.events| + i;
    assert j.history[h] == j.events[i];
    assert Counted(j.history, j.sequences, h);
    SizeWithin(j.events, i);
  }

  lemma {:induction false} SizeWithin(events: seq<Stored>, i: nat)
    requires i < |events|
    ensures events[i].bytes <= TotalBytes(events)
  {
    if i > 0 { SizeWithin(events[1..], i - 1); }
  }

  /** The dry run predicts the append exactly: it succeeds if and only if the append would, short of an
      overflow of epochs or cursors, which it does not look at. */
  lemma PreflightIsExact(c: Codec, j: Journal, key: Key, e: ActivityEvent)
    requires JournalInv(c, j) && CollisionFree(c)
    ensures var outcome := Append(c, j, key, e, true).1;
            && (Accepted(outcome) ==> Preflight(c, j, key, e).None?)
            && (Preflight(c, j, key, e).None? ==>
                  (Accepted(outcome) <==> key in j.keys || !Overflows(j, e)))
  {
    if key in j.keys && j.keys[key] == c.digest(e) { RetainedPasses(c, j, key, e); }
  }

  /** Without collision-freedom the two part ways exactly on a known key whose new event is over a limit. */
  lemma PreflightDiffers(c: Codec, j: Journal, key: Key, e: ActivityEvent)
    ensures Accepted(Append(c, j, key, e, true).1) && Preflight(c, j, key, e).Some?
            <==> && EventChecks(c, key, e).None? && key in j.keys && j.keys[key] == c.digest(e)
                 && LimitChecks(c, j, e).Some?
  {
  }

  // ---------------------------------------------------------------- the other operations

  lemma SequencesOnly(c: Codec, j: Journal, sequences: map<Activity, nat>)
    requires JournalInv(c, j) && SequencesInv(j.(sequences := sequences))
    ensures JournalInv(c, j.(sequences := sequences))
  {
    var j' := j.(sequences := sequences);
    assert WindowInv(j');
    assert BoundsInv(c, j');
    assert KeysInv(c, j');
    assert SubscribersInv(j');
  }

  lemma SubscribersOnly(c: Codec, j: Journal, subscribers: map<Subscriber, Subscription>)
    requires JournalInv(c, j) && SubscribersInv(j.(subscribers := subscribers))
    ensures JournalInv(c, j.(subscribers := subscribers))
  {
    var j' := j.(subscribers := subscribers);
    assert WindowInv(j');
    assert BoundsInv(c, j');
    assert KeysInv(c, j');
    assert SequencesInv(j');
  }

  lemma MapInsertSize<K, V>(m: map<K, V>, k: K, v: V)
    ensures |m[k := v]| == |m| + if k in m then 0 else 1
  {
    assert m[k := v].Keys == m.Keys + {k};
    if k in m { assert m.Keys + {k} == m.Keys; }
    assert |m[k := v]| == |m[k := v].Keys| && |m| == |m.Keys|;
  }

  /** Restoring a sequence number keeps the invariant. */
  lemma RestoreKeeps(c: Codec, j: Journal, activity: Activity, sequence: nat)
    requires JournalInv(c, j)
    ensures JournalInv(c, Restore(j, activity, sequence).0)
  {
    if Restore(j, activity, sequence).1.None? {
      var sequences := j.sequences[activity := sequence];
      MapInsertSize(j.sequences, activity, sequence);
      assert forall i | 0 <= i < |j.history| :: Counted(j.history, j.sequences, i) ==> Counted(j.history, sequences, i);
      SequencesOnly(c, j, j.sequences[activity := sequence]);
    }
    hide JournalInv;
  }

  lemma RotateKeeps(c: Codec, j: Journal, epoch: nat, revision: nat)
    requires JournalInv(c, j)
    ensures JournalInv(c, Rotate(j, epoch, revision).0)
  {
    RotatedInv(c, j, epoch, revision);
    hide JournalInv;
  }

  lemma SubscribeKeeps(c: Codec, j: Journal, id: Subscriber, now: nat)
    requires JournalInv(c, j)
    ensures JournalInv(c, Subscribe(j, id, now).0)
  {
    if Subscribe(j, id, now).1 {
      var entry := Subscription(Cursor(j.epoch, 0), now);
      MapInsertSize(j.subscribers, id, entry);
      SubscribersOnly(c, j, j.subscribers[id := entry]);
    }
    hide JournalInv;
  }

  /** An acknowledgement never moves a subscriber back, and only to a cursor the journal has issued. */
  lemma AcknowledgeKeeps(c: Codec, j: Journal, id: Subscriber, cursor: Cursor, now: nat)
    requires JournalInv(c, j)
    ensures var (j', outcome) := Acknowledge(j, id, cursor, now);
            && JournalInv(c, j')
            && (forall k | k in j.subscribers ::
                  k in j'.subscribers
                  && j.subscribers[k].acknowledged.sequence <= j'.subscribers[k].acknowledged.sequence)
            && (outcome.Acknowledged? ==> cursor.sequence <= j'.subscribers[id].acknowledged.sequence)
  {
    var (j', outcome) := Acknowledge(j, id, cursor, now);
    if outcome.Acknowledged? {
      MapInsertSize(j.subscribers, id, j'.subscribers[id]);
      SubscribersOnly(c, j, j'.subscribers);
    }
    hide JournalInv;
  }

  lemma ExpireIdleKeeps(c: Codec, j: Journal, now: nat)
    requires JournalInv(c, j)
    ensures JournalInv(c, ExpireIdle(j, now))
  {
    var j' := ExpireIdle(j, now);
    SubsetSize(j'.subscribers.Keys, j.subscribers.Keys);
    assert |j'.subscribers| == |j'.subscribers.Keys| && |j.subscribers| == |j.subscribers.Keys|;
    SubscribersOnly(c, j, j'.subscribers);
    hide JournalInv;
  }

  lemma SubsetSize<T>(a: set<T>, b: set<T>)
    requires a <= b
    ensures |a| <= |b|
  {
    assert b == a + (b - a);
  }

  // ---------------------------------------------------------------- pages

  function Wanted(events: seq<Stored>, wanted: Filter): seq<ActivityEvent> {
    if events == [] then []
    else (if wanted(events[0].event) then [events[0].event] else []) + Wanted(events[1..], wanted)
  }

  lemma {:induction false} WantedConcat(a: seq<Stored>, b: seq<Stored>, wanted: Filter)
    ensures Wanted(a + b, wanted) == Wanted(a, wanted) + Wanted(b, wanted)
  {
    if a == [] { assert a + b == b; }
    else {
      var t, head := a[1..], if wanted(a[0].event) then [a[0].event] else [];
      assert (a + b)[1..] == t + b;
      WantedConcat(t, b, wanted);
      assert (head + Wanted(t, wanted)) + Wanted(b, wanted) == head + (Wanted(t, wanted) + Wanted(b, wanted));
    }
  }

  /** Size of the page's JSON list, without the brackets. */
  function PageBytes(events: seq<Stored>, wanted: Filter, first: bool): nat {
    if events == [] then 0
    else if wanted(events[0].event) then
      events[0].bytes + (if first then 0 else 1) + PageBytes(events[1..], wanted, false)
    else PageBytes(events[1..], wanted, first)
  }

  /** A page holds exactly the wanted events of the entries it used up, in order; it is stuck only if the
      first event it wanted was too big. */
  lemma {:induction false} PageMeaning(entries: seq<Stored>, wanted: Filter, left: nat, room: int, first: bool)
    ensures var p := FillPage(entries, wanted, left, room, first);
            && p.used <= |entries| && |p.events| <= left
            && p.events == Wanted(entries[..p.used], wanted)
            && (p.stuck ==> first && p.events == [])
    decreases |entries|
  {
    var p := FillPage(entries, wanted, left, room, first);
    if p.used == 0 { assert entries[..0] == []; }
    else {
      var rest, cost := entries[1..], entries[0].bytes + if first then 0 else 1;
      if wanted(entries[0].event) { PageMeaning(rest, wanted, left - 1, room - cost, false); }
      else { PageMeaning(rest, wanted, left, room, first); }
      assert entries[..p.used][1..] == rest[..p.used - 1];
    }
  }

  lemma NoPageBytes(entries: seq<Stored>, wanted: Filter)
    ensures forall first :: PageBytes(entries[..0], wanted, first) == 0
  {
  }

  /** The bytes of a page, counted from behind its first entry. */
  lemma PageBytesBehind(entries: seq<Stored>, k: nat, wanted: Filter, first: bool)
    requires 0 < k <= |entries|
    ensures var rest := entries[1..][..k - 1];
            PageBytes(entries[..k], wanted, first) ==
              if wanted(entries[0].event) then
                entries[0].bytes + (if first then 0 else 1) + PageBytes(rest, wanted, false)
              else PageBytes(rest, wanted, first)
  {
    assert entries[..k][1..] == entries[1..][..k - 1];
  }

  /** A page stays within its room, and it stops short of the last entry only when it is full or the next
      wanted event would not fit. */
  lemma {:induction false} PageIsFull(entries: seq<Stored>, wanted: Filter, left: nat, room: int, first: bool)
    ensures var p := FillPage(entries, wanted, left, room, first);
            && p.used <= |entries|
            && (room >= 0 ==> PageBytes(entries[..p.used], wanted, first) <= room)
            && (p.used < |entries| ==>
                  |p.events| == left || PageBytes(entries[..p.used + 1], wanted, first) > room)
    decreases |entries|
  {
    hide PageBytes;
    var p := FillPage(entries, wanted, left, room, first);
    NoPageBytes(entries, wanted);
    if entries != [] && left != 0 {
      var rest, cost := entries[1..], entries[0].bytes + if first then 0 else 1;
      if !wanted(entries[0].event) {
        PageIsFull(rest, wanted, left, room, first);
      } else if cost <= room {
        PageIsFull(rest, wanted, left - 1, room - cost, false);
      }
      if p.used > 0 { PageBytesBehind(entries, p.used, wanted, first); }
      if p.used < |entries| { PageBytesBehind(entries, p.used + 1, wanted, first); }
    }
  }

  // ---------------------------------------------------------------- reads against the whole history

  /** A non-empty epoch always retains its newest event. */
  ghost predicate RetainsNewest(j: Journal) {
    j.history != [] ==> j.events != []
  }

  /** How many events of the epoch have been evicted. */
  function Evicted(j: Journal): int {
    |j.history| - |j.events|
  }

  lemma {:induction false} BehindIsSuffix(events: seq<Stored>, base: nat, sequence: nat)
    requires forall i | 0 <= i < |events| :: events[i].cursor == base + i + 1
    requires base <= sequence <= base + |events|
    ensures Behind(events, sequence) == events[sequence - base..]
  {
    if events != [] {
      if base < sequence {
        BehindIsSuffix(events[1..], base + 1, sequence);
      } else {
        BehindIsAll(events, sequence);
      }
    }
  }

  lemma {:induction false} BehindIsAll(events: seq<Stored>, sequence: nat)
    requires forall i | 0 <= i < |events| :: events[i].cursor > sequence
    ensures Behind(events, sequence) == events
  {
    if events != [] { BehindIsAll(events[1..], sequence); }
  }

  lemma BehindIsHistory(j: Journal, sequence: nat)
    requires WindowInv(j) && RetainsNewest(j) && Evicted(j) <= sequence <= |j.history|
    ensures Behind(j.events, sequence) == j.history[sequence..]
  {
    hide WindowInv, RetainsNewest;
    WindowCursors(j);
    BehindIsSuffix(j.events, |j.history| - |j.events|, sequence);
    SuffixOfSuffix(j.history, |j.history| - |j.events|, sequence);
  }

  /** The retained events are numbered on from the last evicted one. */
  lemma WindowCursors(j: Journal)
    requires WindowInv(j)
    ensures |j.events| <= |j.history| && j.events == j.history[|j.history| - |j.events|..]
    ensures forall i | 0 <= i < |j.events| :: j.events[i].cursor == |j.history| - |j.events| + i + 1
  {
    var base := |j.history| - |j.events|;
    forall i | 0 <= i < |j.events| ensures j.events[i].cursor == base + i + 1 {
      assert j.events[i] == j.history[base + i];
    }
  }

  lemma SuffixOfSuffix<T>(s: seq<T>, i: nat, j: nat)
    requires i <= j <= |s|
    ensures s[i..][j - i..] == s[j..]
  {
  }

  lemma Offers(j: Journal)
    requires WindowInv(j) && RetainsNewest(j)
    ensures j.next >= 1 && (j.events != [] ==> j.events[0].cursor == Evicted(j) + 1)
    ensures Evicted(j) >= 0 && OldestOffer(j) == Cursor(j.epoch, Evicted(j))
  {
    if j.events != [] { assert j.events[0] == j.history[|j.history| - |j.events|]; }
  }

  /** What a read says, in terms of everything the epoch has seen: a page is exactly the wanted part of the
      history between the two cursors and always moves on; a resync is demanded exactly when the epoch has
      changed or the next event is gone. */
  ghost predicate ReadTells(j: Journal, cursor: Cursor, wanted: Filter, r: ReadResult)
    requires WindowInv(j)
  {
    match r
    case Events(events, next) =>
      && cursor.epoch == j.epoch && next.epoch == j.epoch
      && Evicted(j) <= cursor.sequence <= next.sequence <= |j.history|
      && (cursor.sequence < |j.history| ==> cursor.sequence < next.sequence)
      && events == Wanted(j.history[cursor.sequence..next.sequence], wanted)
    case CursorAhead(newest) =>
      cursor.epoch == j.epoch && cursor.sequence > |j.history| && newest == Cursor(j.epoch, |j.history|)
    case ResyncRequired(oldest, revision) =>
      && (cursor.epoch != j.epoch || cursor.sequence < Evicted(j))
      && Evicted(j) >= 0 && oldest == Cursor(j.epoch, Evicted(j)) && revision == j.revision
    case PageTooSmall =>
      cursor.epoch == j.epoch && Evicted(j) <= cursor.sequence <= |j.history|
  }

  lemma PageProgress(entries: seq<Stored>, wanted: Filter, left: nat, room: int)
    requires left > 0
    ensures var p := FillPage(entries, wanted, left, room, true);
            entries == [] || p.stuck || p.used > 0
  {
  }

  lemma UsedIsHistory(history: seq<Stored>, sequence: nat, used: nat)
    requires sequence + used <= |history|
    ensures history[sequence..][..used] == history[sequence..sequence + used]
  {
  }

  lemma PageTells(j: Journal, sequence: nat, wanted: Filter, left: nat, room: int)
    requires WindowInv(j) && RetainsNewest(j) && Evicted(j) <= sequence <= |j.history| && left > 0
    ensures var entries := Behind(j.events, sequence);
            var p := FillPage(entries, wanted, left, room, true);
            var next := if p.used == 0 || p.used > |entries| then sequence else entries[p.used - 1].cursor;
            && p.used <= |entries|
            && (!p.stuck ==>
                  && sequence <= next <= |j.history| && (sequence < |j.history| ==> sequence < next)
                  && p.events == Wanted(j.history[sequence..next], wanted))
  {
    var entries := Behind(j.events, sequence);
    var p := FillPage(entries, wanted, left, room, true);
    hide FillPage, Behind, Wanted, RetainsNewest;
    BehindIsHistory(j, sequence);
    PageMeaning(entries, wanted, left, room, true);
    PageProgress(entries, wanted, left, room);
    UsedIsHistory(j.history, sequence, p.used);
    if p.used > 0 && p.used <= |entries| {
      assert entries[p.used - 1] == j.history[sequence + p.used - 1];
    }
  }

  lemma ReadMeaning(j: Journal, cursor: Cursor, limit: Limit, wanted: Filter)
    requires WindowInv(j) && RetainsNewest(j)
    ensures j.next >= 1 && (j.events != [] ==> j.events[0].cursor >= 1)
    ensures ReadTells(j, cursor, wanted, Read(j, cursor, limit, wanted))
  {
    Offers(j);
    if cursor.epoch == j.epoch && Evicted(j) <= cursor.sequence <= |j.history| {
      var left := if limit.events < MAX_PAGE_EVENTS then limit.events else MAX_PAGE_EVENTS;
      var room := (if limit.bytes < MAX_PAGE_BYTES then limit.bytes else MAX_PAGE_BYTES) - 2;
      if left > 0 { PageTells(j, cursor.sequence, wanted, left, room); }
    }
    hide FillPage, Behind;
  }

  /** Every cursor the journal offers can be read at once, with any limit that admits the next event. */
  lemma OffersAreReadable(j: Journal, cursor: Cursor, limit: Limit, again: Limit, wanted: Filter)
    requires WindowInv(j) && RetainsNewest(j)
    ensures j.next >= 1 && (j.events != [] ==> j.events[0].cursor >= 1)
    ensures match Read(j, cursor, limit, wanted)
            case ResyncRequired(oldest, _) => var r := Read(j, oldest, again, wanted); r.Events? || r.PageTooSmall?
            case CursorAhead(newest) => var r := Read(j, newest, again, wanted); r.Events? || r.PageTooSmall?
            case _ => true
  {
    ReadMeaning(j, cursor, limit, wanted);
    match Read(j, cursor, limit, wanted)
    case ResyncRequired(oldest, _) => ReadMeaning(j, oldest, again, wanted);
    case CursorAhead(newest) => ReadMeaning(j, newest, again, wanted);
    case _ =>
  }

  // ---------------------------------------------------------------- a consumer over a run

  datatype Op =
    | DoAppend(key: Key, event: ActivityEvent, precommit: bool)
    | DoRotate(epoch: nat, revision: nat)
    | DoRestore(activity: Activity, sequence: nat)
    | DoSubscribe(id: Subscriber, now: nat)
    | DoAcknowledge(id: Subscriber, cursor: Cursor, now: nat)
    | DoExpire(now: nat)
    | DoRead(limit: Limit)

  /** The journal and one consumer: where it stands, where it started in this epoch, what it has received. */
  datatype Watch = Watch(journal: Journal, cursor: Cursor, from: nat, got: seq<ActivityEvent>)

  ghost predicate Sane(c: Codec, j: Journal) {
    JournalInv(c, j) && RetainsNewest(j)
  }

  function Step(c: Codec, wanted: Filter, w: Watch, op: Op): Watch
    requires w.journal.next >= 1 && (w.journal.events != [] ==> w.journal.events[0].cursor >= 1)
  {
    match op
    case DoAppend(key, event, precommit) => w.(journal := Append(c, w.journal, key, event, precommit).0)
    case DoRotate(epoch, revision) => w.(journal := Rotate(w.journal, epoch, revision).0)
    case DoRestore(activity, sequence) => w.(journal := Restore(w.journal, activity, sequence).0)
    case DoSubscribe(id, now) => w.(journal := Subscribe(w.journal, id, now).0)
    case DoAcknowledge(id, cursor, now) => w.(journal := Acknowledge(w.journal, id, cursor, now).0)
    case DoExpire(now) => w.(journal := ExpireIdle(w.journal, now))
    case DoRead(limit) => Take(w, Read(w.journal, w.cursor, limit, wanted))
  }

  /** What the consumer does with an answer: append the page, or start over from the offered cursor. */
  function Take(w: Watch, r: ReadResult): Watch {
    match r
    case Events(events, next) => w.(cursor := next, got := w.got + events)
    case CursorAhead(newest) => w.(cursor := newest, from := newest.sequence, got := [])
    case ResyncRequired(oldest, _) => w.(cursor := oldest, from := oldest.sequence, got := [])
    case PageTooSmall => w
  }

  /** The consumer has received exactly the wanted events between its starting and its present cursor. */
  ghost predicate GapFree(c: Codec, wanted: Filter, w: Watch) {
    && Sane(c, w.journal)
    && w.cursor.epoch <= w.journal.epoch
    && (w.cursor.epoch == w.journal.epoch ==>
          && w.from <= w.cursor.sequence <= |w.journal.history|
          && w.got == Wanted(w.journal.history[w.from..w.cursor.sequence], wanted))
  }

  /** The journal moves on within its epoch or to a later one. */
  ghost predicate MovesOn(j: Journal, j': Journal) {
    j.epoch < j'.epoch || (j'.epoch == j.epoch && j.history <= j'.history)
  }

  lemma AppendMovesOn(c: Codec, j: Journal, key: Key, e: ActivityEvent, precommit: bool)
    requires Sane(c, j)
    ensures var j' := Append(c, j, key, e, precommit).0; Sane(c, j') && MovesOn(j, j')
  {
    hide JournalInv, RetainsNewest, Append, Target, MovesOn;
    AppendMeaning(c, j, key, e, precommit);
    AppendRetains(c, j, key, e, precommit);
    TargetMovesOn(j, e);
    var (j', outcome) := Append(c, j, key, e, precommit);
    if outcome.Appended? { LongerMovesOn(j, Target(j, e), j', Stored(Target(j, e).next, e, c.size(e), key)); }
    StaysOrMoves(j);
  }

  lemma TargetMovesOn(j: Journal, e: ActivityEvent)
    ensures MovesOn(j, Target(j, e))
  {
  }

  lemma LongerMovesOn(j: Journal, t: Journal, j': Journal, x: Stored)
    requires MovesOn(j, t) && j'.epoch == t.epoch && j'.history == t.history + [x]
    ensures MovesOn(j, j')
  {
  }

  lemma StaysOrMoves(j: Journal)
    ensures MovesOn(j, j)
  {
  }

  lemma AppendRetains(c: Codec, j: Journal, key: Key, e: ActivityEvent, precommit: bool)
    requires RetainsNewest(j)
    ensures RetainsNewest(Append(c, j, key, e, precommit).0)
  {
    hide Evict, SequenceCheck, LimitChecks, EventChecks;
  }

  /** The operations that neither append nor read leave events and history alone, or start an epoch. */
  lemma OthersAreQuiet(c: Codec, wanted: Filter, w: Watch, op: Op)
    requires w.journal.next >= 1 && (w.journal.events != [] ==> w.journal.events[0].cursor >= 1)
    requires RetainsNewest(w.journal) && !op.DoRead? && !op.DoAppend?
    ensures var j' := Step(c, wanted, w, op).journal; RetainsNewest(j') && MovesOn(w.journal, j')
  {
  }

  lemma OthersKeep(c: Codec, wanted: Filter, w: Watch, op: Op)
    requires w.journal.next >= 1 && (w.journal.events != [] ==> w.journal.events[0].cursor >= 1)
    requires JournalInv(c, w.journal) && !op.DoRead? && !op.DoAppend?
    ensures JournalInv(c, Step(c, wanted, w, op).journal)
  {
    hide JournalInv, Restore, Rotate, Subscribe, Acknowledge, ExpireIdle;
    match op
    case DoRotate(epoch, revision) => RotateKeeps(c, w.journal, epoch, revision);
    case DoRestore(activity, sequence) => RestoreKeeps(c, w.journal, activity, sequence);
    case DoSubscribe(id, now) => SubscribeKeeps(c, w.journal, id, now);
    case DoAcknowledge(id, cursor, now) => AcknowledgeKeeps(c, w.journal, id, cursor, now);
    case DoExpire(now) => ExpireIdleKeeps(c, w.journal, now);
  }

  lemma StaysGapFree(c: Codec, wanted: Filter, w: Watch, j': Journal)
    requires GapFree(c, wanted, w) && Sane(c, j') && MovesOn(w.journal, j')
    ensures GapFree(c, wanted, w.(journal := j'))
  {
    hide Sane;
    if w.cursor.epoch == j'.epoch {
      assert j'.history[w.from..w.cursor.sequence] == w.journal.history[w.from..w.cursor.sequence];
    }
  }

  lemma TakeStaysGapFree(c: Codec, wanted: Filter, w: Watch, r: ReadResult)
    requires GapFree(c, wanted, w) && WindowInv(w.journal) && ReadTells(w.journal, w.cursor, wanted, r)
    ensures GapFree(c, wanted, Take(w, r))
  {
    hide Sane, WindowInv;
    var h, from, at := w.journal.history, w.from, w.cursor.sequence;
    match r
    case Events(events, next) =>
      WantedConcat(h[from..at], h[at..next.sequence], wanted);
      assert h[from..at] + h[at..next.sequence] == h[from..next.sequence];
    case CursorAhead(newest) =>
    case ResyncRequired(oldest, _) => assert h[oldest.sequence..oldest.sequence] == [];
    case PageTooSmall =>
  }

  lemma StepGapFree(c: Codec, wanted: Filter, w: Watch, op: Op)
    requires GapFree(c, wanted, w)
    ensures w.journal.next >= 1 && (w.journal.events != [] ==> w.journal.events[0].cursor >= 1)
    ensures GapFree(c, wanted, Step(c, wanted, w, op))
  {
    assert Sane(c, w.journal) && JournalInv(c, w.journal) && WindowInv(w.journal) && RetainsNewest(w.journal);
    hide GapFree, JournalInv, WindowInv, RetainsNewest, Append, Read;
    Offers(w.journal);
    if op.DoRead? {
      ReadMeaning(w.journal, w.cursor, op.limit, wanted);
      TakeStaysGapFree(c, wanted, w, Read(w.journal, w.cursor, op.limit, wanted));
    } else {
      if op.DoAppend? { AppendMovesOn(c, w.journal, op.key, op.event, op.precommit); }
      else {
        OthersKeep(c, wanted, w, op);
        OthersAreQuiet(c, wanted, w, op);
      }
      StaysGapFree(c, wanted, w, Step(c, wanted, w, op).journal);
    }
  }

  /** The watch after a run; what it starts from makes every step defined. */
  ghost function Run(c: Codec, wanted: Filter, w: Watch, ops: seq<Op>): Watch
    requires GapFree(c, wanted, w)
    decreases |ops|
  {
    if ops == [] then w
    else
      StepGapFree(c, wanted, w, ops[0]);
      Run(c, wanted, Step(c, wanted, w, ops[0]), ops[1..])
  }

  lemma {:induction false} RunGapFree(c: Codec, wanted: Filter, w: Watch, ops: seq<Op>)
    requires GapFree(c, wanted, w)
    ensures GapFree(c, wanted, Run(c, wanted, w, ops))
    decreases |ops|
  {
    hide GapFree, Step;
    if ops != [] {
      StepGapFree(c, wanted, w, ops[0]);
      RunGapFree(c, wanted, Step(c, wanted, w, ops[0]), ops[1..]);
    }
  }

  /** A consumer that starts anywhere in a fresh journal and resumes from the cursors it is given sees, under
      any interleaving of appends, evictions, rotations and reads, every wanted event since its last resync
      exactly once and in order. */
  lemma ConsumerSeesEverythingOnce(
      c: Codec, wanted: Filter, epoch: nat, revision: nat, maxEvents: nat, maxBytes: nat, ops: seq<Op>)
    ensures var fresh_ := Journal(epoch, revision, 1, [], 0, map[], map[], map[], maxEvents, maxBytes, []);
            var start := Watch(fresh_, Cursor(epoch, 0), 0, []);
            && GapFree(c, wanted, start)
            && (var end := Run(c, wanted, start, ops);
                end.cursor.epoch == end.journal.epoch ==>
                  && end.from <= end.cursor.sequence <= |end.journal.history|
                  && end.got == Wanted(end.journal.history[end.from..end.cursor.sequence], wanted))
  {
    var fresh_ := Journal(epoch, revision, 1, [], 0, map[], map[], map[], maxEvents, maxBytes, []);
    assert fresh_.history[0..0] == [];
    assert Sane(c, fresh_);
    RunGapFree(c, wanted, Watch(fresh_, Cursor(epoch, 0), 0, []), ops);
  }
}
