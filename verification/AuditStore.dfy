/** The audit store over its directory: opening after a crash, appending, deleting and retention. */
module AuditStores {
  import opened Common
  import opened AuditFrames
  import opened AuditDisk
  import opened AuditLog
  import opened AuditRewrites
  import opened AuditRetention

  datatype AuditError =
    | Io
    | InvalidSequence
    | InvalidRecord
    | FrameTooLarge
    | NonMonotonicSequence
    | LimitExceeded
    | CommittedCorruption
    | CursorAhead
    | AuditUnavailable

  datatype DeleteOutcome = Deleted(count: nat) | NotDeleted(error: AuditError)

  datatype Outcome = Done | Failed(error: AuditError)

  /** The front of what is left, in positions of the whole file. */
  lemma FrontAt(c: Codec, b: Bytes, start: nat)
    requires start <= |b|
    ensures FrontOf(c, b[start..])
            == if |b| - start < 4 then Short(|b| != start)
               else
                 var length := FromBigEndian(b[start..start + 4]);
                 if |b| - (start + 4) < length + HASH_BYTES then Short(true)
                 else if length + HASH_BYTES + 4 > MAX_SEGMENT_BYTES then Bad
                 else
                   var payload := b[start + 4..start + 4 + length];
                   if c.sha(payload) != b[start + 4 + length..start + 4 + length + HASH_BYTES] then Bad
                   else
                     match c.decode(payload)
                     case None => Bad
                     case Some(e) => One(e, length + HASH_BYTES + 4)
  {
    var rest := b[start..];
    if |rest| >= 4 {
      var length := FromBigEndian(rest[..4]);
      assert b[start..start + 4] == rest[..4];
      if |rest| >= 4 + length + HASH_BYTES {
        assert b[start + 4..start + 4 + length] == rest[4..4 + length];
        assert b[start + 4 + length..start + 4 + length + HASH_BYTES] == rest[4 + length..4 + length + HASH_BYTES];
      }
    }
  }

  lemma ScanOn(c: Codec, b: Bytes, start: nat, entries: seq<Entry>, mayBeTorn: bool)
    requires start <= |b| && FrontOf(c, b[start..]).One?
    ensures var f := FrontOf(c, b[start..]);
            && start + f.length <= |b|
            && Onto(entries, start, ReadSegment(c, b[start..], mayBeTorn))
               == Onto(entries + [f.entry], start + f.length, ReadSegment(c, b[start + f.length..], mayBeTorn))
  {
    hide FrontOf;
    var f := FrontOf(c, b[start..]);
    assert b[start + f.length..] == b[start..][f.length..];
    var rest := ReadSegment(c, b[start + f.length..], mayBeTorn);
    if rest.Scan? {
      assert entries + ([f.entry] + rest.entries) == entries + [f.entry] + rest.entries;
    }
  }

  /** Reading a segment file from its start; a torn tail, where one is allowed, is left for the caller to cut. */
  method ScanSegment(c: Codec, b: Bytes, mayBeTorn: bool) returns (s: Scan)
    ensures s == ReadSegment(c, b, mayBeTorn)
  {
    hide FrontOf, FromBigEndian;
    var start, entries := 0, [];
    while true
      invariant start <= |b|
      invariant ReadSegment(c, b, mayBeTorn) == Onto(entries, start, ReadSegment(c, b[start..], mayBeTorn))
      decreases |b| - start
    {
      FrontAt(c, b, start);
      if |b| - start < 4 {
        var torn := |b| != start;
        if torn && !mayBeTorn { return Damaged; }
        return Scan(entries, start, torn);
      }
      var length := FromBigEndian(b[start..start + 4]);
      var remaining, required := |b| - (start + 4), length + HASH_BYTES;
      if remaining < required {
        if !mayBeTorn { return Damaged; }
        return Scan(entries, start, true);
      }
      if required + 4 > MAX_SEGMENT_BYTES { return Damaged; }
      var payload, expected := b[start + 4..start + 4 + length], b[start + 4 + length..start + 4 + required];
      if c.sha(payload) != expected { return Damaged; }
      var decoded := c.decode(payload);
      if decoded.None? { return Damaged; }
      ScanOn(c, b, start, entries, mayBeTorn);
      entries := entries + [decoded.value];
      start := start + 4 + required;
    }
  }

  lemma UncutNotTorn(c: Codec, b: Bytes, mayBeTorn: bool)
    requires ReadSegment(c, b, mayBeTorn).Scan? && ReadSegment(c, b, mayBeTorn).torn
    ensures mayBeTorn
  {
    if !mayBeTorn { UncutIsWhole(c, b); }
  }

  /** Once a segment cannot be read, nor can the log. */
  lemma {:induction false} UnreadableAlready(c: Codec, s: map<nat, Bytes>, current: nat, active: seq<nat>, i: nat)
    requires i <= |active|
    ensures Gather(c, s, current, active[..i]).Unreadable? ==> Gather(c, s, current, active).Unreadable?
    decreases |active| - i
  {
    hide ReadSegment;
    if i < |active| {
      assert active[..i + 1][..i] == active[..i];
      UnreadableAlready(c, s, current, active, i + 1);
    } else {
      assert active[..i] == active;
    }
  }

  lemma GatherNone(c: Codec, s: map<nat, Bytes>, current: nat)
    ensures Gather(c, s, current, []) == Log([], false) && Records([]) == [] && Tombstones([]) == []
  {
  }

  /** One more segment, after some that could be read. */
  lemma GatherNext(c: Codec, s: map<nat, Bytes>, current: nat, active: seq<nat>, i: nat)
    requires i < |active| && Gather(c, s, current, active[..i]).Log?
    ensures var front, n := Gather(c, s, current, active[..i]), active[i];
            Gather(c, s, current, active[..i + 1]) ==
              if n !in s || ReadSegment(c, s[n], n == current).Damaged? then Unreadable
              else
                var scan := ReadSegment(c, s[n], n == current);
                Log(front.entries + scan.entries, front.torn || scan.torn)
  {
    hide ReadSegment;
    assert active[..i + 1][..i] == active[..i] && active[..i + 1][i] == active[i];
  }

  lemma CurrentIsActive(i: Index)
    requires IndexOk(i)
    ensures i.current in i.active
  {
  }

  lemma NumberedWhenActive(d: Disk)
    requires IndexOk(d.index) && d.segments.Keys == set n <- d.index.active
    ensures Numbered(d)
  {
    if n :| n in d.segments && n > d.index.current {
      assert n in d.index.active;
    }
  }

  lemma NothingMatches(records: seq<AuditRecord>, p: AuditRecord -> bool)
    ensures Chosen(records, p) == [] <==> forall r <- records :: !p(r)
  {
    ChosenSplits(records, p);
    if forall r <- records :: !p(r) { NoneChosen(records, p); }
    else {
      var r :| r in records && p(r);
      assert r in Chosen(records, p);
    }
  }

  class AuditStore {
    const codec: Codec
    const maxSegmentBytes: nat
    /** The directory, and ghostly every step taken on it. */
    var disk: Disk
    ghost var trace: seq<Op>

    var records: seq<AuditRecord>
    var tombstones: seq<Tombstone>
    var current: nat
    var currentDay: Option<nat>
    var activeSegments: seq<nat>
    var available: bool
    var recovered: bool

    constructor (codec: Codec, maxSegmentBytes: nat, disk: Disk)
      ensures this.codec == codec && this.maxSegmentBytes == maxSegmentBytes && this.disk == disk
      ensures !available
    {
      this.codec := codec;
      this.maxSegmentBytes := maxSegmentBytes;
      this.disk := disk;
      trace := [];
      records, tombstones := [], [];
      current, currentDay, activeSegments := 0, None, [];
      available, recovered := false, false;
    }

    ghost function Stored(): Contents
      reads this
    {
      Contents(records, tombstones)
    }

    /** Memory and directory agree. */
    ghost predicate Valid()
      reads this
    {
      && Lawful(codec) && 0 < maxSegmentBytes <= MAX_SEGMENT_BYTES
      && disk.index == Index(current, activeSegments)
      && AtRest(codec, disk, Stored())
      && current in disk.segments && Numbered(disk)
    }

    // -------------------------------------------------------------- steps on the directory

    method CreateSegment(n: nat) returns (created: bool)
      modifies this`disk, this`trace
      ensures created <==> n !in old(disk.segments)
      ensures !created ==> disk == old(disk) && trace == old(trace)
      ensures created ==> disk == Do(old(disk), Create(n)) && trace == old(trace) + [Create(n)]
    {
      if n in disk.segments { return false; }
      disk := Do(disk, Create(n));
      trace := trace + [Create(n)];
      return true;
    }

    method AppendFrame(n: nat, payload: Bytes)
      requires n in disk.segments && FrameLength(payload) <= MAX_SEGMENT_BYTES
      modifies this`disk, this`trace
      ensures disk == Do(old(disk), Extend(n, Frame(codec, payload)))
      ensures trace == old(trace) + [Extend(n, Frame(codec, payload))]
    {
      disk := disk.(segments := disk.segments[n := disk.segments[n] + BigEndian(|payload|)]);
      disk := disk.(segments := disk.segments[n := disk.segments[n] + payload]);
      disk := disk.(segments := disk.segments[n := disk.segments[n] + codec.sha(payload)]);
      ghost var whole := old(disk).segments[n] + Frame(codec, payload);
      assert old(disk).segments[n] + BigEndian(|payload|) + payload + codec.sha(payload) == whole;
      trace := trace + [Extend(n, Frame(codec, payload))];
    }

    method WriteIndex()
      modifies this`disk, this`trace
      ensures disk == Do(old(disk), Swap(Index(current, activeSegments)))
      ensures trace == old(trace) + [Swap(Index(current, activeSegments))]
    {
      disk := Do(disk, Swap(Index(current, activeSegments)));
      trace := trace + [Swap(Index(current, activeSegments))];
    }

    method RemoveFile(n: nat)
      modifies this`disk, this`trace
      ensures disk == Do(old(disk), Remove(n)) && trace == old(trace) + [Remove(n)]
    {
      disk := Do(disk, Remove(n));
      trace := trace + [Remove(n)];
    }

    method SetLength(n: nat, length: nat)
      modifies this`disk, this`trace
      ensures disk == Do(old(disk), Truncate(n, length)) && trace == old(trace) + [Truncate(n, length)]
    {
      disk := Do(disk, Truncate(n, length));
      trace := trace + [Truncate(n, length)];
    }

    // -------------------------------------------------------------- rotation

    /** Seals the current segment. Fails, with nothing changed, exactly when its successor already exists. */
    method Rotate() returns (rotated: bool)
      requires Valid()
      modifies this
      ensures Valid() && Stored() == old(Stored()) && available == old(available) && recovered == old(recovered)
      ensures rotated <==> old(current) + 1 !in old(disk.segments)
      ensures rotated <==> forall n <- old(disk.segments) :: n <= old(current)
      ensures !rotated ==> disk == old(disk) && trace == old(trace) && currentDay == old(currentDay)
      ensures rotated ==>
        && disk == DoAll(old(disk), RotateOps(old(disk.index)))
        && disk == Disk(old(disk.segments)[old(current) + 1 := []], Rotated(old(disk.index)))
        && trace == old(trace) + RotateOps(old(disk.index))
        && CrashSafe(codec, old(disk), RotateOps(old(disk.index)), {Loaded(old(Stored()), false)})
        && currentDay == None
    {
      hide AtRest, CrashSafe;
      CurrentExists(codec, disk, Stored());
      var next := current + 1;
      rotated := CreateSegment(next);
      if rotated {
        RotateSafe(codec, old(disk), Stored());
        current := next;
        currentDay := None;
        activeSegments := activeSegments + [next];
        WriteIndex();
        assert trace == old(trace) + RotateOps(old(disk.index));
      }
    }

    // -------------------------------------------------------------- appending

    /** The record does not fit the current segment, or belongs to another day. */
    predicate MustRotate(r: AuditRecord)
      requires current in disk.segments
      reads this
    {
      || |disk.segments[current]| + FrameLength(codec.encode(Record(r))) > maxSegmentBytes
      || (currentDay.Some? && currentDay.value != r.occurredAt / DAY_MS)
    }

    /** Where an appended record went. Its segment is not larger than the limit, and starts with it only where the
        one before had no room for it or was of another day. */
    ghost predicate Placed(before: Disk, former: nat, day: Option<nat>, r: AuditRecord)
      requires former in before.segments
      reads this
    {
      var length := 4 + |codec.encode(Record(r))| + 32;
      && current in disk.segments && |disk.segments[current]| <= maxSegmentBytes
      && if |before.segments[former]| + length <= maxSegmentBytes && (day == None || day == Some(r.occurredAt / DAY_MS))
         then current == former && |disk.segments[current]| == |before.segments[former]| + length
         else current == former + 1 && |disk.segments[current]| == length
    }

    /** The frame goes onto the current segment, which has room for it, and the index is written again. */
    method AppendFrameAndIndex(record: AuditRecord, payload: Bytes) returns (ghost ops: seq<Op>)
      requires Valid() && Follows(Stored(), record)
      requires payload == codec.encode(Record(record)) && FrameLength(payload) <= maxSegmentBytes
      modifies this`disk, this`trace, this`records, this`currentDay
      ensures Valid() && ops == AppendOps(codec, old(disk.index), Record(record))
      ensures trace == old(trace) + ops && disk == DoAll(old(disk), ops)
      ensures CrashSafe(codec, old(disk), ops, AppendOutcomes(old(Stored()), record))
      ensures SilentUntilBegun(codec, old(disk), ops, old(Stored()))
      ensures Stored() == Added(old(Stored()), record) && currentDay == Some(record.occurredAt / DAY_MS)
      ensures disk.segments.Keys == old(disk.segments.Keys)
      ensures |disk.segments[current]| == |old(disk.segments)[current]| + FrameLength(payload)
    {
      hide AtRest, CrashSafe, SilentUntilBegun, AppendOutcomes, DoAll;
      CurrentExists(codec, disk, Stored());
      AppendSafe(codec, disk, Stored(), record);
      AppendSilent(codec, disk, Stored(), record);
      AppendFrame(current, payload);
      currentDay := Some(record.occurredAt / DAY_MS);
      records := records + [record];
      WriteIndex();
      ops := AppendOps(codec, old(disk.index), Record(record));
    }

    /** Rotation first where it is due; the record is not added where that fails. */
    method AppendInner(record: AuditRecord, payload: Bytes) returns (appended: bool, ghost ops: seq<Op>)
      requires Valid() && Follows(Stored(), record)
      requires payload == codec.encode(Record(record)) && FrameLength(payload) <= maxSegmentBytes
      modifies this
      ensures Valid() && recovered == old(recovered) && available == old(available)
      ensures trace == old(trace) + ops && disk == DoAll(old(disk), ops)
      ensures CrashSafe(codec, old(disk), ops, AppendOutcomes(old(Stored()), record))
      ensures SilentUntilBegun(codec, old(disk), ops, old(Stored()))
      ensures appended <==> !(old(MustRotate(record)) && old(current) + 1 in old(disk.segments))
      ensures appended ==>
        Stored() == Added(old(Stored()), record) && currentDay == Some(record.occurredAt / DAY_MS)
      ensures appended ==> Placed(old(disk), old(current), old(currentDay), record)
      ensures !appended ==> Stored() == old(Stored()) && disk == old(disk) && ops == []
      ensures old(current) + 1 in old(disk.segments) ==> current == old(current) && current + 1 in disk.segments
    {
      hide AtRest, CrashSafe, SilentUntilBegun, DoAll, Follows, Numbered, AppendOps, RotateOps;
      NothingSafe(codec, disk, Stored(), AppendOutcomes(Stored(), record));
      NothingSilent(codec, disk, Stored());
      if |disk.segments[current]| + FrameLength(payload) > maxSegmentBytes
         || (currentDay.Some? && currentDay.value != record.occurredAt / DAY_MS)
      {
        var rotated := Rotate();
        if !rotated { return false, []; }
        RotateAppendSafe(codec, old(disk), old(Stored()), record);
        RotateAppendSilent(codec, old(disk), old(Stored()), record);
        ghost var more := AppendFrameAndIndex(record, payload);
        return true, RotateOps(old(disk.index)) + more;
      }
      ops := AppendFrameAndIndex(record, payload);
      appended := true;
    }

    /** A record is added whole or not at all. The one failure beyond the record itself is a rotation that
        cannot create its segment, and it makes the store unavailable. */
    method Append(record: AuditRecord, valid: bool) returns (outcome: Outcome, ghost ops: seq<Op>)
      requires Valid()
      modifies this
      ensures Valid() && recovered == old(recovered)
      ensures trace == old(trace) + ops && disk == DoAll(old(disk), ops)
      ensures CrashSafe(codec, old(disk), ops, AppendOutcomes(old(Stored()), record))
      ensures SilentUntilBegun(codec, old(disk), ops, old(Stored()))
      ensures outcome ==
        if !old(available) then Failed(AuditUnavailable)
        else if !Follows(old(Stored()), record) then Failed(InvalidSequence)
        else if !valid then Failed(InvalidRecord)
        else if FrameLength(codec.encode(Record(record))) > maxSegmentBytes then Failed(FrameTooLarge)
        else if old(MustRotate(record)) && old(current) + 1 in old(disk.segments) then Failed(Io)
        else Done
      ensures outcome.Done? ==>
        Stored() == Added(old(Stored()), record) && currentDay == Some(record.occurredAt / DAY_MS)
      ensures outcome.Failed? ==> Stored() == old(Stored()) && disk == old(disk) && ops == []
      ensures outcome.Done? ==> Placed(old(disk), old(current), old(currentDay), record)
      ensures old(current) + 1 in old(disk.segments) ==> current == old(current) && current + 1 in disk.segments
      ensures available <==> old(available) && outcome != Failed(Io)
    {
      hide AtRest, CrashSafe, SilentUntilBegun, Numbered;
      NothingSafe(codec, disk, Stored(), AppendOutcomes(Stored(), record));
      NothingSilent(codec, disk, Stored());
      if !available { return Failed(AuditUnavailable), []; }
      if records != [] && record.sequence <= records[|records| - 1].sequence { return Failed(InvalidSequence), []; }
      if !valid { return Failed(InvalidRecord), []; }
      var payload := codec.encode(Record(record));
      if FrameLength(payload) > maxSegmentBytes { return Failed(FrameTooLarge), []; }
      var appended;
      appended, ops := AppendInner(record, payload);
      if !appended {
        available := false;
        return Failed(Io), ops;
      }
      outcome := Done;
    }

    // -------------------------------------------------------------- opening

    /** Reads the active segments in order into memory; where the current one ends in a torn tail, cuts it off. */
    method ReadActive() returns (readable: bool, ghost ops: seq<Op>)
      requires IndexOk(disk.index) && disk.index == Index(current, activeSegments)
      modifies this`disk, this`trace, this`records, this`tombstones, this`recovered
      ensures var log := Gather(codec, old(disk.segments), current, activeSegments);
              && (readable <==> log.Log?)
              && (readable ==>
                    && records == Records(log.entries) && tombstones == Tombstones(log.entries)
                    && recovered == log.torn
                    && ops == if recovered then MendOps(codec, old(disk)) else [])
      ensures !readable ==> ops == []
      ensures trace == old(trace) + ops && disk == DoAll(old(disk), ops)
    {
      hide ReadSegment, Gather, Records, Tombstones;
      records, tombstones, recovered := [], [], false;
      GatherNone(codec, disk.segments, current);
      ops := [];
      ghost var entries := [];
      for i := 0 to |activeSegments|
        invariant activeSegments == old(activeSegments) && current == old(current)
        invariant Gather(codec, old(disk.segments), current, activeSegments[..i]) == Log(entries, recovered)
        invariant records == Records(entries) && tombstones == Tombstones(entries)
        invariant trace == old(trace) + ops && disk == DoAll(old(disk), ops)
        invariant if recovered then i == |activeSegments| && ops == MendOps(codec, old(disk)) else ops == []
      {
        var number := activeSegments[i];
        GatherNext(codec, old(disk.segments), current, activeSegments, i);
        UnreadableAlready(codec, old(disk.segments), current, activeSegments, i + 1);
        if number !in disk.segments { return false, []; }
        var scan := ScanSegment(codec, disk.segments[number], number == current);
        if scan.Damaged? { return false, []; }
        var found := scan.entries;
        RecordsJoin(entries, found);
        TombstonesJoin(entries, found);
        records, tombstones := records + Records(found), tombstones + Tombstones(found);
        entries := entries + found;
        if scan.torn {
          UncutNotTorn(codec, disk.segments[number], number == current);
          assert i == |activeSegments| - 1;
          SetLength(number, scan.kept);
          recovered := true;
          ops := [Truncate(number, scan.kept)];
          assert ops[..0] == [];
        }
      }
      assert activeSegments[..|activeSegments|] == activeSegments;
      readable := true;
    }

    /** Removes every segment file that the index does not name. */
    method RemoveStrays() returns (ghost ops: seq<Op>)
      requires activeSegments == disk.index.active
      modifies this`disk, this`trace
      ensures forall op <- ops :: op.Remove? && Elsewhere(op, activeSegments)
      ensures trace == old(trace) + ops && disk == DoAll(old(disk), ops)
      ensures disk.segments.Keys == set n | n in old(disk.segments) && n in activeSegments
      ensures disk.index == old(disk.index)
      ensures forall n <- disk.segments :: disk.segments[n] == old(disk.segments[n])
    {
      ops := [];
      var discovered := disk.segments.Keys;
      while discovered != {}
        invariant discovered <= disk.segments.Keys <= old(disk.segments.Keys)
        invariant forall n <- disk.segments.Keys - discovered :: n in activeSegments
        invariant forall n <- old(disk.segments.Keys) - disk.segments.Keys :: n !in activeSegments
        invariant forall op <- ops :: op.Remove? && Elsewhere(op, activeSegments)
        invariant disk.index == old(disk.index)
        invariant forall n <- disk.segments :: disk.segments[n] == old(disk.segments[n])
        invariant trace == old(trace) + ops && disk == DoAll(old(disk), ops)
        decreases |discovered|
      {
        var n :| n in discovered;
        discovered := discovered - {n};
        if n !in activeSegments {
          DoSnoc(old(disk), ops, Remove(n));
          RemoveFile(n);
          ops := ops + [Remove(n)];
        }
      }
    }

    /** The log has been read and mended; `was` is the directory it was found in. */
    method Settle(ghost was: Disk) returns (ghost ops: seq<Op>)
      requires Lawful(codec) && 0 < maxSegmentBytes <= MAX_SEGMENT_BYTES && IndexOk(was.index)
      requires was.index == Index(current, activeSegments) && disk == DoAll(was, MendOps(codec, was))
      requires Load(codec, was) == Loaded(Stored(), recovered)
      modifies this`disk, this`trace, this`available, this`currentDay
      ensures Valid() && available
      ensures currentDay == (if records == [] then None else Some(records[|records| - 1].occurredAt / DAY_MS))
      ensures trace == old(trace) + ops && disk == DoAll(was, MendOps(codec, was) + ops)
      ensures CrashSafe(codec, was, MendOps(codec, was) + ops, {Loaded(Stored(), recovered), Loaded(Stored(), false)})
      ensures recovered ==>
        var first := MendOps(codec, was) + ops;
        NoFrames(first) && TearForgotten(codec, was, first, Stored())
      ensures disk.segments.Keys == (set n <- activeSegments) && disk.segments[current] == Mended(codec, was)
    {
      hide AtRest, CrashSafe, TearForgotten, NoFrames, IndexOk, MendOps, Elsewhere, DoAll, Load, Mended, Numbered;
      MendedSegments(codec, was);
      CurrentIsActive(was.index);
      ghost var removals := RemoveStrays();
      available := true;
      currentDay := if records == [] then None else Some(records[|records| - 1].occurredAt / DAY_MS);
      ghost var cleared := disk;
      WriteIndex();
      OpenSafe(codec, was, Stored(), recovered, removals);
      if recovered { OpenForgets(codec, was, Stored(), removals); }
      assert disk == cleared;
      NumberedWhenActive(disk);
      ops := removals + [Swap(disk.index)];
      assert MendOps(codec, was) + ops == MendOps(codec, was) + removals + [Swap(disk.index)];
    }

    /** Everything of opening except reporting a torn tail. */
    method Recover() returns (outcome: Outcome, ghost ops: seq<Op>)
      requires Lawful(codec) && 0 < maxSegmentBytes <= MAX_SEGMENT_BYTES && IndexOk(disk.index)
      modifies this
      ensures trace == old(trace) + ops && disk == DoAll(old(disk), ops)
      ensures Load(codec, old(disk)).Refused? ==>
        outcome == Failed(CommittedCorruption) || outcome == Failed(NonMonotonicSequence)
      ensures Load(codec, old(disk)).Loaded? ==>
        var contents, torn := Load(codec, old(disk)).contents, Load(codec, old(disk)).torn;
        && outcome == Done && Valid() && available && recovered == torn && Stored() == contents
        && currentDay == (if records == [] then None else Some(records[|records| - 1].occurredAt / DAY_MS))
        && CrashSafe(codec, old(disk), ops, {Loaded(contents, torn), Loaded(contents, false)})
        && (torn ==> NoFrames(ops) && TearForgotten(codec, old(disk), ops, contents))
        && disk.index == old(disk.index)
        && disk.segments.Keys == (set n <- disk.index.active)
        && disk.segments[current] == Mended(codec, old(disk))
    {
      hide AtRest, CrashSafe, TearForgotten, NoFrames, IndexOk, MendOps, Elsewhere, DoAll, Gather;
      current, activeSegments := disk.index.current, disk.index.active;
      var readable;
      readable, ops := ReadActive();
      if !readable { return Failed(CommittedCorruption), ops; }
      if !Increasing(records) { return Failed(NonMonotonicSequence), ops; }
      ghost var contents := Stored();
      assert Load(codec, old(disk)) == Loaded(contents, recovered);
      ghost var mends := ops;
      assert mends == MendOps(codec, old(disk)) by {
        MendSafe(codec, old(disk), contents, recovered);
      }
      ghost var rest := Settle(old(disk));
      ops := mends + rest;
      outcome := Done;
    }

    /** Whether the report of a torn tail can be appended once the directory is mended. */
    ghost function NoticeOutcome(d: Disk, contents: Contents, notice: AuditRecord, valid: bool): Outcome {
      var length := FrameLength(codec.encode(Record(notice)));
      if !Follows(contents, notice) then Failed(InvalidSequence)
      else if !valid then Failed(InvalidRecord)
      else if length > maxSegmentBytes then Failed(FrameTooLarge)
      else if |Mended(codec, d)| + length > maxSegmentBytes && d.index.current + 1 in d.index.active then Failed(Io)
      else Done
    }

    /** One more record reports the torn tail that `first` mended. */
    method ReportTear(notice: AuditRecord, valid: bool, ghost was: Disk, ghost first: seq<Op>)
        returns (outcome: Outcome, ghost ops: seq<Op>)
      requires Valid() && available && disk == DoAll(was, first)
      requires currentDay.Some? ==> currentDay.value == notice.occurredAt / DAY_MS
      requires CrashSafe(codec, was, first, {Loaded(Stored(), true), Loaded(Stored(), false)})
      requires NoFrames(first) && TearForgotten(codec, was, first, Stored())
      modifies this
      ensures Valid() && recovered == old(recovered) && (outcome.Done? ==> available)
      ensures trace == old(trace) + ops && disk == DoAll(was, first + ops)
      ensures CrashSafe(codec, was, first + ops, {Loaded(old(Stored()), true)} + AppendOutcomes(old(Stored()), notice))
      ensures TearForgotten(codec, was, first + ops, old(Stored()))
      ensures Stored() == if outcome.Done? then Added(old(Stored()), notice) else old(Stored())
      ensures var length := FrameLength(codec.encode(Record(notice)));
        outcome ==
          if !Follows(old(Stored()), notice) then Failed(InvalidSequence)
          else if !valid then Failed(InvalidRecord)
          else if length > maxSegmentBytes then Failed(FrameTooLarge)
          else if |old(disk.segments[current])| + length > maxSegmentBytes && old(current) + 1 in old(disk.segments)
               then Failed(Io)
          else Done
    {
      hide CrashSafe, TearForgotten, SilentUntilBegun, NoFrames, DoAll, AtRest, Numbered, Follows;
      ghost var outcomes := {Loaded(Stored(), true)} + AppendOutcomes(Stored(), notice);
      ghost var mended := disk;
      CrashSafeWiden(codec, was, first, {Loaded(Stored(), true), Loaded(Stored(), false)}, outcomes);
      outcome, ops := Append(notice, valid);
      CrashSafeWiden(codec, mended, ops, AppendOutcomes(old(Stored()), notice), outcomes);
      CrashSafeJoin(codec, was, first, ops, outcomes);
      ForgottenUntilReported(codec, was, first, ops, old(Stored()));
    }

    /** Opening a directory. A torn tail, and nothing else, is cut off and reported by one more record; where
        that record cannot be appended the store does not open, but what was read stays as it was. A crash
        meanwhile loses the report exactly between the truncation and the report's first byte. */
    method Open(recovery: Name, valid: bool) returns (outcome: Outcome, ghost ops: seq<Op>)
      requires Lawful(codec) && IndexOk(disk.index)
      modifies this
      ensures trace == old(trace) + ops && disk == DoAll(old(disk), ops)
      ensures outcome.Done? ==> Valid() && available
      ensures !(0 < maxSegmentBytes <= MAX_SEGMENT_BYTES) ==> outcome == Failed(LimitExceeded) && ops == []
      ensures 0 < maxSegmentBytes <= MAX_SEGMENT_BYTES && Load(codec, old(disk)).Refused? ==>
        outcome == Failed(CommittedCorruption) || outcome == Failed(NonMonotonicSequence)
      ensures 0 < maxSegmentBytes <= MAX_SEGMENT_BYTES && Load(codec, old(disk)).Loaded? ==>
        var contents, torn := Load(codec, old(disk)).contents, Load(codec, old(disk)).torn;
        var notice := Notice(contents, recovery);
        && recovered == torn
        && outcome == (if torn then NoticeOutcome(old(disk), contents, notice, valid) else Done)
        && Load(codec, disk) == Loaded(if torn && outcome.Done? then Added(contents, notice) else contents, false)
        && CrashSafe(codec, old(disk), ops, {Loaded(contents, torn)} + AppendOutcomes(contents, notice))
        && (torn ==> TearForgotten(codec, old(disk), ops, contents))
      ensures outcome.Done? ==> Load(codec, disk) == Loaded(Stored(), false)
    {
      hide CrashSafe, TearForgotten, NoFrames, IndexOk, MendOps, Elsewhere, Load, Mended, Numbered, Follows;
      if !(0 < maxSegmentBytes <= MAX_SEGMENT_BYTES) {
        return Failed(LimitExceeded), [];
      }
      outcome, ops := Recover();
      if outcome.Failed? { return; }
      ghost var contents := Stored();
      var last := if records == [] then 0 else records[|records| - 1].occurredAt;
      var notice := AuditRecord((MaxSequence(records) + 1) % (U64_MAX + 1), last, recovery);
      if recovered {
        ghost var more;
        outcome, more := ReportTear(notice, valid, old(disk), ops);
        ops := ops + more;
      } else {
        CrashSafeWiden(codec, old(disk), ops, {Loaded(contents, false), Loaded(contents, false)},
                       {Loaded(contents, false)} + AppendOutcomes(contents, notice));
      }
    }

    // -------------------------------------------------------------- deletion

    /** One more entry, in the last new segment if it has room and in a further one if not. */
    method CopyEntry(e: Entry, active: seq<nat>, ghost d: Disk, ghost copy: seq<Op>, ghost entries: seq<Entry>)
        returns (newActive: seq<nat>, ghost newCopy: seq<Op>)
      requires Lawful(codec) && maxSegmentBytes <= MAX_SEGMENT_BYTES
      requires FrameLength(codec.encode(e)) <= maxSegmentBytes
      requires active != [] && Copying(codec, d, copy, active, entries, active[|active| - 1] + 1)
      requires Fresh(d, disk, active, maxSegmentBytes) && disk == DoAll(d, copy)
      requires d.segments.Keys <= disk.segments.Keys && forall n <- d.index.active :: n in d.segments
      modifies this`disk, this`trace
      ensures newActive != [] && Copying(codec, d, newCopy, newActive, entries + [e], newActive[|newActive| - 1] + 1)
      ensures Fresh(d, disk, newActive, maxSegmentBytes) && disk == DoAll(d, newCopy)
      ensures old(disk.segments.Keys) <= disk.segments.Keys
      ensures exists more :: newCopy == copy + more && trace == old(trace) + more
    {
      hide Copying, DoAll, Frame, FrameLength;
      var nextNumber, payload := active[|active| - 1], codec.encode(e);
      newActive, newCopy := active, copy;
      FrameSize(codec, e);
      if |disk.segments[nextNumber]| + FrameLength(payload) > maxSegmentBytes {
        nextNumber := nextNumber + 1;
        CopyCreate(codec, d, copy, active, entries, nextNumber);
        FreshCreate(d, disk, active, maxSegmentBytes, nextNumber);
        var created := CreateSegment(nextNumber);
        newActive, newCopy := active + [nextNumber], copy + [Create(nextNumber)];
      }
      CopyExtend(codec, d, newCopy, newActive, entries, nextNumber + 1, e);
      FreshExtend(d, disk, newActive, maxSegmentBytes, nextNumber, EntryFrame(codec, e));
      AppendFrame(nextNumber, payload);
      newCopy := newCopy + [Extend(nextNumber, EntryFrame(codec, e))];
      assert newCopy == copy + newCopy[|copy|..];
    }

    /** Copies `entries` into new segments beside the old ones, starting another one where the last is full. */
    method CopyEntries(entries: seq<Entry>, ghost contents: Contents)
        returns (copied: bool, newActive: seq<nat>, ghost copy: seq<Op>)
      requires Lawful(codec) && 0 < maxSegmentBytes <= MAX_SEGMENT_BYTES
      requires AtRest(codec, disk, contents)
      modifies this`disk, this`trace
      ensures trace == old(trace) + copy && disk == DoAll(old(disk), copy)
      ensures old(disk.segments.Keys) <= disk.segments.Keys
      ensures NextNumber(old(disk.segments.Keys)) in disk.segments
      ensures copied <==> forall e <- entries :: FrameLength(codec.encode(e)) <= maxSegmentBytes
      ensures newActive != [] && Fresh(old(disk), disk, newActive, maxSegmentBytes)
      ensures copied ==>
        Copying(codec, old(disk), copy, newActive, entries, newActive[|newActive| - 1] + 1)
      ensures AtRest(codec, disk, contents) && CrashSafe(codec, old(disk), copy, {Loaded(contents, false)})
      ensures disk.index == old(disk.index)
    {
      hide AtRest, CrashSafe, Copying, CopyingAside, DoAll, Fresh, EntryFrame;
      ghost var d := disk;
      CurrentExists(codec, d, contents);
      var nextNumber := NextNumber(disk.segments.Keys);
      CopyStart(codec, d, contents, nextNumber);
      CopyCreate(codec, d, [], [], [], nextNumber);
      FreshCreate(d, d, [], maxSegmentBytes, nextNumber);
      var created := CreateSegment(nextNumber);
      newActive, copy := [nextNumber], [Create(nextNumber)];
      assert [] + newActive == newActive && [] + copy == copy;
      var i := 0;
      while i < |entries|
        invariant i <= |entries|
        invariant newActive != []
        invariant Copying(codec, d, copy, newActive, entries[..i], newActive[|newActive| - 1] + 1)
        invariant Fresh(d, disk, newActive, maxSegmentBytes)
        invariant trace == old(trace) + copy && disk == DoAll(d, copy)
        invariant d.segments.Keys <= disk.segments.Keys && NextNumber(d.segments.Keys) in disk.segments
        invariant forall e <- entries[..i] :: FrameLength(codec.encode(e)) <= maxSegmentBytes
      {
        var payload := codec.encode(entries[i]);
        var length := FrameLength(payload);
        if length > maxSegmentBytes {
          CopyIsAside(codec, d, copy, newActive, entries[..i], newActive[|newActive| - 1] + 1);
          CopyAbandoned(codec, d, contents, copy, newActive[|newActive| - 1] + 1);
          return false, newActive, copy;
        }
        newActive, copy := CopyEntry(entries[i], newActive, d, copy, entries[..i]);
        assert entries[..i + 1] == entries[..i] + [entries[i]];
        i := i + 1;
      }
      assert entries[..i] == entries;
      CopyIsAside(codec, d, copy, newActive, entries, newActive[|newActive| - 1] + 1);
      CopyAbandoned(codec, d, contents, copy, newActive[|newActive| - 1] + 1);
      copied := true;
    }

    /** Removes the files of the segments in `numbers` that are still there. */
    method RemoveAll(numbers: seq<nat>) returns (ghost ops: seq<Op>)
      modifies this`disk, this`trace
      ensures forall op <- ops :: op.Remove? && op.number in numbers
      ensures trace == old(trace) + ops && disk == DoAll(old(disk), ops)
      ensures disk.segments.Keys == old(disk.segments.Keys) - set n <- numbers
      ensures disk.index == old(disk.index)
      ensures forall n <- disk.segments :: disk.segments[n] == old(disk.segments)[n]
    {
      ops := [];
      for i := 0 to |numbers|
        invariant forall op <- ops :: op.Remove? && op.number in numbers
        invariant trace == old(trace) + ops && disk == DoAll(old(disk), ops)
        invariant disk.segments.Keys == old(disk.segments.Keys) - set n <- numbers[..i]
        invariant disk.index == old(disk.index)
        invariant forall n <- disk.segments :: disk.segments[n] == old(disk.segments)[n]
      {
        assert numbers[..i + 1] == numbers[..i] + [numbers[i]];
        if numbers[i] in disk.segments {
          DoSnoc(old(disk), ops, Remove(numbers[i]));
          RemoveFile(numbers[i]);
          ops := ops + [Remove(numbers[i])];
        }
      }
      assert numbers[..|numbers|] == numbers;
    }

    /** The new segments are complete: the index is swapped over to them and the old ones are removed. */
    method SwapOver(retained: seq<AuditRecord>, newActive: seq<nat>, now: nat, ghost d: Disk, ghost copy: seq<Op>)
        returns (ghost ops: seq<Op>)
      requires Lawful(codec) && 0 < maxSegmentBytes <= MAX_SEGMENT_BYTES
      requires AtRest(codec, d, Stored()) && d.index == Index(current, activeSegments) && disk == DoAll(d, copy)
      requires newActive != [] && Increasing(retained)
      requires Copying(codec, d, copy, newActive, Rewritten(retained, tombstones), newActive[|newActive| - 1] + 1)
      requires Fresh(d, disk, newActive, maxSegmentBytes)
      modifies this
      ensures Valid() && available == old(available) && recovered == old(recovered)
      ensures trace == old(trace) + ops && disk == DoAll(d, copy + ops)
      ensures var after := Contents(retained, old(tombstones));
              && Stored() == after && currentDay == Some(now / DAY_MS)
              && CrashSafe(codec, d, copy + ops, {Loaded(old(Stored()), false), Loaded(after, false)})
      ensures activeSegments == newActive && forall n <- disk.segments :: n <= current
      ensures disk.segments.Keys == old(disk.segments.Keys) - set n <- old(activeSegments)
      ensures forall n <- disk.segments :: n in old(disk.segments) && disk.segments[n] == old(disk.segments)[n]
    {
      hide AtRest, CrashSafe, DoAll, Copying, IndexOk, Rewritten, Increasing;
      var previousActive := activeSegments;
      CurrentExists(codec, d, Stored());
      ghost var before := Stored();
      records := retained;
      current := newActive[|newActive| - 1];
      currentDay := Some(now / DAY_MS);
      activeSegments := newActive;
      WriteIndex();
      ghost var removals := RemoveAll(previousActive);
      ReplacementDone(codec, d, before, copy, newActive, maxSegmentBytes, retained, tombstones, removals);
      ops := [Swap(Index(current, newActive))] + removals;
    }

    /** Replaces the log by `retained` and the tombstones, or leaves it alone if an entry is too large. */
    method Rewrite(retained: seq<AuditRecord>, now: nat) returns (written: bool, ghost ops: seq<Op>)
      requires Valid() && Increasing(retained)
      modifies this
      ensures Valid() && available == old(available) && recovered == old(recovered)
      ensures written <==>
        forall e <- Rewritten(retained, old(tombstones)) :: FrameLength(codec.encode(e)) <= maxSegmentBytes
      ensures trace == old(trace) + ops && disk == DoAll(old(disk), ops)
      ensures CrashSafe(codec, old(disk), ops,
                        {Loaded(old(Stored()), false), Loaded(Contents(retained, old(tombstones)), false)})
      ensures written ==> Stored() == Contents(retained, old(tombstones)) && currentDay == Some(now / DAY_MS)
      ensures written ==> forall n <- disk.segments :: n <= current
      ensures written ==> Fresh(old(disk), disk, activeSegments, maxSegmentBytes)
      ensures !written ==> Stored() == old(Stored()) && disk.index == old(disk.index) && currentDay == old(currentDay)
    {
      hide AtRest, CrashSafe, DoAll, Copying, Fresh, Numbered, Rewritten, Increasing;
      CurrentExists(codec, disk, Stored());
      ghost var outcomes := {Loaded(Stored(), false), Loaded(Contents(retained, tombstones), false)};
      var newActive;
      ghost var copy, more;
      written, newActive, copy := CopyEntries(Rewritten(retained, tombstones), Stored());
      if written {
        ghost var copied := disk;
        more := SwapOver(retained, newActive, now, old(disk), copy);
        FreshAfterRemoval(old(disk), copied, disk, newActive, maxSegmentBytes, old(activeSegments));
        ops := copy + more;
      } else {
        StillNumbered(old(disk), disk);
        CrashSafeWiden(codec, old(disk), copy, {Loaded(Stored(), false)}, outcomes);
        ops := copy;
      }
    }

    /** What `Delete` answers. */
    ghost function DeleteOutcomeOf(matches: AuditRecord -> bool, now: nat, body: Name): DeleteOutcome
      reads this
    {
      var after := AfterDeletion(Stored(), matches, now, body);
      var entries := Rewritten(after.records, after.tombstones);
      if !available then NotDeleted(AuditUnavailable)
      else if Chosen(records, matches) == [] then Deleted(0)
      else if records[|records| - 1].sequence == U64_MAX then NotDeleted(InvalidSequence)
      else if exists e <- entries :: FrameLength(codec.encode(e)) > maxSegmentBytes then NotDeleted(FrameTooLarge)
      else Deleted(|Chosen(records, matches)|)
    }

    /** Deletes the matching records by writing the rest, and a record of the deletion, beside the old log. */
    method Delete(matches: AuditRecord -> bool, now: nat, body: Name)
        returns (outcome: DeleteOutcome, ghost ops: seq<Op>)
      requires Valid()
      modifies this
      ensures Valid() && available == old(available) && recovered == old(recovered)
      ensures outcome == old(DeleteOutcomeOf(matches, now, body))
      ensures trace == old(trace) + ops && disk == DoAll(old(disk), ops)
      ensures var after := AfterDeletion(old(Stored()), matches, now, body);
              CrashSafe(codec, old(disk), ops, {Loaded(old(Stored()), false), Loaded(after, false)})
      ensures outcome == Deleted(0) <==> old(available) && forall r <- old(records) :: !matches(r)
      ensures outcome.Deleted? && outcome.count > 0 ==> |records| + outcome.count == |old(records)| + 1
      ensures if outcome.Deleted? && outcome.count > 0
              then
                && Stored() == AfterDeletion(old(Stored()), matches, now, body)
                && currentDay == Some(now / DAY_MS)
                && (forall n <- disk.segments :: n <= current)
                && Fresh(old(disk), disk, activeSegments, maxSegmentBytes)
              else
                && Stored() == old(Stored()) && disk.index == old(disk.index) && currentDay == old(currentDay)
    {
      hide AtRest, CrashSafe, DoAll, Numbered, Chosen, Others, Fresh, Increasing, Rewritten;
      ghost var after := AfterDeletion(Stored(), matches, now, body);
      NothingSafe(codec, disk, Stored(), {Loaded(Stored(), false), Loaded(after, false)});
      NothingMatches(records, matches);
      ChosenConserves(records, matches);
      if !available { return NotDeleted(AuditUnavailable), []; }
      var deletedCount := |Chosen(records, matches)|;
      if deletedCount == 0 { return Deleted(0), []; }
      ChosenFromSome(records, matches);
      var last := records[|records| - 1].sequence;
      var nextSequence := SatAdd(last, 1);
      if nextSequence == U64_MAX && last == U64_MAX { return NotDeleted(InvalidSequence), []; }
      var retained := Others(records, matches) + [AuditRecord(nextSequence, now, body)];
      assert retained == after.records;
      DeletionIncreasing(Stored(), matches, now, body) by {
        RestIncreasing(codec, disk, Stored());
      }
      var written;
      written, ops := Rewrite(retained, now);
      outcome := if written then Deleted(deletedCount) else NotDeleted(FrameTooLarge);
    }

    // -------------------------------------------------------------- retention

    /** What is left of a segment goes into the next new one. */
    method WriteReplacement(
        kept: seq<Entry>, p: Progress, ghost d: Disk, ghost copy: seq<Op>, ghost entries: seq<Entry>)
        returns (written: bool, ghost newCopy: seq<Op>)
      requires Lawful(codec) && maxSegmentBytes <= MAX_SEGMENT_BYTES && forall n <- d.index.active :: n in d.segments
      requires Copying(codec, d, copy, p.active, entries, p.next) && disk == DoAll(d, copy) && p.next !in d.segments
      modifies this`disk, this`trace
      ensures disk == DoAll(d, newCopy) && copy <= newCopy && trace == old(trace) + newCopy[|copy|..]
      ensures Grown(old(disk), disk) && p.next in disk.segments && CopyingAside(d, newCopy, p.next + 1)
      ensures written <==> AllFit(codec, kept, maxSegmentBytes)
      ensures written ==> Copying(codec, d, newCopy, p.active + [p.next], entries + kept, p.next + 1)
    {
      hide Copying, CopyingAside, DoAll, FrameLength, Frame;
      CopyCreate(codec, d, copy, p.active, entries, p.next);
      var created := CreateSegment(p.next);
      newCopy := copy + [Create(p.next)];
      assert entries + kept[..0] == entries;
      for i := 0 to |kept|
        invariant disk == DoAll(d, newCopy) && copy <= newCopy && trace == old(trace) + newCopy[|copy|..]
        invariant Grown(old(disk), disk) && p.next in disk.segments && p.next !in old(disk).segments
        invariant AllFit(codec, kept[..i], maxSegmentBytes)
        invariant Copying(codec, d, newCopy, p.active + [p.next], entries + kept[..i], p.next + 1)
      {
        var payload := codec.encode(kept[i]);
        if FrameLength(payload) > maxSegmentBytes {
          CopyIsAside(codec, d, newCopy, p.active + [p.next], entries + kept[..i], p.next + 1);
          return false, newCopy;
        }
        assert FrameLength(payload) <= MAX_SEGMENT_BYTES;
        CopyExtend(codec, d, newCopy, p.active + [p.next], entries + kept[..i], p.next + 1, kept[i]);
        AppendFrame(p.next, payload);
        newCopy := newCopy + [Extend(p.next, EntryFrame(codec, kept[i]))];
        assert kept[..i + 1] == kept[..i] + [kept[i]];
        assert entries + kept[..i] + [kept[i]] == entries + kept[..i + 1];
      }
      assert kept[..|kept|] == kept;
      CopyIsAside(codec, d, newCopy, p.active + [p.next], entries + kept, p.next + 1);
      written := true;
    }

    /** One candidate: kept if nothing in it is older than the cutoff, replaced otherwise. */
    method CompactSegment(
        i: nat, number: nat, p: Progress, cutoff: nat,
        ghost d: Disk, ghost contents: Contents, ghost copy: seq<Op>, ghost entries: seq<Entry>)
        returns (compacted: bool, q: Progress, ghost newCopy: seq<Op>, ghost newEntries: seq<Entry>)
      requires Lawful(codec) && maxSegmentBytes <= MAX_SEGMENT_BYTES && AtRest(codec, d, contents)
      requires i < |d.index.active| && number == d.index.active[i]
      requires forall n <- d.index.active :: n in d.segments
      requires Compacting(codec, d, disk, i, cutoff, p, copy, entries)
      modifies this`disk, this`trace
      ensures disk == DoAll(d, newCopy) && copy <= newCopy && trace == old(trace) + newCopy[|copy|..]
      ensures compacted ==> Compacting(codec, d, disk, i + 1, cutoff, q, newCopy, newEntries)
      ensures !compacted ==>
        && CopyingAside(d, newCopy, p.next + 1) && d.index.current + 1 in disk.segments
        && !AllFit(codec, Rewritten(contents.records, contents.tombstones), maxSegmentBytes)
    {
      hide AtRest, DoAll, Copying, CopyingAside, Compacting, Accounted, Faithful, Rewritten, AllFit, Others, Chosen;
      CompactFacts(codec, d, disk, i, cutoff, p, copy, entries);
      SegmentAt(codec, d, contents, i);
      var scan := ScanSegment(codec, disk.segments[number], false);
      assert scan.Scan?;
      var found := scan.entries;
      q, newCopy, compacted := p, copy, true;
      if Chosen(Records(found), Older(cutoff)) == [] {
        CompactKeep(codec, d, contents, disk, i, cutoff, p, copy, entries, found);
        return true, p.(active := p.active + [number]), copy, entries + found;
      }
      var summary := SegmentSummary(number, codec.sha(disk.segments[number]));
      var deleted := p.deleted + Chosen(Records(found), Older(cutoff));
      var kept := Rewritten(Others(Records(found), Older(cutoff)), Tombstones(found));
      ghost var before := disk;
      newEntries := entries + kept;
      q := p.(replaced := p.replaced + [summary], deleted := deleted);
      if kept != [] {
        compacted, newCopy := WriteReplacement(kept, p, d, copy, entries);
        if !compacted {
          if AllFit(codec, Rewritten(contents.records, contents.tombstones), maxSegmentBytes) {
            KeptFits(codec, d, contents, i, Older(cutoff), maxSegmentBytes);
          }
          return;
        }
        var replacement := SegmentSummary(p.next, codec.sha(disk.segments[p.next]));
        q := q.(active := p.active + [p.next], replacements := p.replacements + [replacement], next := p.next + 1);
      }
      CompactReplace(codec, d, contents, before, i, cutoff, p, copy, entries, found, kept, disk, newCopy);
    }

    /** Every segment but the sealed one is a candidate. */
    method CompactCandidates(cutoff: nat, ghost d: Disk, ghost contents: Contents)
        returns (compacted: bool, p: Progress, ghost copy: seq<Op>, ghost entries: seq<Entry>)
      requires Lawful(codec) && maxSegmentBytes <= MAX_SEGMENT_BYTES && AtRest(codec, d, contents)
      requires disk == d && d.index == Index(current, activeSegments) && forall n <- d.segments :: n <= current
      modifies this`disk, this`trace
      ensures disk == DoAll(d, copy) && trace == old(trace) + copy
      ensures compacted ==> Compacting(codec, d, disk, |d.index.active| - 1, cutoff, p, copy, entries)
      ensures !compacted ==>
        && AtRest(codec, disk, contents) && disk.index == d.index
        && CrashSafe(codec, d, copy, {Loaded(contents, false)})
        && d.index.current + 1 in disk.segments
        && !AllFit(codec, Rewritten(contents.records, contents.tombstones), maxSegmentBytes)
    {
      hide AtRest, DoAll, CopyingAside, Compacting, Rewritten, AllFit, CrashSafe, IndexOk;
      CurrentExists(codec, d, contents);
      SealedIsLast(codec, d, contents);
      CompactStart(codec, d, contents, cutoff);
      var candidates := Without(activeSegments, current);
      var next := NextNumber(disk.segments.Keys);
      p := Progress([], [], [], [], next);
      copy, entries := [], [];
      CompactFacts(codec, d, disk, 0, cutoff, p, copy, entries);
      for i := 0 to |candidates|
        invariant disk == DoAll(d, copy) && trace == old(trace) + copy
        invariant Compacting(codec, d, disk, i, cutoff, p, copy, entries)
      {
        ghost var was := copy;
        ghost var next := p.next;
        compacted, p, copy, entries := CompactSegment(i, candidates[i], p, cutoff, d, contents, copy, entries);
        assert was + copy[|was|..] == copy;
        if !compacted {
          CopyAbandoned(codec, d, contents, copy, next + 1);
          return;
        }
      }
      compacted := true;
    }

    /** Reads the active segments into memory again, allowing no torn tail. */
    method Reload(ghost contents: Contents)
      requires AtRest(codec, disk, contents) && disk.index == Index(current, activeSegments)
      modifies this`records, this`tombstones
      ensures Stored() == contents
    {
      hide ReadSegment, UpTo, AtRest, Records, Tombstones;
      records, tombstones := [], [];
      NothingYet(codec, disk);
      for i := 0 to |activeSegments|
        invariant records == Records(UpTo(codec, disk, i)) && tombstones == Tombstones(UpTo(codec, disk, i))
      {
        ReadOn(codec, disk, contents, i);
        var scan := ScanSegment(codec, disk.segments[activeSegments[i]], false);
        records, tombstones := records + Records(scan.entries), tombstones + Tombstones(scan.entries);
      }
      WholeLog(codec, disk, contents);
    }

    /** The summary gets a segment of its own, which is read back before anything is given up. */
    method WriteSummary(next: nat, t: Tombstone)
      requires Lawful(codec) && maxSegmentBytes <= MAX_SEGMENT_BYTES
      requires next !in disk.segments && FrameLength(codec.encode(Summary(t))) <= maxSegmentBytes
      modifies this`disk, this`trace
      ensures trace == old(trace) + SummaryOps(codec, next, t)
      ensures disk == Do(Do(old(disk), Create(next)), Extend(next, EntryFrame(codec, Summary(t))))
    {
      hide ReadSegment, EntryFrame;
      var payload := codec.encode(Summary(t));
      var created := CreateSegment(next);
      AppendFrame(next, payload);
      assert Frame(codec, payload) == EntryFrame(codec, Summary(t)) by {
        FrameOfEntry(codec, Summary(t));
      }
      assert disk.segments[next] == EntryFrame(codec, Summary(t));
      ReadFrame(codec, Summary(t));
      var verified := ScanSegment(codec, disk.segments[next], false);
      assert verified.Scan? && verified.entries == [Summary(t)];
      assert trace == old(trace) + SummaryOps(codec, next, t);
    }

    /** The compacted log is complete: the index is swapped over, and the replaced segments are removed. */
    method SwapRetained(
        p: Progress, ghost last: nat, ghost d: Disk, ghost contents: Contents, ghost cutoff: nat, ghost copied: Disk,
        ghost copy: seq<Op>, ghost entries: seq<Entry>)
        returns (ghost ops: seq<Op>)
      requires Lawful(codec) && Fits(codec, Summary(SummaryOf(p)))
      requires last + 1 == |d.index.active| && AtRest(codec, d, contents) && d.index == Index(current, activeSegments)
      requires current in d.segments && d.segments[current] == []
      requires Compacting(codec, d, copied, last, cutoff, p, copy, entries)
      requires disk == DoAll(d, copy + SummaryOps(codec, p.next, SummaryOf(p)))
      modifies this`disk, this`trace, this`activeSegments, this`currentDay
      ensures disk.index == Index(current, activeSegments) && currentDay == None
      ensures trace == old(trace) + ops && disk == DoAll(d, copy + (SummaryOps(codec, p.next, SummaryOf(p)) + ops))
      ensures var after := AfterRetention(contents, cutoff, SummaryOf(p));
              && AtRest(codec, disk, after)
              && CrashSafe(codec, d, copy + (SummaryOps(codec, p.next, SummaryOf(p)) + ops),
                           {Loaded(contents, false), Loaded(after, false)})
      ensures disk.index == NewIndex(p, current)
      ensures disk.segments.Keys == old(disk.segments.Keys) - set n <- NumbersOf(p.replaced)
      ensures forall n <- disk.segments :: disk.segments[n] == old(disk.segments)[n]
    {
      hide AtRest, DoAll, Compacting, Copying, Accounted, Faithful, Grown, Lawful, IndexOk, CrashSafe, AfterRetention;
      hide SummaryOps, Fits, SummaryOf, NumbersOf;
      CompactParts(codec, d, copied, last, cutoff, p, copy, entries);
      ghost var t, index := SummaryOf(p), NewIndex(p, current);
      activeSegments := p.active + [p.next] + [current];
      currentDay := None;
      WriteIndex();
      ghost var removals := RemoveAll(NumbersOf(p.replaced));
      RetentionDone(codec, last, d, contents, cutoff, copied, copy, p, entries, removals);
      ops := [Swap(index)] + removals;
      assert SummaryOps(codec, p.next, t) + ops == SummaryOps(codec, p.next, t) + [Swap(index)] + removals;
    }

    /** The compacted log is complete but for its summary: that is written and read back before the index is
        swapped over and the replaced segments are removed. */
    method FinishRetention(
        p: Progress, ghost last: nat, ghost d: Disk, ghost contents: Contents, ghost cutoff: nat,
        ghost copy: seq<Op>, ghost entries: seq<Entry>)
        returns (ghost ops: seq<Op>)
      requires Lawful(codec) && 0 < maxSegmentBytes <= MAX_SEGMENT_BYTES
      requires last + 1 == |d.index.active| && AtRest(codec, d, contents) && d.index == Index(current, activeSegments)
      requires current in d.segments && d.segments[current] == [] && forall n <- d.index.active :: n in d.segments
      requires Compacting(codec, d, disk, last, cutoff, p, copy, entries)
      requires FrameLength(codec.encode(Summary(SummaryOf(p)))) <= maxSegmentBytes
      modifies this
      ensures disk.index == Index(current, activeSegments) && current == old(current)
      ensures available == old(available) && recovered == old(recovered) && currentDay == None
      ensures trace == old(trace) + ops && disk == DoAll(d, copy + ops)
      ensures var after := AfterRetention(contents, cutoff, SummaryOf(p));
              && AtRest(codec, disk, after) && Stored() == after
              && CrashSafe(codec, d, copy + ops, {Loaded(contents, false), Loaded(after, false)})
      ensures Tells(codec, SummaryOf(p), d, disk, p.deleted)
      ensures current in disk.segments && disk.segments[current] == [] && current + 1 in disk.segments
    {
      hide AtRest, DoAll, Compacting, Copying, Accounted, Faithful, CrashSafe, Tells, AfterRetention, IndexOk, NewIndex;
      hide SummaryOps, EntryFrame, Lawful, SummaryOf, Grown, NumbersOf;
      ghost var copied := disk;
      CompactParts(codec, d, disk, last, cutoff, p, copy, entries);
      SealedApart(codec, last, d, contents, disk, cutoff, p, copy, entries);
      SummaryCopied(codec, d, copy, p, entries, SummaryOf(p), current);
      WriteSummary(p.next, SummaryOf(p));
      ops := SwapRetained(p, last, d, contents, cutoff, copied, copy, entries);
      ops := SummaryOps(codec, p.next, SummaryOf(p)) + ops;
      RetentionTold(codec, last, d, copied, p, EntryFrame(codec, Summary(SummaryOf(p))), disk,
                    AfterRetention(contents, cutoff, SummaryOf(p)), contents);
      Reload(AfterRetention(contents, cutoff, SummaryOf(p)));
    }

    /** Compaction behind a sealed, empty current segment. It gives up where an entry is too large. */
    method CompactSealed(cutoff: nat) returns (compacted: bool, ghost summary: Tombstone, ghost ops: seq<Op>)
      requires Valid() && disk.segments[current] == [] && forall n <- disk.segments :: n <= current
      modifies this
      ensures Valid() && available == old(available) && recovered == old(recovered)
      ensures trace == old(trace) + ops && disk == DoAll(old(disk), ops)
      ensures CrashSafe(codec, old(disk), ops, {Loaded(old(Stored()), false), Loaded(Stored(), false)})
      ensures compacted ==>
        && Stored() == AfterRetention(old(Stored()), cutoff, summary) && currentDay == None
        && Tells(codec, summary, old(disk), disk, Chosen(old(records), Older(cutoff)))
        && disk.segments[current] == [] && current + 1 in disk.segments
      ensures !compacted ==>
        && Stored() == old(Stored()) && currentDay == old(currentDay) && disk.index == old(disk.index)
        && (AllFit(codec, Rewritten(records, tombstones), maxSegmentBytes)
            ==> FrameLength(codec.encode(Summary(summary))) > maxSegmentBytes)
    {
      hide AtRest, DoAll, Compacting, CopyingAside, CrashSafe, Tells, AfterRetention, Rewritten, AllFit, Numbered;
      hide Chosen, FrameLength, Accounted, Faithful, Copying, Grown, IndexOk, SummaryOf, Lawful, NewIndex;
      ghost var d, contents := disk, Stored();
      ghost var last := |activeSegments| - 1;
      var p;
      ghost var copy, entries;
      CurrentExists(codec, d, contents);
      RestIndexOk(codec, d, contents);
      compacted, p, copy, entries := CompactCandidates(cutoff, d, contents);
      summary := SummaryOf(p);
      ops := copy;
      if !compacted {
        CrashSafeWiden(codec, d, copy, {Loaded(contents, false)}, {Loaded(contents, false), Loaded(contents, false)});
        NumberedAbove(disk);
        CurrentExists(codec, disk, contents);
        return;
      }
      CompactParts(codec, d, disk, last, cutoff, p, copy, entries);
      if FrameLength(codec.encode(Summary(SummaryOf(p)))) > maxSegmentBytes {
        CompactFacts(codec, d, disk, last, cutoff, p, copy, entries);
        CompactNumbered(codec, d, disk, last, cutoff, p, copy, entries);
        CopyAbandoned(codec, d, contents, copy, p.next);
        CrashSafeWiden(codec, d, copy, {Loaded(contents, false)}, {Loaded(contents, false), Loaded(contents, false)});
        CurrentExists(codec, disk, contents);
        compacted := false;
        return;
      }
      RetainedContents(codec, last, d, contents, cutoff, p, entries, summary);
      ghost var more := FinishRetention(p, last, d, contents, cutoff, copy, entries);
      ops := copy + more;
      NumberedAbove(disk);
    }

    /** Retention: nothing happens while no record is past the cutoff. Otherwise the current segment is sealed
        and the log is compacted; whatever goes wrong, the contents stay and the store becomes unavailable.
        `summary` is the tombstone written, or the one that would have been. */
    method EnforceRetention(now: nat, days: nat)
        returns (outcome: Outcome, ghost summary: Tombstone, ghost ops: seq<Op>)
      requires Valid()
      modifies this
      ensures Valid() && recovered == old(recovered)
      ensures trace == old(trace) + ops && disk == DoAll(old(disk), ops)
      ensures CrashSafe(codec, old(disk), ops, {Loaded(old(Stored()), false), Loaded(Stored(), false)})
      ensures available <==> old(available) && outcome.Done?
      ensures var due := exists r <- old(records) :: r.occurredAt < Cutoff(now, days);
        if !due then outcome.Done? && ops == [] && Stored() == old(Stored()) && disk == old(disk)
        else if old(current) + 1 in old(disk.segments)
        then outcome == Failed(Io) && ops == [] && Stored() == old(Stored()) && disk == old(disk)
        else
          && (outcome.Done? || outcome == Failed(FrameTooLarge))
          && (outcome.Done? ==>
                && Stored() == AfterRetention(old(Stored()), Cutoff(now, days), summary) && currentDay == None
                && Tells(codec, summary, old(SealedDisk()), disk, Chosen(old(records), Older(Cutoff(now, days))))
                && disk.segments[current] == [] && current + 1 in disk.segments)
          && (outcome.Failed? ==>
                && Stored() == old(Stored())
                && (AllFit(codec, Rewritten(records, tombstones), maxSegmentBytes)
                    ==> FrameLength(codec.encode(Summary(summary))) > maxSegmentBytes))
    {
      hide AtRest, DoAll, CrashSafe, Tells, AfterRetention, Rewritten, AllFit, Numbered, Chosen, Lawful, FrameLength;
      summary, ops := Tombstone(0, 0, 0, [], []), [];
      var cutoff := Cutoff(now, days);
      NothingSafe(codec, disk, Stored(), {Loaded(Stored(), false), Loaded(Stored(), false)});
      if !exists r <- records :: r.occurredAt < cutoff { return Done, summary, []; }
      var rotated := Rotate();
      if !rotated {
        available := false;
        return Failed(Io), summary, [];
      }
      ghost var sealed, seal := disk, RotateOps(old(disk.index));
      var compacted;
      compacted, summary, ops := CompactSealed(cutoff);
      CrashSafeWiden(codec, old(disk), seal, {Loaded(old(Stored()), false)},
                     {Loaded(old(Stored()), false), Loaded(Stored(), false)});
      CrashSafeJoin(codec, old(disk), seal, ops, {Loaded(old(Stored()), false), Loaded(Stored(), false)});
      ops := seal + ops;
      outcome := if compacted then Done else Failed(FrameTooLarge);
      available := available && compacted;
    }

    /** The directory once the current segment is sealed. */
    ghost function SealedDisk(): Disk
      reads this
    {
      Disk(disk.segments[current + 1 := []], Rotated(disk.index))
    }

    /** What an append of a valid record answers after a retention that deleted something: the current segment
        is empty and belongs to no day, so nothing but the record itself can be in the way. */
    ghost function FirstOutcome(contents: Contents, r: AuditRecord): Outcome {
      if !Follows(contents, r) then Failed(InvalidSequence)
      else if FrameLength(codec.encode(Record(r))) > maxSegmentBytes then Failed(FrameTooLarge)
      else Done
    }

    /** Retention that deletes something stops the log on the next day: the sealed segment is current and the
        one numbered after it exists, so no rotation can succeed. The first record is taken whenever it follows
        and fits; the next one, of another day, is refused and makes the store unavailable. */
    method NextDayAfterRetention(now: nat, days: nat, first: AuditRecord, second: AuditRecord)
        returns (retained: Outcome, today: Outcome, tomorrow: Outcome, ghost summary: Tombstone)
      requires Valid() && available
      requires first.sequence < second.sequence && first.occurredAt / DAY_MS != second.occurredAt / DAY_MS
      modifies this
      ensures var contents := AfterRetention(old(Stored()), Cutoff(now, days), summary);
        (exists r <- old(records) :: r.occurredAt < Cutoff(now, days)) && retained.Done? ==>
          && today == FirstOutcome(contents, first)
          && (today.Done? ==>
                && tomorrow == Failed(if FrameLength(codec.encode(Record(second))) > maxSegmentBytes
                                      then FrameTooLarge else Io)
                && Stored() == Added(contents, first) && available == (tomorrow != Failed(Io)))
    {
      hide CrashSafe, SilentUntilBegun, AtRest, Tells, DoAll, AfterRetention, FrameLength, Numbered;
      ghost var ops;
      retained, summary, ops := EnforceRetention(now, days);
      today, ops := Append(first, true);
      tomorrow, ops := Append(second, true);
    }
  }

  /** A crash anywhere in a deletion or in retention, followed by opening the directory again, yields exactly
      the old contents or exactly the new ones, with nothing to report. */
  method ReopenAfterRewrite(
      c: Codec, maxSegmentBytes: nat, recovery: Name, valid: bool, crashed: Disk,
      ghost d: Disk, ghost ops: seq<Op>, ghost done: nat, ghost cut: nat, ghost before: Contents, ghost after: Contents)
      returns (store: AuditStore)
    requires Lawful(c) && 0 < maxSegmentBytes <= MAX_SEGMENT_BYTES
    requires CrashSafe(c, d, ops, {Loaded(before, false), Loaded(after, false)})
    requires done <= |ops| && crashed == CrashAt(d, ops, done, cut)
    ensures store.Valid() && store.available && !store.recovered
    ensures store.Stored() == before || store.Stored() == after
  {
    hide CrashAt, Load, IndexOk;
    assert Survives(c, crashed, {Loaded(before, false), Loaded(after, false)});
    store := new AuditStore(c, maxSegmentBytes, crashed);
    var outcome;
    ghost var steps;
    outcome, steps := store.Open(recovery, valid);
  }

  /** A crash anywhere in an append, followed by opening the directory again: the record is there, or it is not
      and nothing is reported, or it is not and exactly one record reports that its frame was cut. */
  method ReopenAfterAppend(
      c: Codec, maxSegmentBytes: nat, recovery: Name, valid: bool, crashed: Disk,
      ghost d: Disk, ghost ops: seq<Op>, ghost done: nat, ghost cut: nat, ghost before: Contents, ghost r: AuditRecord)
      returns (store: AuditStore, outcome: Outcome)
    requires Lawful(c) && 0 < maxSegmentBytes <= MAX_SEGMENT_BYTES
    requires CrashSafe(c, d, ops, AppendOutcomes(before, r))
    requires done <= |ops| && crashed == CrashAt(d, ops, done, cut)
    ensures outcome.Done? ==> store.Valid() && store.available
    ensures outcome.Done? && !store.recovered ==> store.Stored() == before || store.Stored() == Added(before, r)
    ensures outcome.Done? && store.recovered ==> store.Stored() == Added(before, Notice(before, recovery))
    ensures outcome.Failed? ==> store.recovered && Load(c, store.disk) == Loaded(before, false)
  {
    hide CrashAt, Load, IndexOk;
    assert Survives(c, crashed, AppendOutcomes(before, r));
    store := new AuditStore(c, maxSegmentBytes, crashed);
    ghost var steps;
    outcome, steps := store.Open(recovery, valid);
  }

  /** A crash anywhere in the opening of a torn log, followed by opening it again: the tear is reported, once,
      unless the crash came after the truncation and before the first byte of the report. Then nothing tells
      of it any more. */
  method ReopenAfterOpening(
      c: Codec, maxSegmentBytes: nat, recovery: Name, valid: bool, crashed: Disk,
      ghost d: Disk, ghost ops: seq<Op>, ghost done: nat, ghost cut: nat, ghost contents: Contents)
      returns (store: AuditStore, outcome: Outcome)
    requires Lawful(c) && 0 < maxSegmentBytes <= MAX_SEGMENT_BYTES
    requires CrashSafe(c, d, ops, {Loaded(contents, true)} + AppendOutcomes(contents, Notice(contents, recovery)))
    requires TearForgotten(c, d, ops, contents)
    requires done <= |ops| && crashed == CrashAt(d, ops, done, cut)
    ensures outcome.Done? ==>
      && store.Valid() && store.available
      && store.Stored() == if done > 0 && !Begun(ops, done, cut) then contents
                           else Added(contents, Notice(contents, recovery))
  {
    hide CrashAt, Load, IndexOk;
    assert Survives(c, crashed, {Loaded(contents, true)} + AppendOutcomes(contents, Notice(contents, recovery)));
    assert Added(contents, Notice(contents, recovery)) != contents;
    store := new AuditStore(c, maxSegmentBytes, crashed);
    ghost var steps;
    outcome, steps := store.Open(recovery, valid);
  }
}
