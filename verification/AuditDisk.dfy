/** The audit directory, the steps that change it, what a crash can leave behind, and what is read back. */
module AuditDisk {
  import opened Common
  import opened AuditFrames

  /** The segment files, and the index, which is only ever replaced whole. */
  datatype Disk = Disk(segments: map<nat, Bytes>, index: Index)

  datatype Index = Index(current: nat, active: seq<nat>)

  datatype Op =
    | Create(number: nat)
    | Extend(number: nat, bytes: Bytes)
    | Truncate(number: nat, length: nat)
    | Swap(index: Index)
    | Remove(number: nat)

  function Do(d: Disk, op: Op): Disk {
    match op
    case Create(n) => d.(segments := d.segments[n := []])
    case Extend(n, b) => if n in d.segments then d.(segments := d.segments[n := d.segments[n] + b]) else d
    case Truncate(n, length) =>
      if n in d.segments && length <= |d.segments[n]| then d.(segments := d.segments[n := d.segments[n][..length]])
      else d
    case Swap(index) => d.(index := index)
    case Remove(n) => d.(segments := d.segments - {n})
  }

  function DoAll(d: Disk, ops: seq<Op>): Disk {
    if ops == [] then d else Do(DoAll(d, ops[..|ops| - 1]), ops[|ops| - 1])
  }

  /** The directory after a crash: `done` steps took place, and of a frame being appended only `cut` bytes. */
  function CrashAt(d: Disk, ops: seq<Op>, done: nat, cut: nat): Disk
    requires done <= |ops|
  {
    var before := DoAll(d, ops[..done]);
    if done < |ops| && ops[done].Extend? && cut <= |ops[done].bytes|
    then Do(before, Extend(ops[done].number, ops[done].bytes[..cut]))
    else before
  }

  // ---------------------------------------------------------------- reading back

  datatype Contents = Contents(records: seq<AuditRecord>, tombstones: seq<Tombstone>)

  function Records(entries: seq<Entry>): seq<AuditRecord> {
    if entries == [] then []
    else
      var front, e := Records(entries[..|entries| - 1]), entries[|entries| - 1];
      if e.Record? then front + [e.record] else front
  }

  function Tombstones(entries: seq<Entry>): seq<Tombstone> {
    if entries == [] then []
    else
      var front, e := Tombstones(entries[..|entries| - 1]), entries[|entries| - 1];
      if e.Summary? then front + [e.tombstone] else front
  }

  function ContentsOf(entries: seq<Entry>): Contents {
    Contents(Records(entries), Tombstones(entries))
  }

  predicate Increasing(records: seq<AuditRecord>) {
    forall i | 0 < i < |records| :: records[i - 1].sequence < records[i].sequence
  }

  datatype Log = Log(entries: seq<Entry>, torn: bool) | Unreadable

  /** The active segments in order; only the current one may end in a torn frame. */
  function Gather(c: Codec, segments: map<nat, Bytes>, current: nat, active: seq<nat>): Log {
    if active == [] then Log([], false)
    else
      var front, n := Gather(c, segments, current, active[..|active| - 1]), active[|active| - 1];
      if front.Unreadable? || n !in segments then Unreadable
      else
        match ReadSegment(c, segments[n], n == current)
        case Damaged => Unreadable
        case Scan(entries, _, torn) => Log(front.entries + entries, front.torn || torn)
  }

  datatype Loaded = Loaded(contents: Contents, torn: bool) | Refused

  function LoadedFrom(log: Log): Loaded {
    if log.Unreadable? || !Increasing(Records(log.entries)) then Refused
    else Loaded(ContentsOf(log.entries), log.torn)
  }

  function Load(c: Codec, d: Disk): Loaded {
    LoadedFrom(Gather(c, d.segments, d.index.current, d.index.active))
  }

  // ---------------------------------------------------------------- framing

  ghost predicate SameOn(active: seq<nat>, s: map<nat, Bytes>, t: map<nat, Bytes>) {
    forall n <- active :: (n in s <==> n in t) && (n in s ==> s[n] == t[n])
  }

  lemma {:induction false} GatherFrame(c: Codec, s: map<nat, Bytes>, t: map<nat, Bytes>, current: nat, active: seq<nat>)
    requires SameOn(active, s, t)
    ensures Gather(c, s, current, active) == Gather(c, t, current, active)
  {
    if active != [] {
      GatherFrame(c, s, t, current, active[..|active| - 1]);
    }
  }

  lemma {:induction false} RecordsJoin(a: seq<Entry>, b: seq<Entry>)
    ensures Records(a + b) == Records(a) + Records(b)
  {
    if b == [] {
      assert a + b == a;
    } else {
      RecordsJoin(a, b[..|b| - 1]);
      assert (a + b)[..|a + b| - 1] == a + b[..|b| - 1];
    }
  }

  lemma {:induction false} TombstonesJoin(a: seq<Entry>, b: seq<Entry>)
    ensures Tombstones(a + b) == Tombstones(a) + Tombstones(b)
  {
    if b == [] {
      assert a + b == a;
    } else {
      TombstonesJoin(a, b[..|b| - 1]);
      assert (a + b)[..|a + b| - 1] == a + b[..|b| - 1];
    }
  }

  lemma {:induction false} DoAllJoin(d: Disk, a: seq<Op>, b: seq<Op>)
    ensures DoAll(d, a + b) == DoAll(DoAll(d, a), b)
  {
    if b == [] {
      assert a + b == a;
    } else {
      DoAllJoin(d, a, b[..|b| - 1]);
      assert (a + b)[..|a + b| - 1] == a + b[..|b| - 1];
    }
  }

  // ---------------------------------------------------------------- crashes

  /** The store appends to the last active segment. Numbers above it are only in use once the number right
      after it is. */
  ghost predicate IndexOk(i: Index) {
    && i.active != [] && i.active[|i.active| - 1] == i.current
    && (forall j, k | 0 <= j < k < |i.active| :: i.active[j] != i.active[k])
    && ((forall n <- i.active :: n <= i.current) || i.current + 1 in i.active)
  }

  /** Wherever a crash interrupts `ops`, one of `outcomes` is read back. */
  ghost predicate CrashSafe(c: Codec, d: Disk, ops: seq<Op>, outcomes: set<Loaded>) {
    forall done: nat, cut: nat | done <= |ops| :: Survives(c, CrashAt(d, ops, done, cut), outcomes)
  }

  ghost predicate Survives(c: Codec, d: Disk, outcomes: set<Loaded>) {
    IndexOk(d.index) && Load(c, d) in outcomes
  }

  lemma CrashLater(d: Disk, a: seq<Op>, b: seq<Op>, done: nat, cut: nat)
    requires |a| <= done <= |a| + |b|
    ensures CrashAt(d, a + b, done, cut) == CrashAt(DoAll(d, a), b, done - |a|, cut)
  {
    assert (a + b)[..done] == a + b[..done - |a|];
    DoAllJoin(d, a, b[..done - |a|]);
  }

  /** Crash safety composes. */
  lemma CrashSafeJoin(c: Codec, d: Disk, a: seq<Op>, b: seq<Op>, outcomes: set<Loaded>)
    requires CrashSafe(c, d, a, outcomes) && CrashSafe(c, DoAll(d, a), b, outcomes)
    ensures CrashSafe(c, d, a + b, outcomes)
    ensures DoAll(d, a + b) == DoAll(DoAll(d, a), b)
  {
    hide Survives;
    DoAllJoin(d, a, b);
    forall done: nat, cut: nat | done <= |a + b| ensures Survives(c, CrashAt(d, a + b, done, cut), outcomes) {
      if done < |a| {
        assert (a + b)[..done] == a[..done];
        assert CrashAt(d, a + b, done, cut) == CrashAt(d, a, done, cut);
      } else {
        CrashLater(d, a, b, done, cut);
      }
    }
  }

  lemma CrashSafeWiden(c: Codec, d: Disk, ops: seq<Op>, narrow: set<Loaded>, wide: set<Loaded>)
    requires CrashSafe(c, d, ops, narrow) && narrow <= wide
    ensures CrashSafe(c, d, ops, wide)
  {
    hide Load, CrashAt, IndexOk;
  }

  ghost predicate Elsewhere(op: Op, active: seq<nat>) {
    !op.Swap? && op.number !in active
  }

  lemma ElsewhereKeeps(c: Codec, d: Disk, op: Op)
    requires Elsewhere(op, d.index.active)
    ensures Load(c, Do(d, op)) == Load(c, d) && Do(d, op).index == d.index
  {
    GatherFrame(c, d.segments, Do(d, op).segments, d.index.current, d.index.active);
  }

  /** Steps on segments that are not active change nothing that is read back, wherever they are cut. */
  lemma {:induction false} AsideSafe(c: Codec, d: Disk, ops: seq<Op>)
    requires IndexOk(d.index) && forall op <- ops :: Elsewhere(op, d.index.active)
    ensures DoAll(d, ops).index == d.index && Load(c, DoAll(d, ops)) == Load(c, d)
    ensures CrashSafe(c, d, ops, {Load(c, d)})
    decreases |ops|
  {
    hide Load, Do, IndexOk;
    if ops == [] {
    } else {
      var front, op := ops[..|ops| - 1], ops[|ops| - 1];
      AsideSafe(c, d, front);
      ElsewhereKeeps(c, DoAll(d, front), op);
      forall done: nat, cut: nat | done <= |ops| ensures Survives(c, CrashAt(d, ops, done, cut), {Load(c, d)}) {
        if done < |front| {
          assert ops[..done] == front[..done];
          assert CrashAt(d, ops, done, cut) == CrashAt(d, front, done, cut);
        } else if done == |front| {
          if op.Extend? && cut <= |op.bytes| {
            ElsewhereKeeps(c, DoAll(d, front), Extend(op.number, op.bytes[..cut]));
          }
        } else {
          assert ops[..done] == ops;
        }
      }
    }
  }

  /** A step other than appending bytes happened or did not. */
  lemma StepSafe(c: Codec, d: Disk, op: Op)
    requires !op.Extend? && IndexOk(d.index) && IndexOk(Do(d, op).index)
    ensures DoAll(d, [op]) == Do(d, op)
    ensures CrashSafe(c, d, [op], {Load(c, d), Load(c, Do(d, op))})
  {
    hide Load, IndexOk;
    assert [op][..0] == [] && [op][..1] == [op];
    assert DoAll(d, [op]) == Do(DoAll(d, []), op);
  }

  /** Copy, swap, remove: new segments are written aside, the index is swapped once, and segments that it no
      longer names are removed. A crash anywhere leaves exactly what was there before or exactly what the
      new index names; the swap decides which. */
  lemma CopySwapRemove(c: Codec, d: Disk, copy: seq<Op>, index: Index, removals: seq<Op>)
    requires IndexOk(d.index) && IndexOk(index)
    requires forall op <- copy :: Elsewhere(op, d.index.active)
    requires forall op <- removals :: Elsewhere(op, index.active)
    ensures var after := Do(DoAll(d, copy), Swap(index));
            var ops := copy + [Swap(index)] + removals;
            && Load(c, DoAll(d, ops)) == Load(c, after) && DoAll(d, ops).index == index
            && DoAll(d, ops) == DoAll(after, removals)
            && CrashSafe(c, d, ops, {Load(c, d), Load(c, after)})
  {
    hide Load, IndexOk;
    var copied := DoAll(d, copy);
    var after := Do(copied, Swap(index));
    var outcomes := {Load(c, d), Load(c, after)};
    AsideSafe(c, d, copy);
    StepSafe(c, copied, Swap(index));
    AsideSafe(c, after, removals);
    CrashSafeWiden(c, d, copy, {Load(c, d)}, outcomes);
    CrashSafeJoin(c, d, copy, [Swap(index)], outcomes);
    CrashSafeWiden(c, after, removals, {Load(c, after)}, outcomes);
    CrashSafeJoin(c, d, copy + [Swap(index)], removals, outcomes);
  }
}
