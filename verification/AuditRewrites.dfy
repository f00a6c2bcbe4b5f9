/** Rewriting the log: copying entries into new segments beside the old ones, and swapping the index over. */
module AuditRewrites {
  import opened Common
  import opened AuditFrames
  import opened AuditDisk
  import opened AuditLog

  /** Segments numbered above the current one exist only once the next number is taken. */
  ghost predicate Numbered(d: Disk) {
    (forall n <- d.segments :: n <= d.index.current) || d.index.current + 1 in d.segments
  }

  /** Part of a rewrite of `d` is done: `copy` wrote only beside the active segments, `active` holds
      `entries`, and every number from `next` on is free. */
  ghost predicate Copying(c: Codec, d: Disk, copy: seq<Op>, active: seq<nat>, entries: seq<Entry>, next: nat) {
    && CopyingAside(d, copy, next)
    && Stores(c, DoAll(d, copy).segments, active, entries)
    && Distinct(active)
  }

  ghost predicate CopyingAside(d: Disk, copy: seq<Op>, next: nat) {
    && (forall op <- copy :: Elsewhere(op, d.index.active))
    && DoAll(d, copy).index == d.index
    && (forall n <- DoAll(d, copy).segments :: n < next)
    && (forall n <- d.index.active :: n < next && n in d.segments && n in DoAll(d, copy).segments
                                      && DoAll(d, copy).segments[n] == d.segments[n])
  }

  lemma DoSnoc(d: Disk, ops: seq<Op>, op: Op)
    ensures DoAll(d, ops + [op]) == Do(DoAll(d, ops), op)
  {
    assert (ops + [op])[..|ops|] == ops;
  }

  /** The rewrite starts with nothing copied. */
  lemma CopyStart(c: Codec, d: Disk, contents: Contents, next: nat)
    requires AtRest(c, d, contents)
    requires forall n <- d.segments :: n < next
    ensures Copying(c, d, [], [], [], next) && DoAll(d, []) == d
    ensures forall limit: nat :: Fresh(d, d, [], limit)
  {
    ActivePresent(c, d.segments, d.index.current, d.index.active);
  }

  lemma AsideStep(d: Disk, copy: seq<Op>, op: Op, next: nat, after: nat)
    requires CopyingAside(d, copy, next) && Elsewhere(op, d.index.active) && next <= after
    requires op.Create? ==> op.number < after
    ensures CopyingAside(d, copy + [op], after)
  {
    DoSnoc(d, copy, op);
  }

  /** A new segment is started. */
  lemma CopyCreate(c: Codec, d: Disk, copy: seq<Op>, active: seq<nat>, entries: seq<Entry>, next: nat)
    requires Copying(c, d, copy, active, entries, next)
    ensures next !in DoAll(d, copy).segments && next !in active && next !in d.index.active
    ensures Copying(c, d, copy + [Create(next)], active + [next], entries, next + 1)
    ensures DoAll(d, copy + [Create(next)]) == Do(DoAll(d, copy), Create(next))
  {
    hide ReadSegment, IndexOk;
    var s := DoAll(d, copy).segments;
    ActivePresent(c, s, 0, active);
    CreateStores(c, s, active, entries, next);
    AsideStep(d, copy, Create(next), next, next + 1);
    DoSnoc(d, copy, Create(next));
  }

  /** An entry is appended to the last new segment. */
  lemma CopyExtend(c: Codec, d: Disk, copy: seq<Op>, active: seq<nat>, entries: seq<Entry>, next: nat, e: Entry)
    requires Lawful(c) && Fits(c, e)
    requires Copying(c, d, copy, active, entries, next)
    requires active != [] && active[|active| - 1] !in d.index.active
    ensures var op := Extend(active[|active| - 1], EntryFrame(c, e));
            && active[|active| - 1] in DoAll(d, copy).segments
            && Copying(c, d, copy + [op], active, entries + [e], next)
            && DoAll(d, copy + [op]) == Do(DoAll(d, copy), op)
  {
    hide ReadSegment, IndexOk, EntryFrame, Fits;
    var n, s := active[|active| - 1], DoAll(d, copy).segments;
    var op := Extend(n, EntryFrame(c, e));
    ActivePresent(c, s, 0, active);
    ExtendStores(c, s, active, entries, e);
    AsideStep(d, copy, op, next, next);
    DoSnoc(d, copy, op);
  }

  /** A segment of the old log that stays as it is. */
  lemma CopyKeep(
      c: Codec, d: Disk, copy: seq<Op>, active: seq<nat>, entries: seq<Entry>, next: nat, n: nat, more: seq<Entry>)
    requires Copying(c, d, copy, active, entries, next)
    requires n in d.index.active && n !in active && Intact(c, d.segments[n], more)
    ensures Copying(c, d, copy, active + [n], entries + more, next)
  {
    hide ReadSegment, IndexOk;
    StoresMore(c, DoAll(d, copy).segments, active, entries, n, more);
  }

  /** The finished rewrite: swapping the index over and removing what it no longer names is atomic. */
  lemma CopyDone(
      c: Codec, d: Disk, before: Contents, copy: seq<Op>, index: Index, entries: seq<Entry>, next: nat,
      removals: seq<Op>)
    requires AtRest(c, d, before) && Copying(c, d, copy, index.active, entries, next)
    requires IndexOk(index) && Increasing(Records(entries))
    requires forall op <- removals :: Elsewhere(op, index.active)
    ensures var ops := copy + [Swap(index)] + removals;
            && DoAll(d, ops) == DoAll(Do(DoAll(d, copy), Swap(index)), removals)
            && DoAll(d, ops).index == index
            && AtRest(c, DoAll(d, ops), ContentsOf(entries))
            && CrashSafe(c, d, ops, {Loaded(before, false), Loaded(ContentsOf(entries), false)})
  {
    hide ReadSegment, IndexOk, CrashSafe, Increasing, Records, Tombstones;
    var after := Do(DoAll(d, copy), Swap(index));
    assert Gather(c, after.segments, index.current, index.active) == Log(entries, false);
    CopySwapRemove(c, d, copy, index, removals);
  }

  lemma CopyIsAside(c: Codec, d: Disk, copy: seq<Op>, active: seq<nat>, entries: seq<Entry>, next: nat)
    requires Copying(c, d, copy, active, entries, next)
    ensures CopyingAside(d, copy, next)
  {
  }

  /** A rewrite given up half way leaves the log as it was. */
  lemma CopyAbandoned(c: Codec, d: Disk, before: Contents, copy: seq<Op>, next: nat)
    requires AtRest(c, d, before) && CopyingAside(d, copy, next)
    ensures AtRest(c, DoAll(d, copy), before) && DoAll(d, copy).index == d.index
    ensures CrashSafe(c, d, copy, {Loaded(before, false)})
  {
    hide Load, IndexOk, CrashSafe;
    AsideSafe(c, d, copy);
  }

  // ---------------------------------------------------------------- numbering new segments

  predicate IsTop(s: set<nat>, n: nat) {
    n in s && forall m <- s :: m <= n
  }

  lemma {:induction false} TopExists(s: set<nat>)
    requires s != {}
    ensures exists n :: IsTop(s, n)
    decreases |s|
  {
    var n :| n in s;
    if s == {n} {
      assert IsTop(s, n);
    } else {
      TopExists(s - {n});
      var m: nat :| IsTop(s - {n}, m);
      var top := if m < n then n else m;
      forall k | k in s ensures k <= top {
        assert k == n || k in s - {n};
      }
      assert IsTop(s, top);
    }
  }

  /** One above every number in use. */
  function NextNumber(s: set<nat>): (n: nat)
    ensures forall m <- s :: m < n
    ensures s != {} ==> n > 0 && n - 1 in s
  {
    if s == {} then 1
    else
      TopExists(s);
      var top: nat :| IsTop(s, top);
      top + 1
  }

  /** New segments alone make an index in order, and a directory in which the last of them is the highest. */
  lemma CopiedIndexOk(c: Codec, d: Disk, copy: seq<Op>, active: seq<nat>, entries: seq<Entry>)
    requires active != [] && Copying(c, d, copy, active, entries, active[|active| - 1] + 1)
    ensures IndexOk(Index(active[|active| - 1], active))
    ensures forall n <- DoAll(d, copy).segments :: n <= active[|active| - 1]
  {
    hide ReadSegment;
    ActivePresent(c, DoAll(d, copy).segments, 0, active);
  }

  lemma RestIncreasing(c: Codec, d: Disk, contents: Contents)
    requires AtRest(c, d, contents)
    ensures Increasing(contents.records)
  {
  }

  /** Segments created above all others keep a directory numbered. */
  lemma StillNumbered(d: Disk, after: Disk)
    requires Numbered(d) && d.index.current in d.segments
    requires after.index == d.index && d.segments.Keys <= after.segments.Keys
    requires NextNumber(d.segments.Keys) in after.segments
    ensures Numbered(after)
  {
    if forall n <- d.segments :: n <= d.index.current {
      assert NextNumber(d.segments.Keys) == d.index.current + 1;
    }
  }

  lemma FrameSize(c: Codec, e: Entry)
    requires Lawful(c) && Fits(c, e)
    ensures |EntryFrame(c, e)| == FrameLength(c.encode(e))
  {
  }

  // ---------------------------------------------------------------- deletion

  function DeletionRecord(contents: Contents, now: nat, body: Name): AuditRecord {
    AuditRecord(
      if contents.records == [] then 1 else SatAdd(contents.records[|contents.records| - 1].sequence, 1),
      now,
      body)
  }

  /** The records that do not match, in order, then a record of the deletion; tombstones stay. */
  function AfterDeletion(contents: Contents, p: AuditRecord -> bool, now: nat, body: Name): Contents {
    Contents(Others(contents.records, p) + [DeletionRecord(contents, now, body)], contents.tombstones)
  }

  lemma DeletionIncreasing(contents: Contents, p: AuditRecord -> bool, now: nat, body: Name)
    requires Increasing(contents.records)
    requires contents.records != [] && contents.records[|contents.records| - 1].sequence < U64_MAX
    ensures Increasing(AfterDeletion(contents, p, now, body).records)
  {
    OthersIncreasing(contents.records, p);
  }

  /** A deletion leaves precisely the records that do not match, in order, and behind them one record more: numbered
      next, dated now. It counts what it deletes, and every tombstone stays. */
  lemma DeletionKeeps(contents: Contents, p: AuditRecord -> bool, now: nat, body: Name, r: AuditRecord)
    requires Increasing(contents.records)
    requires contents.records != [] && contents.records[|contents.records| - 1].sequence < U64_MAX
    ensures var after, last := AfterDeletion(contents, p, now, body), contents.records[|contents.records| - 1];
            var deletion := AuditRecord(last.sequence + 1, now, body);
            && (r in after.records <==> (r in contents.records && !p(r)) || r == deletion)
            && Increasing(after.records) && after.records[|after.records| - 1] == deletion
            && |after.records| + |Chosen(contents.records, p)| == |contents.records| + 1
            && after.tombstones == contents.tombstones
  {
    hide Chosen, Others, Increasing;
    DeletionIncreasing(contents, p, now, body);
    ChosenSplits(contents.records, p);
    ChosenConserves(contents.records, p);
  }

  /** Removing old segments touches none of the new ones. */
  lemma OldElsewhere(d: Disk, copied: Disk, active: seq<nat>, limit: nat, former: seq<nat>, removals: seq<Op>)
    requires Fresh(d, copied, active, limit) && forall n <- former :: n in d.segments
    requires forall op <- removals :: op.Remove? && op.number in former
    ensures forall op <- removals :: Elsewhere(op, active)
  {
  }

  lemma FreshAfterRemoval(d: Disk, copied: Disk, after: Disk, active: seq<nat>, limit: nat, former: seq<nat>)
    requires Fresh(d, copied, active, limit) && forall n <- former :: n in d.segments
    requires after.segments.Keys == copied.segments.Keys - set n <- former
    requires forall n <- after.segments :: n in copied.segments && after.segments[n] == copied.segments[n]
    ensures Fresh(d, after, active, limit)
  {
  }

  /** Replacing the whole log by records and tombstones written into new segments. */
  lemma ReplacementDone(
      c: Codec, d: Disk, before: Contents, copy: seq<Op>, active: seq<nat>, limit: nat,
      records: seq<AuditRecord>, tombstones: seq<Tombstone>, removals: seq<Op>)
    requires AtRest(c, d, before) && Increasing(records)
    requires active != []
    requires Copying(c, d, copy, active, Rewritten(records, tombstones), active[|active| - 1] + 1)
    requires Fresh(d, DoAll(d, copy), active, limit)
    requires forall op <- removals :: op.Remove? && op.number in d.index.active
    ensures var index := Index(active[|active| - 1], active);
            var ops := copy + ([Swap(index)] + removals);
            var after := Contents(records, tombstones);
            && DoAll(d, ops) == DoAll(Do(DoAll(d, copy), Swap(index)), removals)
            && AtRest(c, DoAll(d, ops), after)
            && CrashSafe(c, d, ops, {Loaded(before, false), Loaded(after, false)})
            && (forall n <- DoAll(d, copy).segments :: n <= index.current)
  {
    hide AtRest, CrashSafe, DoAll, Copying, Fresh, IndexOk, Elsewhere, Rewritten, ContentsOf, Increasing;
    var index, entries := Index(active[|active| - 1], active), Rewritten(records, tombstones);
    CopiedIndexOk(c, d, copy, active, entries);
    CurrentExists(c, d, before);
    OldElsewhere(d, DoAll(d, copy), active, limit, d.index.active, removals);
    RewrittenContents(records, tombstones);
    RecordsRewritten(records, tombstones);
    CopyDone(c, d, before, copy, index, entries, active[|active| - 1] + 1, removals);
    assert copy + ([Swap(index)] + removals) == copy + [Swap(index)] + removals;
  }

  lemma RecordsRewritten(records: seq<AuditRecord>, tombstones: seq<Tombstone>)
    ensures Records(Rewritten(records, tombstones)) == records
  {
    RewrittenContents(records, tombstones);
  }

  lemma FreshCreate(d: Disk, copied: Disk, active: seq<nat>, limit: nat, n: nat)
    requires Fresh(d, copied, active, limit) && n !in copied.segments && n !in d.segments
    ensures Fresh(d, Do(copied, Create(n)), active + [n], limit)
  {
  }

  lemma FreshExtend(d: Disk, copied: Disk, active: seq<nat>, limit: nat, n: nat, bytes: Bytes)
    requires Fresh(d, copied, active, limit) && n in copied.segments && |copied.segments[n]| + |bytes| <= limit
    ensures Fresh(d, Do(copied, Extend(n, bytes)), active, limit)
  {
  }

  /** New segments, each beside the old ones and within the limit, filling up one after another. */
  ghost predicate Fresh(d: Disk, copied: Disk, active: seq<nat>, limit: nat) {
    forall n <- active :: n !in d.segments && n in copied.segments && |copied.segments[n]| <= limit
  }
}
