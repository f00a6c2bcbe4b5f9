/** Retention: segments with records past the cutoff are replaced, and what was deleted is summed up. */
module AuditRetention {
  import opened Common
  import opened AuditFrames
  import opened AuditDisk
  import opened AuditLog
  import opened AuditRewrites

  const DAY_MS: nat := 86_400_000

  function Older(cutoff: nat): AuditRecord -> bool {
    (r: AuditRecord) => r.occurredAt < cutoff
  }

  /** Compaction so far: the segments of the new log, what they replace, and the records left out. */
  datatype Progress = Progress(
    active: seq<nat>,
    replaced: seq<SegmentSummary>,
    replacements: seq<SegmentSummary>,
    deleted: seq<AuditRecord>,
    next: nat)

  /** What the first `i` active segments hold. */
  ghost function UpTo(c: Codec, d: Disk, i: nat): seq<Entry> {
    if i <= |d.index.active| && Gather(c, d.segments, d.index.current, d.index.active[..i]).Log?
    then Gather(c, d.segments, d.index.current, d.index.active[..i]).entries
    else []
  }

  /** The new entries are those of the first `i` segments without the older records, and `deleted` is those. */
  ghost predicate Faithful(c: Codec, d: Disk, i: nat, cutoff: nat, p: Progress, entries: seq<Entry>) {
    && Records(entries) == Others(Records(UpTo(c, d, i)), Older(cutoff))
    && Tombstones(entries) == Tombstones(UpTo(c, d, i))
    && p.deleted == Chosen(Records(UpTo(c, d, i)), Older(cutoff))
  }

  /** Each of the first `i` segments is either kept or replaced, and hashes name the bytes they should. */
  ghost predicate Accounted(c: Codec, d: Disk, copied: Disk, i: nat, p: Progress) {
    && i <= |d.index.active|
    && KeptOrNew(d, i, p)
    && (forall s <- p.replaced :: s.number in d.segments && s.sha == c.sha(d.segments[s.number]))
    && (forall s <- p.replacements :: s.number in copied.segments && s.sha == c.sha(copied.segments[s.number]))
    && (p.next == d.index.current + 1 || d.index.current + 1 in p.active)
  }

  ghost predicate KeptOrNew(d: Disk, i: nat, p: Progress)
    requires i <= |d.index.active|
  {
    && (forall n <- p.active :: n in d.index.active[..i] || n !in d.segments)
    && (forall s <- p.replaced :: s.number in d.index.active[..i] && s.number !in p.active)
    && (forall n <- d.index.active[..i] :: n in p.active || Names(p.replaced, n))
    && (forall s <- p.replacements :: s.number in p.active && s.number !in d.segments)
  }

  ghost predicate Names(summaries: seq<SegmentSummary>, n: nat) {
    exists s <- summaries :: s.number == n
  }

  lemma SegmentAt(c: Codec, d: Disk, contents: Contents, i: nat)
    requires AtRest(c, d, contents) && i < |d.index.active|
    ensures var n := d.index.active[i];
            && n in d.segments && ReadSegment(c, d.segments[n], false).Scan?
            && Intact(c, d.segments[n], ReadSegment(c, d.segments[n], false).entries)
            && UpTo(c, d, i + 1) == UpTo(c, d, i) + ReadSegment(c, d.segments[n], false).entries
            && n !in d.index.active[..i]
  {
    hide ReadSegment;
    StoresUpTo(c, d.segments, d.index.current, d.index.active, i);
  }

  lemma NothingYet(c: Codec, d: Disk)
    ensures UpTo(c, d, 0) == [] && ContentsOf([]) == Contents([], [])
  {
  }

  /** One more segment's records and tombstones. */
  lemma ReadOn(c: Codec, d: Disk, contents: Contents, i: nat)
    requires AtRest(c, d, contents) && i < |d.index.active|
    ensures d.index.active[i] in d.segments && ReadSegment(c, d.segments[d.index.active[i]], false).Scan?
    ensures var found := ReadSegment(c, d.segments[d.index.active[i]], false).entries;
            && Records(UpTo(c, d, i + 1)) == Records(UpTo(c, d, i)) + Records(found)
            && Tombstones(UpTo(c, d, i + 1)) == Tombstones(UpTo(c, d, i)) + Tombstones(found)
  {
    hide ReadSegment, UpTo, AtRest, Records, Tombstones;
    SegmentAt(c, d, contents, i);
    var found := ReadSegment(c, d.segments[d.index.active[i]], false).entries;
    RecordsJoin(UpTo(c, d, i), found);
    TombstonesJoin(UpTo(c, d, i), found);
  }

  lemma WholeLog(c: Codec, d: Disk, contents: Contents)
    requires AtRest(c, d, contents)
    ensures ContentsOf(UpTo(c, d, |d.index.active|)) == contents
  {
    assert d.index.active[..|d.index.active|] == d.index.active;
  }

  /** The next segment's part, with its older records left out. */
  lemma FaithfulStep(
      c: Codec, d: Disk, i: nat, cutoff: nat, p: Progress, entries: seq<Entry>, found: seq<Entry>, more: seq<Entry>,
      q: Progress)
    requires Faithful(c, d, i, cutoff, p, entries) && UpTo(c, d, i + 1) == UpTo(c, d, i) + found
    requires Records(more) == Others(Records(found), Older(cutoff)) && Tombstones(more) == Tombstones(found)
    requires q.deleted == p.deleted + Chosen(Records(found), Older(cutoff))
    ensures Faithful(c, d, i + 1, cutoff, q, entries + more)
  {
    hide UpTo, Records, Tombstones, Others, Chosen;
    RecordsJoin(UpTo(c, d, i), found);
    TombstonesJoin(UpTo(c, d, i), found);
    RecordsJoin(entries, more);
    TombstonesJoin(entries, more);
    ChosenJoin(Records(UpTo(c, d, i)), Records(found), Older(cutoff));
  }

  lemma {:induction false} NothingOlder(records: seq<AuditRecord>, p: AuditRecord -> bool)
    requires Chosen(records, p) == []
    ensures Others(records, p) == records
  {
    if records != [] {
      NothingOlder(records[..|records| - 1], p);
      assert records == records[..|records| - 1] + [records[|records| - 1]];
    }
  }

  /** A segment without older records stays. */
  lemma KeepStep(c: Codec, d: Disk, copied: Disk, i: nat, p: Progress, n: nat)
    requires Accounted(c, d, copied, i, p) && i < |d.index.active| && n == d.index.active[i]
    requires n in d.segments && n !in d.index.active[..i]
    ensures n !in p.active && Accounted(c, d, copied, i + 1, p.(active := p.active + [n]))
  {
    assert d.index.active[..i + 1] == d.index.active[..i] + [n];
  }

  /** A segment with older records is replaced. */
  lemma DropStep(c: Codec, d: Disk, copied: Disk, i: nat, p: Progress, n: nat, deleted: seq<AuditRecord>)
    requires Accounted(c, d, copied, i, p) && i < |d.index.active| && n == d.index.active[i]
    requires n in d.segments && n !in d.index.active[..i]
    ensures var summary := SegmentSummary(n, c.sha(d.segments[n]));
            Accounted(c, d, copied, i + 1, p.(replaced := p.replaced + [summary], deleted := deleted))
  {
    var summary := SegmentSummary(n, c.sha(d.segments[n]));
    assert d.index.active[..i + 1] == d.index.active[..i] + [n];
    forall k | k in d.index.active[..i + 1] ensures k in p.active || Names(p.replaced + [summary], k) {
      if k == n {
        assert summary in p.replaced + [summary];
      } else if k !in p.active {
        var s :| s in p.replaced && s.number == k;
        assert s in p.replaced + [summary];
      }
    }
  }

  /** What is left of it, if anything, is in the next new segment. */
  lemma AddStep(c: Codec, d: Disk, copied: Disk, after: Disk, i: nat, p: Progress)
    requires Accounted(c, d, copied, i, p) && p.next !in d.segments
    requires Grown(copied, after) && p.next in after.segments
    ensures var summary := SegmentSummary(p.next, c.sha(after.segments[p.next]));
            Accounted(c, d, after, i,
              p.(active := p.active + [p.next], replacements := p.replacements + [summary], next := p.next + 1))
  {
  }

  /** Segments were added, and none of those there were changed. */
  ghost predicate Grown(d: Disk, after: Disk) {
    after.index == d.index && forall n <- d.segments :: n in after.segments && after.segments[n] == d.segments[n]
  }

  // ---------------------------------------------------------------- the summary

  function Earliest(records: seq<AuditRecord>): (m: nat)
    ensures forall r <- records :: m <= r.occurredAt
    ensures if records == [] then m == 0 else exists r <- records :: r.occurredAt == m
  {
    if records == [] then 0
    else
      var front, r := records[..|records| - 1], records[|records| - 1];
      assert records == front + [r];
      if front == [] || r.occurredAt < Earliest(front) then r.occurredAt else Earliest(front)
  }

  function Latest(records: seq<AuditRecord>): (m: nat)
    ensures forall r <- records :: r.occurredAt <= m
    ensures if records == [] then m == 0 else exists r <- records :: r.occurredAt == m
  {
    if records == [] then 0
    else
      var front, r := records[..|records| - 1], records[|records| - 1];
      assert records == front + [r];
      if front == [] || r.occurredAt > Latest(front) then r.occurredAt else Latest(front)
  }

  function SummaryOf(p: Progress): Tombstone {
    Tombstone(|p.deleted|, Earliest(p.deleted), Latest(p.deleted), p.replaced, p.replacements)
  }

  /** The tombstone tells what became of the log `d` when it was compacted into `after`: how many records went
      and over what span of time, which segments with what bytes were given up, and which ones replace them. */
  ghost predicate Tells(c: Codec, t: Tombstone, d: Disk, after: Disk, deleted: seq<AuditRecord>) {
    && t.deleted == |deleted|
    && (forall r <- deleted :: t.first <= r.occurredAt <= t.last)
    && (deleted != [] ==>
          (exists r <- deleted :: r.occurredAt == t.first) && (exists r <- deleted :: r.occurredAt == t.last))
    && (forall s <- t.segments :: s.number in d.segments && s.sha == c.sha(d.segments[s.number]))
    && (forall n <- d.index.active :: n !in after.segments <==> Names(t.segments, n))
    && (forall s <- t.replacements ::
          s.number !in d.segments && s.number in after.index.active && s.number in after.segments
          && s.sha == c.sha(after.segments[s.number]))
  }

  function DeletedInAll(tombstones: seq<Tombstone>): nat {
    if tombstones == [] then 0
    else DeletedInAll(tombstones[..|tombstones| - 1]) + tombstones[|tombstones| - 1].deleted
  }

  /** Retention: records at or after the cutoff, in order; every tombstone there was, and the new one. */
  function AfterRetention(contents: Contents, cutoff: nat, t: Tombstone): Contents {
    Contents(Others(contents.records, Older(cutoff)), contents.tombstones + [t])
  }

  /** Retained records and those that tombstones account for add up to what they were. */
  lemma RetentionConserves(contents: Contents, cutoff: nat, t: Tombstone)
    requires t.deleted == |Chosen(contents.records, Older(cutoff))|
    ensures var after := AfterRetention(contents, cutoff, t);
            |after.records| + DeletedInAll(after.tombstones) == |contents.records| + DeletedInAll(contents.tombstones)
  {
    ChosenConserves(contents.records, Older(cutoff));
    assert (contents.tombstones + [t])[..|contents.tombstones|] == contents.tombstones;
  }

  /** Retention keeps precisely the records at or after the cutoff, in order. */
  lemma RetentionKeeps(contents: Contents, cutoff: nat, t: Tombstone, r: AuditRecord)
    requires Increasing(contents.records)
    ensures var after := AfterRetention(contents, cutoff, t);
            && (r in after.records <==> r in contents.records && r.occurredAt >= cutoff)
            && Increasing(after.records)
            && contents.tombstones <= after.tombstones
  {
    ChosenSplits(contents.records, Older(cutoff));
    OthersIncreasing(contents.records, Older(cutoff));
  }

  // ---------------------------------------------------------------- the new log

  /** The summary and the sealed segment complete the new index. */
  function NewIndex(p: Progress, sealed: nat): Index {
    Index(sealed, p.active + [p.next] + [sealed])
  }

  lemma NewIndexOk(c: Codec, d: Disk, copied: Disk, i: nat, p: Progress)
    requires IndexOk(d.index) && i == |d.index.active| - 1
    requires Accounted(c, d, copied, i, p) && Distinct(p.active)
    requires forall n <- d.segments :: n < p.next
    requires p.next !in p.active && d.index.current in d.segments
    ensures d.index.current !in p.active && p.next != d.index.current
    ensures IndexOk(NewIndex(p, d.index.current))
  {
    var x := NewIndex(p, d.index.current).active;
    assert d.index.current !in d.index.active[..i];
  }

  function NumbersOf(summaries: seq<SegmentSummary>): seq<nat> {
    seq(|summaries|, i requires 0 <= i < |summaries| => summaries[i].number)
  }

  lemma NumbersAreNames(summaries: seq<SegmentSummary>, n: nat)
    ensures n in NumbersOf(summaries) <==> Names(summaries, n)
  {
    if Names(summaries, n) {
      var s :| s in summaries && s.number == n;
      var i: nat :| i < |summaries| && summaries[i] == s;
      assert NumbersOf(summaries)[i] == n;
    }
    if n in NumbersOf(summaries) {
      var i: nat :| i < |summaries| && NumbersOf(summaries)[i] == n;
      assert summaries[i] in summaries;
    }
  }

  function SummaryOps(c: Codec, next: nat, t: Tombstone): seq<Op>
    requires Fits(c, Summary(t))
  {
    [Create(next)] + [Extend(next, EntryFrame(c, Summary(t)))]
  }

  /** The summary in a segment of its own and the sealed segment after it complete the copy. */
  lemma SummaryCopied(
      c: Codec, d: Disk, copy: seq<Op>, p: Progress, entries: seq<Entry>, t: Tombstone, sealed: nat)
    requires Lawful(c) && Fits(c, Summary(t))
    requires Copying(c, d, copy, p.active, entries, p.next)
    requires sealed in d.index.active && sealed !in p.active && sealed in d.segments && d.segments[sealed] == []
    ensures var ops := copy + SummaryOps(c, p.next, t);
            && Copying(c, d, ops, NewIndex(p, sealed).active, entries + [Summary(t)], p.next + 1)
            && DoAll(d, ops) == Do(Do(DoAll(d, copy), Create(p.next)), Extend(p.next, EntryFrame(c, Summary(t))))
            && p.next !in DoAll(d, copy).segments
  {
    hide Copying, DoAll, EntryFrame, Fits;
    CopyCreate(c, d, copy, p.active, entries, p.next);
    var active := p.active + [p.next];
    CopyExtend(c, d, copy + [Create(p.next)], active, entries, p.next + 1, Summary(t));
    var ops := copy + [Create(p.next)] + [Extend(p.next, EntryFrame(c, Summary(t)))];
    assert ops == copy + SummaryOps(c, p.next, t);
    assert Intact(c, [], []);
    assert sealed !in active by {
      CopyIsAside(c, d, copy, p.active, entries, p.next);
    }
    CopyKeep(c, d, ops, active, entries + [Summary(t)], p.next + 1, sealed, []);
    assert entries + [Summary(t)] + [] == entries + [Summary(t)];
  }

  /** What the finished copy holds. */
  lemma RetainedContents(
      c: Codec, last: nat, d: Disk, contents: Contents, cutoff: nat, p: Progress, entries: seq<Entry>, t: Tombstone)
    requires last + 1 == |d.index.active|
    requires AtRest(c, d, contents) && d.index.current in d.segments && d.segments[d.index.current] == []
    requires Faithful(c, d, last, cutoff, p, entries)
    ensures ContentsOf(entries + [Summary(t)]) == AfterRetention(contents, cutoff, t)
    ensures p.deleted == Chosen(contents.records, Older(cutoff))
  {
    hide Gather, Records, Tombstones, Others, Chosen, Increasing;
    var i := last;
    SegmentAt(c, d, contents, i);
    WholeLog(c, d, contents);
    assert FrontOf(c, []) == Short(false);
    assert UpTo(c, d, i) + [] == UpTo(c, d, i);
    RecordsJoin(entries, [Summary(t)]);
    TombstonesJoin(entries, [Summary(t)]);
    OneSummary(t);
  }

  lemma OneSummary(t: Tombstone)
    ensures Records([Summary(t)]) == [] && Tombstones([Summary(t)]) == [t]
  {
  }

  /** Swapping over to the finished copy and removing what it replaces. */
  lemma RetentionDone(
      c: Codec, last: nat, d: Disk, contents: Contents, cutoff: nat, copied: Disk, copy: seq<Op>, p: Progress,
      entries: seq<Entry>, removals: seq<Op>)
    requires last + 1 == |d.index.active|
    requires Lawful(c) && Fits(c, Summary(SummaryOf(p)))
    requires AtRest(c, d, contents) && d.index.current in d.segments && d.segments[d.index.current] == []
    requires Copying(c, d, copy, p.active, entries, p.next) && forall n <- d.segments :: n < p.next
    requires Accounted(c, d, copied, last, p)
    requires Faithful(c, d, last, cutoff, p, entries)
    requires forall op <- removals :: op.Remove? && op.number in NumbersOf(p.replaced)
    ensures var t, index := SummaryOf(p), NewIndex(p, d.index.current);
            var more := SummaryOps(c, p.next, t) + [Swap(index)] + removals;
            var after := AfterRetention(contents, cutoff, t);
            && DoAll(d, copy + more) == DoAll(Do(DoAll(d, copy + SummaryOps(c, p.next, t)), Swap(index)), removals)
            && AtRest(c, DoAll(d, copy + more), after) && DoAll(d, copy + more).index == index
            && CrashSafe(c, d, copy + more, {Loaded(contents, false), Loaded(after, false)})
  {
    hide Copying, DoAll, EntryFrame, Fits, AtRest, CrashSafe, Accounted, Faithful, Elsewhere, AfterRetention;
    hide SummaryOps;
    var t, index := SummaryOf(p), NewIndex(p, d.index.current);
    var i := last;
    RestIndexOk(c, d, contents);
    CopyApart(c, d, copy, p.active, entries, p.next);
    NewIndexOk(c, d, copied, i, p);
    SummaryCopied(c, d, copy, p, entries, t, d.index.current);
    RetainedContents(c, last, d, contents, cutoff, p, entries, t);
    RetainedIncreasing(c, d, contents, cutoff, t);
    ReplacedElsewhere(c, d, copied, i, p, removals);
    CopyDone(c, d, contents, copy + SummaryOps(c, p.next, t), index, entries + [Summary(t)], p.next + 1, removals);
    assert copy + (SummaryOps(c, p.next, t) + [Swap(index)] + removals)
           == copy + SummaryOps(c, p.next, t) + [Swap(index)] + removals;
  }

  lemma RestIndexOk(c: Codec, d: Disk, contents: Contents)
    requires AtRest(c, d, contents)
    ensures IndexOk(d.index) && d.index.current in d.index.active
  {
  }

  lemma CopyApart(c: Codec, d: Disk, copy: seq<Op>, active: seq<nat>, entries: seq<Entry>, next: nat)
    requires Copying(c, d, copy, active, entries, next)
    ensures Distinct(active) && next !in active
  {
    hide ReadSegment;
    ActivePresent(c, DoAll(d, copy).segments, 0, active);
  }

  lemma RetainedIncreasing(c: Codec, d: Disk, contents: Contents, cutoff: nat, t: Tombstone)
    requires AtRest(c, d, contents)
    ensures Increasing(AfterRetention(contents, cutoff, t).records)
  {
    RestIncreasing(c, d, contents);
    OthersIncreasing(contents.records, Older(cutoff));
  }

  lemma ReplacedElsewhere(c: Codec, d: Disk, copied: Disk, i: nat, p: Progress, removals: seq<Op>)
    requires IndexOk(d.index) && i == |d.index.active| - 1 && Accounted(c, d, copied, i, p)
    requires forall n <- d.segments :: n < p.next
    requires forall op <- removals :: op.Remove? && op.number in NumbersOf(p.replaced)
    ensures forall op <- removals :: Elsewhere(op, NewIndex(p, d.index.current).active)
  {
    forall op | op in removals ensures Elsewhere(op, NewIndex(p, d.index.current).active) {
      NumbersAreNames(p.replaced, op.number);
      var s :| s in p.replaced && s.number == op.number;
      assert d.index.current !in d.index.active[..i];
    }
  }

  /** The summary tells what happened. */
  lemma SummaryTells(c: Codec, last: nat, d: Disk, copied: Disk, after: Disk, p: Progress)
    requires last + 1 == |d.index.active|
    requires IndexOk(d.index) && Accounted(c, d, copied, last, p)
    requires (forall n <- d.index.active :: n in d.segments) && (forall n <- d.segments :: n in copied.segments)
    requires after.index == NewIndex(p, d.index.current)
    requires copied.segments.Keys - (set n <- NumbersOf(p.replaced)) <= after.segments.Keys
    requires forall n <- NumbersOf(p.replaced) :: n !in after.segments
    requires forall n <- after.segments :: n in copied.segments ==> after.segments[n] == copied.segments[n]
    ensures Tells(c, SummaryOf(p), d, after, p.deleted)
  {
    var i := last;
    forall n | n in d.index.active ensures n !in after.segments <==> Names(p.replaced, n) {
      NumbersAreNames(p.replaced, n);
    }
    forall s | s in p.replacements ensures s.number in after.segments {
      NumbersAreNames(p.replaced, s.number);
    }
  }

  // ---------------------------------------------------------------- what can be too large

  predicate AllFit(c: Codec, entries: seq<Entry>, limit: nat) {
    forall e <- entries :: FrameLength(c.encode(e)) <= limit
  }

  /** What the first segments hold is in the log. */
  lemma {:induction false} UpToIsInLog(c: Codec, d: Disk, contents: Contents, i: nat)
    requires AtRest(c, d, contents) && i <= |d.index.active|
    ensures forall r <- Records(UpTo(c, d, i)) :: r in contents.records
    ensures forall t <- Tombstones(UpTo(c, d, i)) :: t in contents.tombstones
    decreases |d.index.active| - i
  {
    hide UpTo, AtRest, Records, Tombstones;
    if i == |d.index.active| {
      WholeLog(c, d, contents);
    } else {
      UpToIsInLog(c, d, contents, i + 1);
      SegmentAt(c, d, contents, i);
      var found := ReadSegment(c, d.segments[d.index.active[i]], false).entries;
      RecordsJoin(UpTo(c, d, i), found);
      TombstonesJoin(UpTo(c, d, i), found);
    }
  }

  /** What is copied from a segment fits if the whole log would. */
  lemma KeptFits(c: Codec, d: Disk, contents: Contents, i: nat, p: AuditRecord -> bool, limit: nat)
    requires AtRest(c, d, contents) && i < |d.index.active|
    requires AllFit(c, Rewritten(contents.records, contents.tombstones), limit)
    ensures d.index.active[i] in d.segments && ReadSegment(c, d.segments[d.index.active[i]], false).Scan?
    ensures var found := ReadSegment(c, d.segments[d.index.active[i]], false).entries;
            AllFit(c, Rewritten(Others(Records(found), p), Tombstones(found)), limit)
  {
    hide UpTo, AtRest, Records, Tombstones, ReadSegment;
    SegmentAt(c, d, contents, i);
    UpToIsInLog(c, d, contents, i + 1);
    var found := ReadSegment(c, d.segments[d.index.active[i]], false).entries;
    RecordsJoin(UpTo(c, d, i), found);
    TombstonesJoin(UpTo(c, d, i), found);
    ChosenSplits(Records(found), p);
    forall e | e in Rewritten(Others(Records(found), p), Tombstones(found))
      ensures FrameLength(c.encode(e)) <= limit
    {
      InRewritten(Others(Records(found), p), Tombstones(found), e);
      InRewritten(contents.records, contents.tombstones, e);
    }
  }

  lemma InRewritten(records: seq<AuditRecord>, tombstones: seq<Tombstone>, e: Entry)
    ensures e in Rewritten(records, tombstones) <==>
      match e case Record(r) => r in records case Summary(t) => t in tombstones
  {
    match e
    case Record(r) =>
      if r in records {
        var i: nat :| i < |records| && records[i] == r;
        assert RecordEntries(records)[i] == e;
      }
    case Summary(t) =>
      if t in tombstones {
        var i: nat :| i < |tombstones| && tombstones[i] == t;
        assert TombstoneEntries(tombstones)[i] == e;
      }
  }

  /** Compaction of `d` has come as far as segment `i`. */
  ghost predicate Compacting(
      c: Codec, d: Disk, copied: Disk, i: nat, cutoff: nat, p: Progress, copy: seq<Op>, entries: seq<Entry>)
  {
    && copied == DoAll(d, copy)
    && Copying(c, d, copy, p.active, entries, p.next)
    && Accounted(c, d, copied, i, p)
    && Faithful(c, d, i, cutoff, p, entries)
    && p.next > d.index.current && (forall n <- d.segments :: n < p.next) && Grown(d, copied)
  }

  lemma CompactStart(c: Codec, d: Disk, contents: Contents, cutoff: nat)
    requires AtRest(c, d, contents) && forall n <- d.segments :: n <= d.index.current
    ensures Compacting(c, d, d, 0, cutoff, Progress([], [], [], [], d.index.current + 1), [], [])
  {
    CopyStart(c, d, contents, d.index.current + 1);
  }

  /** A segment without older records is kept as it is. */
  lemma CompactKeep(
      c: Codec, d: Disk, contents: Contents, copied: Disk, i: nat, cutoff: nat, p: Progress, copy: seq<Op>,
      entries: seq<Entry>, found: seq<Entry>)
    requires AtRest(c, d, contents) && i < |d.index.active| && d.index.active[i] in d.segments
    requires Compacting(c, d, copied, i, cutoff, p, copy, entries)
    requires ReadSegment(c, d.segments[d.index.active[i]], false).Scan?
    requires found == ReadSegment(c, d.segments[d.index.active[i]], false).entries
    requires Chosen(Records(found), Older(cutoff)) == []
    ensures Compacting(c, d, copied, i + 1, cutoff, p.(active := p.active + [d.index.active[i]]), copy, entries + found)
  {
    hide AtRest, DoAll, Copying, Accounted, Faithful, UpTo, Records, Tombstones, Chosen, Others, ReadSegment, Intact;
    var n := d.index.active[i];
    var q := p.(active := p.active + [n]);
    SegmentAt(c, d, contents, i);
    KeepStep(c, d, copied, i, p, n);
    CopyKeep(c, d, copy, p.active, entries, p.next, n, found);
    NothingOlder(Records(found), Older(cutoff));
    assert p.deleted + [] == p.deleted;
    FaithfulStep(c, d, i, cutoff, p, entries, found, found, q);
  }

  /** A segment with older records is given up: the rest of it is nothing, or is in the next new segment. */
  lemma CompactReplace(
      c: Codec, d: Disk, contents: Contents, copied: Disk, i: nat, cutoff: nat, p: Progress, copy: seq<Op>,
      entries: seq<Entry>, found: seq<Entry>, kept: seq<Entry>, after: Disk, newCopy: seq<Op>)
    requires AtRest(c, d, contents) && i < |d.index.active| && d.index.active[i] in d.segments
    requires Compacting(c, d, copied, i, cutoff, p, copy, entries)
    requires ReadSegment(c, d.segments[d.index.active[i]], false).Scan?
    requires found == ReadSegment(c, d.segments[d.index.active[i]], false).entries
    requires kept == Rewritten(Others(Records(found), Older(cutoff)), Tombstones(found))
    requires if kept == [] then after == copied && newCopy == copy
             else
               && after == DoAll(d, newCopy) && Grown(copied, after) && p.next in after.segments
               && Copying(c, d, newCopy, p.active + [p.next], entries + kept, p.next + 1)
    ensures kept != [] ==> p.next in after.segments
    ensures var p' := Replaced(c, d, p, i, cutoff, found, kept, after);
            Compacting(c, d, after, i + 1, cutoff, p', newCopy, entries + kept)
  {
    hide AtRest, DoAll, Copying, Accounted, Faithful, UpTo, Records, Tombstones, Chosen, Others, ReadSegment, Intact;
    hide Rewritten;
    var n := d.index.active[i];
    var deleted := p.deleted + Chosen(Records(found), Older(cutoff));
    var dropped := p.(replaced := p.replaced + [SegmentSummary(n, c.sha(d.segments[n]))], deleted := deleted);
    SegmentAt(c, d, contents, i);
    DropStep(c, d, copied, i, p, n, deleted);
    RewrittenContents(Others(Records(found), Older(cutoff)), Tombstones(found));
    FaithfulStep(c, d, i, cutoff, p, entries, found, kept, Replaced(c, d, p, i, cutoff, found, kept, after));
    if kept == [] {
      assert entries + kept == entries;
    } else {
      AddStep(c, d, copied, after, i + 1, dropped);
    }
  }

  function Replaced(
      c: Codec, d: Disk, p: Progress, i: nat, cutoff: nat, found: seq<Entry>, kept: seq<Entry>, after: Disk): Progress
    requires i < |d.index.active| && d.index.active[i] in d.segments
    requires kept != [] ==> p.next in after.segments
  {
    var n := d.index.active[i];
    var dropped := p.(
        replaced := p.replaced + [SegmentSummary(n, c.sha(d.segments[n]))],
        deleted := p.deleted + Chosen(Records(found), Older(cutoff)));
    if kept == [] then dropped
    else
      dropped.(
        active := p.active + [p.next],
        replacements := p.replacements + [SegmentSummary(p.next, c.sha(after.segments[p.next]))],
        next := p.next + 1)
  }

  lemma CompactFacts(
      c: Codec, d: Disk, copied: Disk, i: nat, cutoff: nat, p: Progress, copy: seq<Op>, entries: seq<Entry>)
    requires Compacting(c, d, copied, i, cutoff, p, copy, entries)
    ensures copied == DoAll(d, copy) && Copying(c, d, copy, p.active, entries, p.next) && p.next !in d.segments
    ensures CopyingAside(d, copy, p.next) && Grown(d, copied)
    ensures p.next == d.index.current + 1 || d.index.current + 1 in copied.segments
  {
    hide ReadSegment, Faithful;
    ActivePresent(c, copied.segments, 0, p.active);
  }

  function Without(numbers: seq<nat>, n: nat): seq<nat> {
    if numbers == [] then []
    else
      var front, last := Without(numbers[..|numbers| - 1], n), numbers[|numbers| - 1];
      if last == n then front else front + [last]
  }

  lemma {:induction false} WithoutAbsent(numbers: seq<nat>, n: nat)
    requires n !in numbers
    ensures Without(numbers, n) == numbers
  {
    if numbers != [] {
      WithoutAbsent(numbers[..|numbers| - 1], n);
    }
  }

  /** The candidates are the active segments up to the last, which is current. */
  lemma SealedIsLast(c: Codec, d: Disk, contents: Contents)
    requires AtRest(c, d, contents)
    ensures d.index.active != []
    ensures Without(d.index.active, d.index.current) == d.index.active[..|d.index.active| - 1]
  {
    WithoutAbsent(d.index.active[..|d.index.active| - 1], d.index.current);
  }

  lemma SealedApart(
      c: Codec, last: nat, d: Disk, contents: Contents, copied: Disk, cutoff: nat, p: Progress, copy: seq<Op>,
      entries: seq<Entry>)
    requires last + 1 == |d.index.active|
    requires AtRest(c, d, contents) && d.index.current in d.segments
    requires Compacting(c, d, copied, last, cutoff, p, copy, entries)
    ensures d.index.current !in p.active && d.index.current in d.index.active
    ensures IndexOk(NewIndex(p, d.index.current))
  {
    hide Faithful, Load;
    CopyApart(c, d, copy, p.active, entries, p.next);
    NewIndexOk(c, d, copied, last, p);
  }

  lemma FrameOfEntry(c: Codec, e: Entry)
    requires Fits(c, e)
    ensures Frame(c, c.encode(e)) == EntryFrame(c, e)
  {
  }

  lemma CompactParts(
      c: Codec, d: Disk, copied: Disk, i: nat, cutoff: nat, p: Progress, copy: seq<Op>, entries: seq<Entry>)
    requires Compacting(c, d, copied, i, cutoff, p, copy, entries)
    ensures copied == DoAll(d, copy) && Copying(c, d, copy, p.active, entries, p.next) && p.next !in d.segments
    ensures Accounted(c, d, copied, i, p) && Faithful(c, d, i, cutoff, p, entries)
    ensures (forall n <- d.segments :: n < p.next) && Grown(d, copied)
  {
  }

  /** The sealed segment is still there, and so is the number after it. */
  lemma NewNumbers(c: Codec, last: nat, d: Disk, copied: Disk, p: Progress, after: Disk, contents: Contents)
    requires last + 1 == |d.index.active|
    requires Accounted(c, d, copied, last, p) && IndexOk(NewIndex(p, d.index.current))
    requires AtRest(c, after, contents) && after.index == NewIndex(p, d.index.current)
    ensures d.index.current in after.segments && d.index.current + 1 in after.segments
  {
    hide AtRest, KeptOrNew;
    CurrentExists(c, after, contents);
    assert d.index.current + 1 in after.index.active;
  }

  /** Once the summary is written and the replaced segments are gone, the summary is true of the directory. */
  lemma RetentionTold(
      c: Codec, last: nat, d: Disk, copied: Disk, p: Progress, frame: Bytes, after: Disk, contents: Contents,
      before: Contents)
    requires last + 1 == |d.index.active| && AtRest(c, d, before)
    requires Accounted(c, d, copied, last, p) && Grown(d, copied) && p.next !in copied.segments
    requires IndexOk(NewIndex(p, d.index.current))
    requires AtRest(c, after, contents) && after.index == NewIndex(p, d.index.current)
    requires var summarized := Do(Do(copied, Create(p.next)), Extend(p.next, frame));
             && after.segments.Keys == summarized.segments.Keys - (set n <- NumbersOf(p.replaced))
             && forall n <- after.segments :: after.segments[n] == summarized.segments[n]
    ensures Tells(c, SummaryOf(p), d, after, p.deleted)
    ensures d.index.current in after.segments && d.index.current + 1 in after.segments
  {
    hide AtRest, Accounted, IndexOk, NewIndex, SummaryOf, Tells, NumbersOf;
    NewNumbers(c, last, d, copied, p, after, contents);
    RestIndexOk(c, d, before);
    CurrentExists(c, d, before);
    SummaryTells(c, last, d, copied, after, p);
  }

  lemma CompactNumbered(
      c: Codec, d: Disk, copied: Disk, i: nat, cutoff: nat, p: Progress, copy: seq<Op>, entries: seq<Entry>)
    requires Compacting(c, d, copied, i, cutoff, p, copy, entries)
    ensures Numbered(copied)
  {
    CompactFacts(c, d, copied, i, cutoff, p, copy, entries);
  }

  lemma NumberedAbove(d: Disk)
    requires d.index.current + 1 in d.segments
    ensures Numbered(d)
  {
  }

  /** The start of the period that records are kept for. */
  function Cutoff(now: nat, days: nat): nat {
    if now < days * DAY_MS then 0 else now - days * DAY_MS
  }

  /** A record is retained for so many days and not longer; where the clock shows fewer than that many days, all are. */
  lemma RetainedForDays(now: nat, days: nat, r: AuditRecord)
    ensures Older(Cutoff(now, days))(r) <==> r.occurredAt + days * 86_400_000 < now
  {
  }
}
