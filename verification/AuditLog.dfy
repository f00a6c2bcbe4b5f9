/** What the audit log's operations mean, and that each of them survives a crash at any step. */
module AuditLog {
  import opened Common
  import opened AuditFrames
  import opened AuditDisk

  // ---------------------------------------------------------------- segments that read cleanly

  /** The segments hold `entries`, with no torn tail anywhere, whichever of them is current. */
  ghost predicate Stores(c: Codec, segments: map<nat, Bytes>, active: seq<nat>, entries: seq<Entry>) {
    forall current: nat :: Gather(c, segments, current, active) == Log(entries, false)
  }

  ghost predicate Distinct(active: seq<nat>) {
    forall j, k | 0 <= j < k < |active| :: active[j] != active[k]
  }

  lemma CleanEitherWay(c: Codec, b: Bytes, may: bool, other: bool)
    requires ReadSegment(c, b, may).Scan? && !ReadSegment(c, b, may).torn
    ensures ReadSegment(c, b, other) == ReadSegment(c, b, may) && Intact(c, b, ReadSegment(c, b, may).entries)
  {
    var s := ReadSegment(c, b, true);
    if may {
      KeptIsIntact(c, b);
      assert b[..s.kept] == b;
      IntactEitherWay(c, b, s.entries);
    } else {
      UncutIsIntact(c, b);
      IntactEitherWay(c, b, ReadSegment(c, b, false).entries);
    }
  }

  lemma {:induction false} UncutIsIntact(c: Codec, b: Bytes)
    requires ReadSegment(c, b, false).Scan?
    ensures Intact(c, b, ReadSegment(c, b, false).entries)
    decreases |b|
  {
    hide FrontOf;
    var f := FrontOf(c, b);
    if f.One? {
      UncutIsIntact(c, b[f.length..]);
    }
  }

  /** A log that reads back without a tear reads the same whichever segment is current. */
  lemma {:induction false} CleanStores(c: Codec, segments: map<nat, Bytes>, current: nat, active: seq<nat>, other: nat)
    requires Gather(c, segments, current, active).Log? && !Gather(c, segments, current, active).torn
    ensures Gather(c, segments, other, active) == Gather(c, segments, current, active)
  {
    hide ReadSegment;
    if active != [] {
      var n := active[|active| - 1];
      CleanStores(c, segments, current, active[..|active| - 1], other);
      CleanEitherWay(c, segments[n], n == current, n == other);
    }
  }

  lemma StoresWhenClean(c: Codec, segments: map<nat, Bytes>, current: nat, active: seq<nat>)
    requires Gather(c, segments, current, active).Log? && !Gather(c, segments, current, active).torn
    ensures Stores(c, segments, active, Gather(c, segments, current, active).entries)
  {
    forall other: nat ensures Gather(c, segments, other, active) == Gather(c, segments, current, active) {
      CleanStores(c, segments, current, active, other);
    }
  }

  lemma StoresFrame(c: Codec, s: map<nat, Bytes>, t: map<nat, Bytes>, active: seq<nat>, entries: seq<Entry>)
    requires Stores(c, s, active, entries) && SameOn(active, s, t)
    ensures Stores(c, t, active, entries)
  {
    forall current: nat ensures Gather(c, t, current, active) == Log(entries, false) {
      GatherFrame(c, s, t, current, active);
    }
  }

  /** One more segment that reads cleanly. */
  lemma StoresMore(c: Codec, s: map<nat, Bytes>, active: seq<nat>, entries: seq<Entry>, n: nat, more: seq<Entry>)
    requires Stores(c, s, active, entries) && n in s && Intact(c, s[n], more)
    ensures Stores(c, s, active + [n], entries + more)
  {
    hide ReadSegment;
    assert (active + [n])[..|active|] == active;
    CleanEitherWay(c, s[n], false, true);
    forall current: nat ensures Gather(c, s, current, active + [n]) == Log(entries + more, false) {
      assert Gather(c, s, current, active) == Log(entries, false);
    }
  }

  /** Every segment of a clean log reads cleanly, and the segments before it hold what comes before. */
  lemma {:induction false} StoresUpTo(c: Codec, s: map<nat, Bytes>, current: nat, active: seq<nat>, i: nat)
    requires Gather(c, s, current, active).Log? && !Gather(c, s, current, active).torn && i < |active|
    ensures var front := Gather(c, s, current, active[..i]);
            && front.Log? && !front.torn
            && active[i] in s && ReadSegment(c, s[active[i]], false).Scan?
            && Intact(c, s[active[i]], ReadSegment(c, s[active[i]], false).entries)
            && Gather(c, s, current, active[..i + 1])
               == Log(front.entries + ReadSegment(c, s[active[i]], false).entries, false)
    decreases |active|
  {
    hide ReadSegment;
    var last := active[|active| - 1];
    CleanEitherWay(c, s[last], last == current, false);
    if i < |active| - 1 {
      var less := active[..|active| - 1];
      StoresUpTo(c, s, current, less, i);
      assert less[..i] == active[..i] && less[..i + 1] == active[..i + 1];
    } else {
      assert active[..i + 1] == active;
    }
  }

  /** A fresh empty segment holds nothing yet. */
  lemma CreateStores(c: Codec, s: map<nat, Bytes>, active: seq<nat>, entries: seq<Entry>, n: nat)
    requires Stores(c, s, active, entries) && n !in active
    ensures Stores(c, s[n := []], active + [n], entries)
  {
    StoresFrame(c, s, s[n := []], active, entries);
    assert Intact(c, [], []);
    StoresMore(c, s[n := []], active, entries, n, []);
    assert entries + [] == entries;
  }

  /** A frame appended to the last segment appends its entry to the log. */
  lemma ExtendStores(c: Codec, s: map<nat, Bytes>, active: seq<nat>, entries: seq<Entry>, e: Entry)
    requires Lawful(c) && Fits(c, e)
    requires active != [] && Distinct(active) && Stores(c, s, active, entries)
    requires active[|active| - 1] in s
    ensures var n := active[|active| - 1];
            Stores(c, s[n := s[n] + EntryFrame(c, e)], active, entries + [e])
  {
    hide ReadSegment, EntryFrame, Fits;
    var n, front := active[|active| - 1], active[..|active| - 1];
    StoresUpTo(c, s, 0, active, |front|);
    StoresWhenClean(c, s, 0, front);
    var before, last := Gather(c, s, 0, front).entries, ReadSegment(c, s[n], false).entries;
    var t := s[n := s[n] + EntryFrame(c, e)];
    AppendReads(c, s[n], last, e);
    assert active[..|front| + 1] == active && front + [n] == active;
    StoresFrame(c, s, t, front, before);
    StoresMore(c, t, front, before, n, last + [e]);
    assert Gather(c, s, 0, active) == Log(entries, false);
    assert before + (last + [e]) == entries + [e];
  }

  /** A directory at rest: its index is in order and its segments read back as `contents` with no tear. */
  ghost predicate AtRest(c: Codec, d: Disk, contents: Contents) {
    IndexOk(d.index) && Load(c, d) == Loaded(contents, false)
  }

  lemma CurrentExists(c: Codec, d: Disk, contents: Contents)
    requires AtRest(c, d, contents)
    ensures d.index.current in d.segments && forall n <- d.index.active :: n in d.segments
  {
    ActivePresent(c, d.segments, d.index.current, d.index.active);
  }

  /** Cutting the torn tail off leaves the same contents, cleanly stored. */
  lemma TruncateMends(c: Codec, d: Disk, contents: Contents, torn: bool)
    requires IndexOk(d.index) && Load(c, d) == Loaded(contents, torn)
    ensures d.index.current in d.segments
    ensures var s := ReadSegment(c, d.segments[d.index.current], true);
            && s.Scan? && s.torn == torn && s.kept <= |d.segments[d.index.current]|
            && (!torn ==> s.kept == |d.segments[d.index.current]|)
            && AtRest(c, Do(d, Truncate(d.index.current, s.kept)), contents)
  {
    hide ReadSegment;
    var n, active := d.index.current, d.index.active;
    var front := active[..|active| - 1];
    NoTearBefore(c, d.segments, n, front);
    var s := ReadSegment(c, d.segments[n], true);
    KeptIsIntact(c, d.segments[n]);
    var t := Do(d, Truncate(n, s.kept)).segments;
    GatherFrame(c, d.segments, t, n, front);
    IntactEitherWay(c, t[n], s.entries);
  }

  lemma {:induction false} NoTearBefore(c: Codec, s: map<nat, Bytes>, current: nat, active: seq<nat>)
    requires current !in active && Gather(c, s, current, active).Log?
    ensures !Gather(c, s, current, active).torn
  {
    if active != [] {
      var n := active[|active| - 1];
      NoTearBefore(c, s, current, active[..|active| - 1]);
      UncutIsWhole(c, s[n]);
    }
  }

  lemma UncutIsWhole(c: Codec, b: Bytes)
    requires ReadSegment(c, b, false).Scan?
    ensures !ReadSegment(c, b, false).torn
  {
    UncutIsIntact(c, b);
  }

  // ---------------------------------------------------------------- rotation

  function Rotated(i: Index): Index {
    Index(i.current + 1, i.active + [i.current + 1])
  }

  function RotateOps(i: Index): seq<Op> {
    [Create(i.current + 1)] + [Swap(Rotated(i))]
  }

  lemma RotatedOk(i: Index)
    requires IndexOk(i) && i.current + 1 !in i.active
    ensures IndexOk(Rotated(i))
  {
  }

  /** A fresh last segment adds nothing to what is read. */
  lemma RotatedReads(c: Codec, d: Disk, contents: Contents)
    requires AtRest(c, d, contents) && d.index.current + 1 !in d.segments
    ensures AtRest(c, Disk(d.segments[d.index.current + 1 := []], Rotated(d.index)), contents)
  {
    hide ReadSegment, IndexOk;
    var i, n := d.index, d.index.current + 1;
    var entries := Gather(c, d.segments, i.current, i.active).entries;
    StoresWhenClean(c, d.segments, i.current, i.active);
    ActivePresent(c, d.segments, i.current, i.active);
    RotatedOk(i);
    CreateStores(c, d.segments, i.active, entries, n);
    assert Gather(c, d.segments[n := []], n, i.active + [n]) == Log(entries, false);
  }

  /** Sealing the current segment, where its successor does not exist, changes no contents at any step. */
  lemma RotateSafe(c: Codec, d: Disk, contents: Contents)
    requires AtRest(c, d, contents) && d.index.current + 1 !in d.segments
    ensures var after := DoAll(d, RotateOps(d.index));
            && after == Disk(d.segments[d.index.current + 1 := []], Rotated(d.index))
            && AtRest(c, after, contents)
            && CrashSafe(c, d, RotateOps(d.index), {Loaded(contents, false)})
  {
    hide Load, IndexOk, CrashSafe;
    var i, n := d.index, d.index.current + 1;
    RotatedReads(c, d, contents);
    assert [Create(n)][..0] == [];
    assert DoAll(d, [Create(n)]) == Do(DoAll(d, []), Create(n));
    CurrentExists(c, d, contents);
    CopySwapRemove(c, d, [Create(n)], Rotated(i), []);
    assert RotateOps(i) + [] == RotateOps(i);
    assert {Loaded(contents, false), Loaded(contents, false)} == {Loaded(contents, false)};
  }

  /** Every active segment of a readable log exists. */
  lemma {:induction false} ActivePresent(c: Codec, s: map<nat, Bytes>, current: nat, active: seq<nat>)
    requires Gather(c, s, current, active).Log?
    ensures forall n <- active :: n in s
  {
    hide ReadSegment;
    if active != [] {
      ActivePresent(c, s, current, active[..|active| - 1]);
    }
  }

  // ---------------------------------------------------------------- appending

  function AppendOps(c: Codec, i: Index, e: Entry): seq<Op>
    requires Fits(c, e)
  {
    [Extend(i.current, EntryFrame(c, e))] + [Swap(i)]
  }

  function Added(contents: Contents, r: AuditRecord): Contents {
    contents.(records := contents.records + [r])
  }

  predicate Follows(contents: Contents, r: AuditRecord) {
    contents.records == [] || contents.records[|contents.records| - 1].sequence < r.sequence
  }

  /** The log with the last frame cut short: everything before it, torn if any of its bytes are there. */
  lemma TornAppend(c: Codec, d: Disk, contents: Contents, e: Entry, cut: nat)
    requires Lawful(c) && Fits(c, e) && AtRest(c, d, contents) && cut < |EntryFrame(c, e)|
    ensures var torn := Do(d, Extend(d.index.current, EntryFrame(c, e)[..cut]));
            Survives(c, torn, {Loaded(contents, cut > 0)})
  {
    hide ReadSegment, EntryFrame, Fits;
    var n, active := d.index.current, d.index.active;
    var front := active[..|active| - 1];
    StoresUpTo(c, d.segments, n, active, |front|);
    var t := Do(d, Extend(n, EntryFrame(c, e)[..cut])).segments;
    TornTailRecovery(c, d.segments[n], ReadSegment(c, d.segments[n], false).entries, e, cut);
    GatherFrame(c, d.segments, t, n, front);
    assert active[..|front| + 1] == active;
  }

  /** The whole frame: the log with the record added. */
  lemma WholeAppend(c: Codec, d: Disk, contents: Contents, r: AuditRecord)
    requires Lawful(c) && Fits(c, Record(r)) && AtRest(c, d, contents) && Follows(contents, r)
    ensures AtRest(c, Do(d, Extend(d.index.current, EntryFrame(c, Record(r)))), Added(contents, r))
  {
    hide ReadSegment, EntryFrame, Fits;
    var i := d.index;
    var entries := Gather(c, d.segments, i.current, i.active).entries;
    StoresWhenClean(c, d.segments, i.current, i.active);
    ActivePresent(c, d.segments, i.current, i.active);
    ExtendStores(c, d.segments, i.active, entries, Record(r));
    RecordsJoin(entries, [Record(r)]);
    TombstonesJoin(entries, [Record(r)]);
    assert Records([Record(r)]) == [r] && Tombstones([Record(r)]) == [];
  }

  /** A crash while appending: the contents before, possibly with a torn tail, or with the record. */
  lemma AppendSafe(c: Codec, d: Disk, contents: Contents, r: AuditRecord)
    requires Lawful(c) && Fits(c, Record(r)) && AtRest(c, d, contents) && Follows(contents, r)
    ensures var ops := AppendOps(c, d.index, Record(r));
            && DoAll(d, ops) == Do(d, Extend(d.index.current, EntryFrame(c, Record(r))))
            && AtRest(c, DoAll(d, ops), Added(contents, r))
            && CrashSafe(c, d, ops, AppendOutcomes(contents, r))
  {
    hide Load, IndexOk, EntryFrame, Fits;
    var frame := EntryFrame(c, Record(r));
    var extend, swap := Extend(d.index.current, frame), Swap(d.index);
    var ops := AppendOps(c, d.index, Record(r));
    WholeAppend(c, d, contents, r);
    assert ops[..0] == [] && ops[..1] == [extend] && ops[..2] == ops && [extend][..0] == [];
    assert DoAll(d, [extend]) == Do(DoAll(d, []), extend);
    assert DoAll(d, ops) == Do(DoAll(d, [extend]), swap);
    var outcomes := AppendOutcomes(contents, r);
    forall done: nat, cut: nat | done <= |ops| ensures Survives(c, CrashAt(d, ops, done, cut), outcomes) {
      if done == 0 && cut < |frame| {
        TornAppend(c, d, contents, Record(r), cut);
      } else if done == 0 && cut == |frame| {
        assert frame[..cut] == frame;
      }
    }
  }

  /** What may be read back after a crash while `r` is appended. */
  function AppendOutcomes(contents: Contents, r: AuditRecord): set<Loaded> {
    {Loaded(contents, false), Loaded(contents, true), Loaded(Added(contents, r), false)}
  }

  /** Some byte of a frame has reached the disk. */
  predicate Begun(ops: seq<Op>, done: nat, cut: nat)
    requires done <= |ops|
  {
    || (exists k | 0 <= k < done :: ops[k].Extend?)
    || (done < |ops| && ops[done].Extend? && 0 < cut <= |ops[done].bytes|)
  }

  predicate NoFrames(ops: seq<Op>) {
    forall op <- ops :: !op.Extend?
  }

  /** A crash leaves `contents`, with no tear, exactly where no byte of the frame has been written. */
  ghost predicate SilentUntilBegun(c: Codec, d: Disk, ops: seq<Op>, contents: Contents) {
    forall done: nat, cut: nat | done <= |ops| ::
      Load(c, CrashAt(d, ops, done, cut)) == Loaded(contents, false) <==> !Begun(ops, done, cut)
  }

  lemma AppendSilent(c: Codec, d: Disk, contents: Contents, r: AuditRecord)
    requires Lawful(c) && Fits(c, Record(r)) && AtRest(c, d, contents) && Follows(contents, r)
    ensures SilentUntilBegun(c, d, AppendOps(c, d.index, Record(r)), contents)
  {
    hide Load, IndexOk, EntryFrame, Fits;
    var frame := EntryFrame(c, Record(r));
    var extend, swap := Extend(d.index.current, frame), Swap(d.index);
    var ops := AppendOps(c, d.index, Record(r));
    WholeAppend(c, d, contents, r);
    assert ops[..0] == [] && ops[..1] == [extend] && ops[..2] == ops && [extend][..0] == [];
    assert DoAll(d, [extend]) == Do(DoAll(d, []), extend);
    assert DoAll(d, ops) == Do(DoAll(d, [extend]), swap);
    assert ops[0] == extend && Added(contents, r) != contents;
    forall done: nat, cut: nat | done <= |ops|
      ensures Load(c, CrashAt(d, ops, done, cut)) == Loaded(contents, false) <==> !Begun(ops, done, cut)
    {
      if done == 0 && cut < |frame| {
        TornAppend(c, d, contents, Record(r), cut);
      } else if done == 0 && cut == |frame| {
        assert frame[..cut] == frame;
        EntryFrameSize(c, Record(r));
      }
    }
  }

  lemma EntryFrameSize(c: Codec, e: Entry)
    requires Lawful(c) && Fits(c, e)
    ensures |EntryFrame(c, e)| > 0
  {
    assert |BigEndian(|c.encode(e)|)| == 4;
  }

  /** Steps that write no frame and keep what is read do not matter in front. */
  lemma SilentJoin(c: Codec, d: Disk, a: seq<Op>, b: seq<Op>, contents: Contents)
    requires NoFrames(a) && CrashSafe(c, d, a, {Loaded(contents, false)})
    requires SilentUntilBegun(c, DoAll(d, a), b, contents)
    ensures SilentUntilBegun(c, d, a + b, contents)
  {
    hide Load, IndexOk;
    forall done: nat, cut: nat | done <= |a + b|
      ensures Load(c, CrashAt(d, a + b, done, cut)) == Loaded(contents, false) <==> !Begun(a + b, done, cut)
    {
      if done < |a| {
        assert (a + b)[..done] == a[..done];
        assert CrashAt(d, a + b, done, cut) == CrashAt(d, a, done, cut);
        assert Survives(c, CrashAt(d, a, done, cut), {Loaded(contents, false)});
      } else {
        CrashLater(d, a, b, done, cut);
        BegunLater(a, b, done, cut);
      }
    }
  }

  lemma BegunLater(a: seq<Op>, b: seq<Op>, done: nat, cut: nat)
    requires NoFrames(a) && |a| <= done <= |a| + |b|
    ensures Begun(a + b, done, cut) <==> Begun(b, done - |a|, cut)
  {
    if k :| 0 <= k < done - |a| && b[k].Extend? { assert (a + b)[|a| + k] == b[k]; }
    if k :| 0 <= k < done && (a + b)[k].Extend? { assert k >= |a| && (a + b)[k] == b[k - |a|]; }
  }

  lemma RotateAppendSilent(c: Codec, d: Disk, contents: Contents, r: AuditRecord)
    requires Lawful(c) && Fits(c, Record(r)) && AtRest(c, d, contents) && Follows(contents, r)
    requires d.index.current + 1 !in d.segments
    ensures SilentUntilBegun(c, d, RotateOps(d.index) + AppendOps(c, Rotated(d.index), Record(r)), contents)
  {
    RotateSafe(c, d, contents);
    hide AtRest, CrashSafe, Follows, Fits, AppendOps, DoAll, SilentUntilBegun;
    var sealed := DoAll(d, RotateOps(d.index));
    AppendSilent(c, sealed, contents, r);
    SilentJoin(c, d, RotateOps(d.index), AppendOps(c, sealed.index, Record(r)), contents);
  }

  lemma NothingSilent(c: Codec, d: Disk, contents: Contents)
    requires AtRest(c, d, contents)
    ensures SilentUntilBegun(c, d, [], contents)
  {
    assert DoAll(d, []) == d;
  }

  lemma NothingSafe(c: Codec, d: Disk, contents: Contents, outcomes: set<Loaded>)
    requires AtRest(c, d, contents) && Loaded(contents, false) in outcomes
    ensures DoAll(d, []) == d && CrashSafe(c, d, [], outcomes)
  {
    hide Load, IndexOk, CrashSafe;
    AsideSafe(c, d, []);
    CrashSafeWiden(c, d, [], {Loaded(contents, false)}, outcomes);
  }

  /** Sealing the segment first and then appending is as safe as appending. */
  lemma RotateAppendSafe(c: Codec, d: Disk, contents: Contents, r: AuditRecord)
    requires Lawful(c) && Fits(c, Record(r)) && AtRest(c, d, contents) && Follows(contents, r)
    requires d.index.current + 1 !in d.segments
    ensures var ops := RotateOps(d.index) + AppendOps(c, Rotated(d.index), Record(r));
            && DoAll(d, ops) == DoAll(DoAll(d, RotateOps(d.index)), AppendOps(c, Rotated(d.index), Record(r)))
            && AtRest(c, DoAll(d, ops), Added(contents, r))
            && CrashSafe(c, d, ops, AppendOutcomes(contents, r))
  {
    hide AtRest, CrashSafe, Follows, Fits, AppendOps, RotateOps, DoAll;
    var outcomes := AppendOutcomes(contents, r);
    RotateSafe(c, d, contents);
    CrashSafeWiden(c, d, RotateOps(d.index), {Loaded(contents, false)}, outcomes);
    var sealed := DoAll(d, RotateOps(d.index));
    AppendSafe(c, sealed, contents, r);
    CrashSafeJoin(c, d, RotateOps(d.index), AppendOps(c, sealed.index, Record(r)), outcomes);
  }

  // ---------------------------------------------------------------- opening

  /** Where the torn tail starts. */
  function MendOps(c: Codec, d: Disk): seq<Op> {
    if d.index.current !in d.segments then []
    else
      var s := ReadSegment(c, d.segments[d.index.current], true);
      if s.Scan? && s.torn then [Truncate(d.index.current, s.kept)] else []
  }

  /** The current segment without its torn tail. */
  function Mended(c: Codec, d: Disk): Bytes {
    if d.index.current !in d.segments then []
    else
      var b := d.segments[d.index.current];
      var s := ReadSegment(c, b, true);
      if s.Scan? && s.kept <= |b| then b[..s.kept] else b
  }

  lemma MendSafe(c: Codec, d: Disk, contents: Contents, torn: bool)
    requires IndexOk(d.index) && Load(c, d) == Loaded(contents, torn)
    ensures torn <==> MendOps(c, d) != []
    ensures AtRest(c, DoAll(d, MendOps(c, d)), contents) && DoAll(d, MendOps(c, d)).index == d.index
    ensures CrashSafe(c, d, MendOps(c, d), {Loaded(contents, torn), Loaded(contents, false)})
  {
    hide ReadSegment, IndexOk, CrashSafe, Load;
    var outcomes := {Loaded(contents, torn), Loaded(contents, false)};
    TruncateMends(c, d, contents, torn);
    if torn {
      StepSafe(c, d, MendOps(c, d)[0]);
    } else {
      assert MendOps(c, d) == [];
      NothingSafe(c, d, contents, outcomes) by {
        WholeIsMended(c, d, contents);
      }
    }
  }

  lemma WholeIsMended(c: Codec, d: Disk, contents: Contents)
    requires IndexOk(d.index) && Load(c, d) == Loaded(contents, false)
    ensures AtRest(c, d, contents)
  {
  }

  lemma MendedSegments(c: Codec, d: Disk)
    requires IndexOk(d.index) && Load(c, d).Loaded?
    ensures var mended := DoAll(d, MendOps(c, d));
            && mended.index == d.index && mended.segments.Keys == d.segments.Keys
            && d.index.current in mended.segments && mended.segments[d.index.current] == Mended(c, d)
            && (forall n <- d.index.active :: n in mended.segments)
  {
    hide ReadSegment;
    ActivePresent(c, d.segments, d.index.current, d.index.active);
    TruncateMends(c, d, Load(c, d).contents, Load(c, d).torn);
    if MendOps(c, d) != [] {
      assert MendOps(c, d)[..0] == [];
    }
  }

  /** Opening: the torn tail is cut off, stray segments are removed, the index is written again. */
  lemma OpenSafe(c: Codec, d: Disk, contents: Contents, torn: bool, removals: seq<Op>)
    requires IndexOk(d.index) && Load(c, d) == Loaded(contents, torn)
    requires forall op <- removals :: Elsewhere(op, d.index.active)
    ensures var mended := DoAll(d, MendOps(c, d));
            var cleared := DoAll(mended, removals);
            var ops := MendOps(c, d) + removals + [Swap(d.index)];
            && DoAll(d, ops) == cleared && cleared.index == d.index
            && AtRest(c, cleared, contents)
            && CrashSafe(c, d, ops, {Loaded(contents, torn), Loaded(contents, false)})
  {
    hide IndexOk, CrashSafe, Load, MendOps, Elsewhere;
    var outcomes := {Loaded(contents, torn), Loaded(contents, false)};
    var mended := DoAll(d, MendOps(c, d));
    var cleared := DoAll(mended, removals);
    MendSafe(c, d, contents, torn);
    AsideSafe(c, mended, removals);
    StepSafe(c, cleared, Swap(d.index));
    CrashSafeWiden(c, mended, removals, {Loaded(contents, false)}, outcomes);
    CrashSafeWiden(c, cleared, [Swap(d.index)], {Loaded(contents, false), Loaded(contents, false)}, outcomes);
    CrashSafeJoin(c, d, MendOps(c, d), removals, outcomes);
    CrashSafeJoin(c, d, MendOps(c, d) + removals, [Swap(d.index)], outcomes);
  }

  /** A crash leaves a log that is neither torn nor carries a report of the tear exactly where the first step,
      the truncation, is done and no byte of the report's frame has been written. */
  ghost predicate TearForgotten(c: Codec, d: Disk, ops: seq<Op>, contents: Contents) {
    ops != [] && ops[0].Truncate?
    && forall done: nat, cut: nat | done <= |ops| ::
         Load(c, CrashAt(d, ops, done, cut)) == Loaded(contents, false) <==> done > 0 && !Begun(ops, done, cut)
  }

  /** Opening a torn log forgets the tear with its very first step. */
  lemma OpenForgets(c: Codec, d: Disk, contents: Contents, removals: seq<Op>)
    requires IndexOk(d.index) && Load(c, d) == Loaded(contents, true)
    requires forall op <- removals :: op.Remove? && Elsewhere(op, d.index.active)
    ensures var ops := MendOps(c, d) + removals + [Swap(d.index)];
            NoFrames(ops) && TearForgotten(c, d, ops, contents)
  {
    hide IndexOk, CrashSafe, Load, MendOps, Elsewhere, AtRest, DoAll, NoFrames, TearForgotten;
    MendIsTruncate(c, d, contents);
    MendSafe(c, d, contents, true);
    var mends, rest := MendOps(c, d), removals + [Swap(d.index)];
    ClearSafe(c, DoAll(d, mends), contents, removals);
    NoFramesAfter(mends, removals, d.index);
    AfterMending(c, d, mends, rest, contents);
    assert mends + rest == mends + removals + [Swap(d.index)];
  }

  lemma NoFramesAfter(mends: seq<Op>, removals: seq<Op>, index: Index)
    requires |mends| == 1 && mends[0].Truncate? && forall op <- removals :: op.Remove?
    ensures NoFrames(removals + [Swap(index)]) && NoFrames(mends + removals + [Swap(index)])
  {
  }

  /** Removing strays and writing the index again changes nothing that is read. */
  lemma ClearSafe(c: Codec, d: Disk, contents: Contents, removals: seq<Op>)
    requires AtRest(c, d, contents)
    requires forall op <- removals :: Elsewhere(op, d.index.active)
    ensures CrashSafe(c, d, removals + [Swap(d.index)], {Loaded(contents, false)})
  {
    hide IndexOk, CrashSafe, Load, Elsewhere;
    var cleared := DoAll(d, removals);
    AsideSafe(c, d, removals);
    StepSafe(c, cleared, Swap(d.index));
    CrashSafeWiden(c, cleared, [Swap(d.index)], {Loaded(contents, false), Loaded(contents, false)},
                   {Loaded(contents, false)});
    CrashSafeJoin(c, d, removals, [Swap(d.index)], {Loaded(contents, false)});
  }

  lemma AfterMending(c: Codec, d: Disk, mends: seq<Op>, rest: seq<Op>, contents: Contents)
    requires Load(c, d) == Loaded(contents, true) && |mends| == 1 && mends[0].Truncate? && NoFrames(rest)
    requires CrashSafe(c, DoAll(d, mends), rest, {Loaded(contents, false)})
    ensures TearForgotten(c, d, mends + rest, contents)
  {
    hide IndexOk, CrashSafe, Load, CrashAt;
    var ops := mends + rest;
    assert ops[0] == mends[0];
    forall done: nat, cut: nat | done <= |ops|
      ensures Load(c, CrashAt(d, ops, done, cut)) == Loaded(contents, false) <==> done > 0 && !Begun(ops, done, cut)
    {
      if done == 0 {
        NothingDone(d, ops, cut);
      } else {
        CrashLater(d, mends, rest, done, cut);
        SafeAt(c, DoAll(d, mends), rest, contents, done - 1, cut);
        NeverBegun(mends, rest, done, cut);
      }
    }
  }

  lemma NothingDone(d: Disk, ops: seq<Op>, cut: nat)
    requires ops != [] && !ops[0].Extend?
    ensures CrashAt(d, ops, 0, cut) == d
  {
    assert ops[..0] == [];
  }

  lemma NeverBegun(mends: seq<Op>, rest: seq<Op>, done: nat, cut: nat)
    requires |mends| == 1 && mends[0].Truncate? && NoFrames(rest) && done <= |mends + rest|
    ensures !Begun(mends + rest, done, cut)
  {
  }

  lemma MendIsTruncate(c: Codec, d: Disk, contents: Contents)
    requires IndexOk(d.index) && Load(c, d) == Loaded(contents, true)
    ensures |MendOps(c, d)| == 1 && MendOps(c, d)[0].Truncate?
  {
    hide ReadSegment;
    TruncateMends(c, d, contents, true);
  }

  lemma SafeAt(c: Codec, d: Disk, ops: seq<Op>, contents: Contents, done: nat, cut: nat)
    requires CrashSafe(c, d, ops, {Loaded(contents, false)}) && done <= |ops|
    ensures Load(c, CrashAt(d, ops, done, cut)) == Loaded(contents, false)
  {
    hide Load, CrashAt, IndexOk;
    assert Survives(c, CrashAt(d, ops, done, cut), {Loaded(contents, false)});
  }

  /** It stays forgotten until the report begins. */
  lemma ForgottenUntilReported(c: Codec, d: Disk, first: seq<Op>, ops: seq<Op>, contents: Contents)
    requires NoFrames(first) && TearForgotten(c, d, first, contents)
    requires SilentUntilBegun(c, DoAll(d, first), ops, contents)
    ensures TearForgotten(c, d, first + ops, contents)
  {
    hide Load;
    forall done: nat, cut: nat | done <= |first + ops|
      ensures Load(c, CrashAt(d, first + ops, done, cut)) == Loaded(contents, false)
              <==> done > 0 && !Begun(first + ops, done, cut)
    {
      if done < |first| {
        assert (first + ops)[..done] == first[..done];
        assert CrashAt(d, first + ops, done, cut) == CrashAt(d, first, done, cut);
        assert !Begun(first, done, cut);
      } else {
        CrashLater(d, first, ops, done, cut);
        BegunLater(first, ops, done, cut);
      }
    }
  }

  /** An instance: a log whose only frame was cut. Opening it cuts the rest off; after a crash right there the
      next opening finds an empty log and nothing to report. */
  lemma TornFirstFrame(c: Codec, e: Entry, cut: nat)
    requires Lawful(c) && Fits(c, e) && 0 < cut < |EntryFrame(c, e)|
    ensures var d := Disk(map[0 := EntryFrame(c, e)[..cut]], Index(0, [0]));
            && IndexOk(d.index) && Load(c, d) == Loaded(Contents([], []), true)
            && MendOps(c, d) == [Truncate(0, 0)]
            && Load(c, CrashAt(d, MendOps(c, d) + [Swap(d.index)], 1, 0)) == Loaded(Contents([], []), false)
  {
    hide EntryFrame, Fits, Load, MendOps, CrashAt, ReadSegment, TearForgotten;
    var d := Disk(map[0 := EntryFrame(c, e)[..cut]], Index(0, [0]));
    TornFirstSegment(c, e, cut);
    TornAlone(c, d);
    OpenForgets(c, d, Contents([], []), []);
    ForgottenAfterMending(c, d, Contents([], []), MendOps(c, d) + [] + [Swap(d.index)]);
    assert MendOps(c, d) + [] + [Swap(d.index)] == MendOps(c, d) + [Swap(d.index)];
  }

  lemma TornFirstSegment(c: Codec, e: Entry, cut: nat)
    requires Lawful(c) && Fits(c, e) && 0 < cut < |EntryFrame(c, e)|
    ensures ReadSegment(c, EntryFrame(c, e)[..cut], true) == Scan([], 0, true)
  {
    hide EntryFrame, Fits;
    assert Intact(c, [], []);
    TornTailRecovery(c, [], [], e, cut);
    assert [] + EntryFrame(c, e)[..cut] == EntryFrame(c, e)[..cut];
  }

  lemma TornAlone(c: Codec, d: Disk)
    requires d.index == Index(0, [0]) && 0 in d.segments && ReadSegment(c, d.segments[0], true) == Scan([], 0, true)
    ensures Load(c, d) == Loaded(Contents([], []), true) && MendOps(c, d) == [Truncate(0, 0)]
  {
    hide ReadSegment;
    assert [0][..0] == [];
    assert Gather(c, d.segments, 0, [0]) == Log([], true);
  }

  lemma ForgottenAfterMending(c: Codec, d: Disk, contents: Contents, ops: seq<Op>)
    requires NoFrames(ops) && TearForgotten(c, d, ops, contents)
    ensures |ops| >= 1 && Load(c, CrashAt(d, ops, 1, 0)) == Loaded(contents, false)
  {
    hide Load, CrashAt;
    assert !Begun(ops, 1, 0);
  }

  function MaxSequence(records: seq<AuditRecord>): (m: U64)
    ensures records == [] ==> m == 0
    ensures forall r <- records :: r.sequence <= m
    ensures records != [] ==> exists r <- records :: r.sequence == m
  {
    if records == [] then 0
    else
      var m, r := MaxSequence(records[..|records| - 1]), records[|records| - 1];
      assert records == records[..|records| - 1] + [r];
      if r.sequence >= m then r.sequence else m
  }

  /** The record that reports a torn tail: numbered after all others, dated like the last. */
  function Notice(contents: Contents, body: Name): AuditRecord {
    AuditRecord(
      (MaxSequence(contents.records) + 1) % (U64_MAX + 1),
      if contents.records == [] then 0 else contents.records[|contents.records| - 1].occurredAt,
      body)
  }

  lemma WrapsAtEnd(m: U64)
    ensures m < (m + 1) % (U64_MAX + 1) <==> m < U64_MAX
    ensures m < U64_MAX ==> (m + 1) % (U64_MAX + 1) == m + 1
  {
  }

  /** Only past the last 64-bit number does the report not follow the records there are. */
  lemma NoticeFollows(contents: Contents, body: Name)
    requires Increasing(contents.records)
    ensures Follows(contents, Notice(contents, body)) <==>
      contents.records == [] || contents.records[|contents.records| - 1].sequence < U64_MAX
  {
    hide MaxSequence, Increasing;
    WrapsAtEnd(MaxSequence(contents.records));
    if contents.records != [] {
      LastIsMax(contents.records);
    }
  }

  lemma NothingIsMax()
    ensures MaxSequence([]) == 0
  {
  }

  lemma NoticeUnfolds(contents: Contents, body: Name, m: U64, number: U64)
    requires m == MaxSequence(contents.records) && number == (m + 1) % (U64_MAX + 1)
    ensures Notice(contents, body).sequence == number && Notice(contents, body).body == body
    ensures Notice(contents, body).occurredAt
            == if contents.records == [] then 0 else contents.records[|contents.records| - 1].occurredAt
  {
    hide MaxSequence;
  }

  /** Where it does, it is the next one, dated like the last. */
  lemma NoticeIsNext(contents: Contents, body: Name)
    requires Increasing(contents.records)
    requires contents.records != [] ==> contents.records[|contents.records| - 1].sequence < U64_MAX
    ensures Notice(contents, body)
            == if contents.records == [] then AuditRecord(1, 0, body)
               else
                 var last := contents.records[|contents.records| - 1];
                 AuditRecord(last.sequence + 1, last.occurredAt, body)
  {
    hide MaxSequence, Increasing, Notice;
    var m := MaxSequence(contents.records);
    if contents.records == [] { NothingIsMax(); } else { LastIsMax(contents.records); }
    WrapsAtEnd(m);
    NoticeUnfolds(contents, body, m, m + 1);
  }

  lemma {:induction false} LastIsMax(records: seq<AuditRecord>)
    requires Increasing(records) && records != []
    ensures MaxSequence(records) == records[|records| - 1].sequence
  {
    if |records| > 1 {
      LastIsMax(records[..|records| - 1]);
    }
  }

  // ---------------------------------------------------------------- choosing records

  function Chosen(records: seq<AuditRecord>, p: AuditRecord -> bool): seq<AuditRecord> {
    if records == [] then []
    else
      var front, r := Chosen(records[..|records| - 1], p), records[|records| - 1];
      if p(r) then front + [r] else front
  }

  function Others(records: seq<AuditRecord>, p: AuditRecord -> bool): seq<AuditRecord> {
    if records == [] then []
    else
      var front, r := Others(records[..|records| - 1], p), records[|records| - 1];
      if p(r) then front else front + [r]
  }

  lemma {:induction false} ChosenJoin(a: seq<AuditRecord>, b: seq<AuditRecord>, p: AuditRecord -> bool)
    ensures Chosen(a + b, p) == Chosen(a, p) + Chosen(b, p)
    ensures Others(a + b, p) == Others(a, p) + Others(b, p)
  {
    if b == [] {
      assert a + b == a;
    } else {
      ChosenJoin(a, b[..|b| - 1], p);
      assert (a + b)[..|a + b| - 1] == a + b[..|b| - 1];
    }
  }

  /** Choosing splits the records: each side holds what belongs there and all of it. */
  lemma {:induction false} ChosenSplits(records: seq<AuditRecord>, p: AuditRecord -> bool)
    ensures forall r :: r in Chosen(records, p) <==> r in records && p(r)
    ensures forall r :: r in Others(records, p) <==> r in records && !p(r)
  {
    if records != [] {
      ChosenSplits(records[..|records| - 1], p);
      assert records == records[..|records| - 1] + [records[|records| - 1]];
    }
  }

  /** Nothing is lost or made up by choosing. */
  lemma {:induction false} ChosenConserves(records: seq<AuditRecord>, p: AuditRecord -> bool)
    ensures |Chosen(records, p)| + |Others(records, p)| == |records|
    ensures multiset(Chosen(records, p)) + multiset(Others(records, p)) == multiset(records)
  {
    if records != [] {
      ChosenConserves(records[..|records| - 1], p);
      assert records == records[..|records| - 1] + [records[|records| - 1]];
    }
  }

  lemma {:induction false} NoneChosen(records: seq<AuditRecord>, p: AuditRecord -> bool)
    requires forall r <- records :: !p(r)
    ensures Chosen(records, p) == []
  {
    if records != [] {
      NoneChosen(records[..|records| - 1], p);
    }
  }

  lemma ChosenFromSome(records: seq<AuditRecord>, p: AuditRecord -> bool)
    requires Chosen(records, p) != []
    ensures records != []
  {
  }

  lemma {:induction false} OthersIncreasing(records: seq<AuditRecord>, p: AuditRecord -> bool)
    requires Increasing(records)
    ensures Increasing(Others(records, p))
    ensures Others(records, p) != [] ==>
      Others(records, p)[|Others(records, p)| - 1].sequence <= records[|records| - 1].sequence
  {
    if records != [] {
      OthersIncreasing(records[..|records| - 1], p);
    }
  }

  // ---------------------------------------------------------------- entries for a rewrite

  function RecordEntries(records: seq<AuditRecord>): seq<Entry> {
    seq(|records|, i requires 0 <= i < |records| => Record(records[i]))
  }

  function TombstoneEntries(tombstones: seq<Tombstone>): seq<Entry> {
    seq(|tombstones|, i requires 0 <= i < |tombstones| => Summary(tombstones[i]))
  }

  lemma {:induction false} OnlyRecords(records: seq<AuditRecord>)
    ensures Records(RecordEntries(records)) == records && Tombstones(RecordEntries(records)) == []
  {
    if records != [] {
      OnlyRecords(records[..|records| - 1]);
      assert RecordEntries(records)[..|records| - 1] == RecordEntries(records[..|records| - 1]);
    }
  }

  lemma {:induction false} OnlyTombstones(tombstones: seq<Tombstone>)
    ensures Tombstones(TombstoneEntries(tombstones)) == tombstones && Records(TombstoneEntries(tombstones)) == []
  {
    if tombstones != [] {
      OnlyTombstones(tombstones[..|tombstones| - 1]);
      assert TombstoneEntries(tombstones)[..|tombstones| - 1] == TombstoneEntries(tombstones[..|tombstones| - 1]);
    }
  }

  /** Records first, then tombstones, read back as just those. */
  function Rewritten(records: seq<AuditRecord>, tombstones: seq<Tombstone>): (entries: seq<Entry>) {
    RecordEntries(records) + TombstoneEntries(tombstones)
  }

  lemma RewrittenContents(records: seq<AuditRecord>, tombstones: seq<Tombstone>)
    ensures ContentsOf(Rewritten(records, tombstones)) == Contents(records, tombstones)
  {
    OnlyRecords(records);
    OnlyTombstones(tombstones);
    RecordsJoin(RecordEntries(records), TombstoneEntries(tombstones));
    TombstonesJoin(RecordEntries(records), TombstoneEntries(tombstones));
  }
}
