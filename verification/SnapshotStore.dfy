/** The four snapshot files as the registry handles them: step by step, stopping wherever an error or a
    crash stops it. */
module SnapshotStore {
  import opened Common
  import opened SnapshotFiles

  class SnapshotDirectory<T> {
    var main: File<T>
    var next: File<T>
    var retired: File<T>
    var previous: File<T>

    ghost function View(): Dir<T>
      reads this
    {
      Dir(main, next, retired, previous)
    }

    constructor (d: Dir<T>)
      ensures View() == d
    {
      main, next, retired, previous := d.main, d.next, d.retired, d.previous;
    }

    /** The snapshots beside a missing main file, in the order they are looked at. */
    method ReadCandidates() returns (readable: bool, found: seq<Snapshot<T>>)
      ensures readable <==> !retired.Torn? && !previous.Torn?
      ensures readable ==> found == Candidates(View())
    {
      var files := [next, retired, previous];
      found := [];
      var i := 0;
      while i < |files|
        invariant i <= |files|
        invariant (i > 1 ==> !retired.Torn?) && (i > 2 ==> !previous.Torn?)
        invariant found == (if i > 0 then Intact(next) else []) + (if i > 1 then Intact(retired) else [])
                           + (if i > 2 then Intact(previous) else [])
      {
        match files[i] {
          case Whole(generation, value) => found := found + [Snapshot(generation, value)];
          case Torn => if i > 0 { return false, []; }
          case Absent =>
        }
        i := i + 1;
      }
      readable := true;
    }

    /** Keeps the newest candidate, the later one when generations tie. */
    method LoadSnapshot() returns (l: Loaded<T>)
      ensures l == Load(View())
    {
      if main.Whole? { return Found(Snapshot(main.generation, main.value)); }
      if main.Torn? { return Corrupt; }
      var readable, s := ReadCandidates();
      if !readable { return Corrupt; }
      if s == [] { return Nothing; }
      var best, i := 0, 1;
      assert s[..1] == [s[0]];
      while i < |s|
        invariant 1 <= i <= |s| && best == Newest(s[..i])
      {
        assert s[..i + 1][..i] == s[..i];
        if s[i].generation >= s[best].generation { best := i; }
        i := i + 1;
      }
      assert s[..i] == s;
      return Found(s[best]);
    }

    /** Writes `value`, stopping after the given stage. */
    method AtomicWrite(value: T, stage: Stage) returns (written: bool)
      modifies this
      ensures View() == Write(old(View()), value, stage)
      ensures written <==> stage.Complete? && !Load(old(View())).Corrupt?
    {
      var current := LoadSnapshot();
      if current.Corrupt? { return false; }
      var stamp := Snapshot(SatAdd(if current.Found? then current.snapshot.generation else 0, 1), value);
      written := false;
      if stage.Untouched? { return; }
      next := Torn;
      if stage.Truncated? { return; }
      next := Whole(stamp.generation, stamp.value);
      if stage.Staged? { return; }
      retired := Absent;
      if stage.RetiredGone? { return; }
      if !main.Absent? { retired, main := main, Absent; }
      if stage.MainRetired? { return; }
      main, next := next, Absent;
      if stage.Swapped? { return; }
      var exists_ := !retired.Absent?;
      if exists_ { previous := Absent; }
      if stage.PreviousGone? { return; }
      if exists_ { previous, retired := retired, Absent; }
      written := true;
    }
  }
}
