/** A value kept in snapshot files, as its owner meets it again after failed saves and restarts. */
module Persistence {
  import opened Common
  import opened SnapshotFiles

  /** The files of one value, and what it starts as where there are none. `careful` is a history variable:
      no save so far was stopped just where it lost the snapshot it replaced. */
  datatype Copy<+T> = Copy(files: Dir<T>, initial: T, careful: bool)

  /** How far the write of one save gets before an error or a crash stops it, if one does. */
  type Save = Stage

  const SAVED: Save := Complete
  const NOT_SAVED: Save := Untouched

  function NothingSaved<T>(initial: T): (c: Copy<T>)
    ensures Held(c) == initial && c.careful
  {
    Copy(Dir(Absent, Absent, Absent, Absent), initial, true)
  }

  /** What a start finds. */
  function Held<T>(c: Copy<T>): T {
    if Load(c.files).Found? then Load(c.files).snapshot.value else c.initial
  }

  /** The save is not stopped just where it would lose the snapshot it replaces; and there is a generation left
      to stamp it with. */
  predicate Harmless<T>(d: Dir<T>, save: Save) {
    Ordered(d) && Generation(Load(d)) < U64_MAX && (Sheltered(d) || !save.Truncated?)
  }

  /** A save that stopped where `save` says. As long as all saves are harmless there are only two things a start
      can find: what it would have found before, and the value saved. */
  function Persist<T>(c: Copy<T>, value: T, save: Save): (r: Copy<T>)
    ensures r.careful ==> c.careful && (Held(r) == Held(c) || Held(r) == value)
    ensures r.careful && save.Complete? ==> Held(r) == value
  {
    HarmlessWrite(c.files, value, save);
    Copy(Write(c.files, value, save), c.initial, c.careful && Harmless(c.files, save))
  }

  /** A harmless write leaves the old snapshot or the new one, and the new one if it completes. */
  lemma HarmlessWrite<T>(d: Dir<T>, value: T, save: Save)
    ensures var d' := Write(d, value, save);
            Harmless(d, save) ==>
            && Ordered(d')
            && (Load(d') == Load(d) || Load(d') == Found(Stamped(d, value)))
            && (save.Complete? ==> Load(d') == Found(Stamped(d, value)))
  {
    if Harmless(d, save) {
      WriteKeepsOrdered(d, value, save);
      LosesExactly(d, value, save);
      CompleteWrite(d, value);
    }
  }

  /** The copy after `values` have been saved one after the other, each completely. */
  function SavedAll<T>(initial: T, values: seq<T>): Copy<T> {
    if values == [] then NothingSaved(initial)
    else Persist(SavedAll(initial, values[..|values| - 1]), values[|values| - 1], SAVED)
  }

  lemma SavedNothing<T>(initial: T)
    ensures SavedAll(initial, []) == NothingSaved(initial)
  {
  }

  lemma SavedMore<T>(initial: T, values: seq<T>, value: T, all: seq<T>)
    requires all == values + [value]
    ensures Persist(SavedAll(initial, values), value, SAVED) == SavedAll(initial, all)
  {
    assert all[..|values|] == values;
  }

  /** The last of them is in the main file. */
  lemma {:induction false} SavedAllHolds<T>(initial: T, values: seq<T>)
    requires |values| < U64_MAX
    ensures var c := SavedAll(initial, values);
            && c.careful && Ordered(c.files) && Generation(Load(c.files)) == |values|
            && (if values == [] then c == NothingSaved(initial)
                else c.files.main == Whole(|values|, values[|values| - 1])
                     && c.files.next.Absent? && c.files.retired.Absent?
                     && Held(c) == values[|values| - 1])
  {
    if values != [] {
      var c := SavedAll(initial, values[..|values| - 1]);
      SavedAllHolds(initial, values[..|values| - 1]);
      SavedFiles(c, values[|values| - 1]);
    }
  }

  /** The files after one complete save. */
  lemma SavedFiles<T>(c: Copy<T>, value: T)
    requires c.careful && Ordered(c.files) && Generation(Load(c.files)) < U64_MAX
    ensures var c' := Persist(c, value, SAVED);
            && c'.careful && Ordered(c'.files) && Held(c') == value
            && c'.files == Dir(Whole(Generation(Load(c.files)) + 1, value), Absent, Absent, c'.files.previous)
            && Generation(Load(c'.files)) == Generation(Load(c.files)) + 1
  {
    WriteKeepsOrdered(c.files, value, SAVED);
    CompleteWrite(c.files, value);
    LoadOrdered(c.files);
    hide Ordered;
  }

  /** It takes two saves in a row to lose a snapshot: right after one that completed, the next is careful
      wherever it stops. */
  lemma CarefulAfterCompleted<T>(c: Copy<T>, value: T, next: T, save: Save)
    requires Persist(c, value, SAVED).careful && Generation(Load(c.files)) < U64_MAX - 1
    ensures Persist(Persist(c, value, SAVED), next, save).careful
  {
    CompleteWrite(c.files, value);
    WriteKeepsOrdered(c.files, value, SAVED);
  }

  /** A save that stops with the main file retired, over a whole main file. */
  lemma RetiresMain<T>(c: Copy<T>, generation: nat, value: T, newer: T)
    requires c.careful && Ordered(c.files) && generation < U64_MAX
    requires c.files == Dir(Whole(generation, value), Absent, Absent, c.files.previous)
    ensures var r := Persist(c, newer, MainRetired);
            && r.careful && Held(r) == newer && Ordered(r.files) && r.initial == c.initial
            && r.files == Dir(Absent, Whole(generation + 1, newer), Whole(generation, value), c.files.previous)
  {
    LoadOrdered(c.files);
    WriteKeepsOrdered(c.files, newer, MainRetired);
    var r := Persist(c, newer, MainRetired);
    assert r.files == Dir(Absent, Whole(generation + 1, newer), Whole(generation, value), c.files.previous);
    LoadOrdered(r.files);
  }

  /** And the next one, stopped right after emptying `.next`. */
  lemma EmptiesNext<T>(c: Copy<T>, generation: nat, old_: T, newer: T, value: T)
    requires Ordered(c.files)
    requires c.files == Dir(Absent, Whole(generation + 1, newer), Whole(generation, old_), c.files.previous)
    ensures var r := Persist(c, value, Truncated); !r.careful && Held(r) == old_
  {
    LoadOrdered(c.files);
    var r := Persist(c, value, Truncated);
    assert r.files == Dir(Absent, Torn, Whole(generation, old_), c.files.previous);
    LoadOrdered(r.files);
  }

  /** Saves of which the last stopped where its snapshot is only in `.next`. It is found all the same; but the
      next save to come begins by emptying `.next`, and stopped there it brings the one before back. */
  lemma OlderSaveReturns<T>(initial: T, older: seq<T>, newer: T, value: T)
    requires 0 < |older| < U64_MAX - 1
    ensures var c := Persist(SavedAll(initial, older), newer, MainRetired);
            && c.careful && Held(c) == newer
            && !Persist(c, value, Truncated).careful && Held(Persist(c, value, Truncated)) == older[|older| - 1]
  {
    hide Persist, Held, Ordered, SavedAll;
    var c1 := SavedAll(initial, older);
    SavedAllHolds(initial, older);
    RetiresMain(c1, |older|, older[|older| - 1], newer);
    EmptiesNext(Persist(c1, newer, MainRetired), |older|, older[|older| - 1], newer, value);
  }
}
