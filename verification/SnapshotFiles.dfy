/** Crash-safe snapshot files: the main file and its `.next`, `.retired` and `.previous` siblings. */
module SnapshotFiles {
  import opened Common

  /** What reading one file yields. `Torn` is anything the parser rejects: an empty or half written file,
      a foreign schema, a checksum that does not match. A plain JSON value counts as generation 0. */
  datatype File<+T> = Absent | Torn | Whole(generation: nat, value: T)

  datatype Dir<+T> = Dir(main: File<T>, next: File<T>, retired: File<T>, previous: File<T>)

  /** A snapshot as the loader finds it; generation and value together identify the write. */
  datatype Snapshot<+T> = Snapshot(generation: nat, value: T)

  datatype Loaded<+T> = Nothing | Found(snapshot: Snapshot<T>) | Corrupt

  // ---------------------------------------------------------------- loading

  /** Candidates in the loader's order, which matters when generations tie. Only `.next` may be torn. */
  function Candidates<T>(d: Dir<T>): seq<Snapshot<T>> {
    Intact(d.next) + Intact(d.retired) + Intact(d.previous)
  }

  function Intact<T>(f: File<T>): seq<Snapshot<T>> {
    if f.Whole? then [Snapshot(f.generation, f.value)] else []
  }

  /** The last of the candidates with the highest generation: a stable sort, then a pop. */
  function Newest<T>(s: seq<Snapshot<T>>): (i: nat)
    requires s != []
    ensures i < |s| && (forall k | 0 <= k < |s| :: s[k].generation <= s[i].generation)
    ensures forall k | i < k < |s| :: s[k].generation < s[i].generation
  {
    if |s| == 1 then 0
    else
      var i := Newest(s[..|s| - 1]);
      if s[|s| - 1].generation >= s[i].generation then |s| - 1 else i
  }

  function Load<T>(d: Dir<T>): Loaded<T> {
    if d.main.Whole? then Found(Snapshot(d.main.generation, d.main.value))
    else if d.main.Torn? || d.retired.Torn? || d.previous.Torn? then Corrupt
    else
      var s := Candidates(d);
      if s == [] then Nothing else Found(s[Newest(s)])
  }

  /** The generation the next write builds on; `None` when a file that may not be torn is. */
  function PersistedGeneration<T>(d: Dir<T>): Option<nat> {
    match Load(d)
    case Nothing => Some(0)
    case Found(s) => Some(s.generation)
    case Corrupt => None
  }

  // ---------------------------------------------------------------- writing

  /** The durable steps of one write. A crash or an error may stop the write after any of them. */
  datatype Stage = Untouched | Truncated | Staged | RetiredGone | MainRetired | Swapped | PreviousGone | Complete

  function Rank(s: Stage): nat {
    match s
    case Untouched => 0 case Truncated => 1 case Staged => 2 case RetiredGone => 3
    case MainRetired => 4 case Swapped => 5 case PreviousGone => 6 case Complete => 7
  }

  function StageDir<T>(d: Dir<T>, new_: Snapshot<T>, stage: Stage): Dir<T>
    decreases Rank(stage)
  {
    match stage
    case Untouched => d
    case Truncated => d.(next := Torn)
    case Staged => d.(next := Whole(new_.generation, new_.value))
    case RetiredGone => StageDir(d, new_, Staged).(retired := Absent)
    case MainRetired =>
      var d1 := StageDir(d, new_, RetiredGone);
      if d1.main.Absent? then d1 else d1.(main := Absent, retired := d1.main)
    case Swapped =>
      var d1 := StageDir(d, new_, MainRetired);
      d1.(main := d1.next, next := Absent)
    case PreviousGone =>
      var d1 := StageDir(d, new_, Swapped);
      if d1.retired.Absent? then d1 else d1.(previous := Absent)
    case Complete =>
      var d1 := StageDir(d, new_, PreviousGone);
      if d1.retired.Absent? then d1 else d1.(previous := d1.retired, retired := Absent)
  }

  /** The snapshot a write of `value` installs. */
  function Stamped<T>(d: Dir<T>, value: T): Snapshot<T>
    requires !Load(d).Corrupt?
  {
    Snapshot(SatAdd(PersistedGeneration(d).value, 1), value)
  }

  /** A write that reached `stage`; a directory that cannot be read is never written. */
  function Write<T>(d: Dir<T>, value: T, stage: Stage): Dir<T> {
    if Load(d).Corrupt? then d else StageDir(d, Stamped(d, value), stage)
  }

  // ---------------------------------------------------------------- one write, one crash

  predicate Older<T>(f: File<T>, bound: nat) {
    f.Whole? ==> f.generation < bound
  }

  /** The shape every write keeps: only `.next` may be torn, and whichever files can be loaded next to each
      other have rising generations. */
  predicate Ordered<T>(d: Dir<T>) {
    && !d.main.Torn? && !d.retired.Torn? && !d.previous.Torn?
    && (if d.main.Whole? then Older(d.retired, d.main.generation) && Older(d.previous, d.main.generation)
        else
          && (d.next.Whole? ==> Older(d.retired, d.next.generation) && Older(d.previous, d.next.generation))
          && (d.retired.Whole? ==> Older(d.previous, d.retired.generation)))
  }

  /** A write from here cannot lose the snapshot the loader finds: that snapshot is not in `.next`. */
  predicate Sheltered<T>(d: Dir<T>) {
    d.main.Whole? || !d.next.Whole?
  }

  function Generation<T>(l: Loaded<T>): nat {
    if l.Found? then l.snapshot.generation else 0
  }

  /** In an ordered directory without a main file the loader prefers `.next` to `.retired` to `.previous`. */
  lemma LoadOrdered<T>(d: Dir<T>)
    requires Ordered(d)
    ensures Load(d) == if d.main.Whole? then Found(Snapshot(d.main.generation, d.main.value))
                       else if d.next.Whole? then Found(Snapshot(d.next.generation, d.next.value))
                       else if d.retired.Whole? then Found(Snapshot(d.retired.generation, d.retired.value))
                       else if d.previous.Whole? then Found(Snapshot(d.previous.generation, d.previous.value))
                       else Nothing
  {
    if !d.main.Whole? && Candidates(d) != [] {
      var s := Candidates(d);
      assert forall k | 0 < k < |s| :: s[k].generation < s[0].generation;
      var i := Newest(s);
      assert i == 0 by { assert s[0].generation <= s[i].generation; }
    }
  }

  /** `f` is a snapshot beside the main file. */
  ghost predicate Beside<T>(d: Dir<T>, f: File<T>) {
    f.Whole? && (f == d.next || f == d.retired || f == d.previous)
  }

  /** In any directory: a torn file is an error, unless it is `.next` or the main file is whole; the main file comes
      first; without it one with the highest generation beside it does. */
  lemma LoadsExactly<T>(d: Dir<T>)
    ensures Load(d).Corrupt? <==> d.main.Torn? || (d.main.Absent? && (d.retired.Torn? || d.previous.Torn?))
    ensures Load(d).Nothing? <==> d.main.Absent? && d.retired.Absent? && d.previous.Absent? && !d.next.Whole?
    ensures d.main.Whole? ==> Load(d) == Found(Snapshot(d.main.generation, d.main.value))
    ensures d.main.Absent? && Load(d).Found? ==>
              var found := Load(d).snapshot;
              && Beside(d, Whole(found.generation, found.value))
              && forall f: File<T> | Beside(d, f) :: f.generation <= found.generation
  {
    if d.main.Absent? && Load(d).Found? {
      var s := Candidates(d);
      var i := Newest(s);
      FilesAreCandidates(d);
      assert s[i] in s;
      hide Newest, Candidates;
      forall f: File<T> | Beside(d, f) ensures f.generation <= s[i].generation {
        var k :| 0 <= k < |s| && s[k] == Snapshot(f.generation, f.value);
      }
    }
  }

  lemma FilesAreCandidates<T>(d: Dir<T>)
    ensures forall generation, value: T ::
              Snapshot(generation, value) in Candidates(d) <==> Beside(d, Whole(generation, value))
  {
  }

  /** From this stage on the new snapshot is what a restart finds. */
  predicate Committed<T>(d: Dir<T>, stage: Stage) {
    Rank(stage) >= if d.main.Whole? then 4 else 2
  }

  /** The new generation is above everything the directory holds. */
  predicate Tops<T>(d: Dir<T>, new_: Snapshot<T>) {
    && Older(d.main, new_.generation) && Older(d.retired, new_.generation) && Older(d.previous, new_.generation)
  }

  lemma StageKeepsOrdered<T>(d: Dir<T>, new_: Snapshot<T>, stage: Stage)
    requires Ordered(d) && Tops(d, new_)
    ensures Ordered(StageDir(d, new_, stage))
  {
    match stage
    case Untouched =>
    case Truncated =>
    case Staged =>
    case RetiredGone =>
    case MainRetired =>
    case Swapped =>
    case PreviousGone =>
    case Complete =>
  }

  lemma StampedTops<T>(d: Dir<T>, value: T)
    requires Ordered(d) && Generation(Load(d)) < U64_MAX
    ensures !Load(d).Corrupt? && Tops(d, Stamped(d, value))
    ensures Stamped(d, value).generation == Generation(Load(d)) + 1
  {
    LoadOrdered(d);
  }

  lemma WriteKeepsOrdered<T>(d: Dir<T>, value: T, stage: Stage)
    requires Ordered(d) && Generation(Load(d)) < U64_MAX
    ensures Ordered(Write(d, value, stage))
  {
    StampedTops(d, value);
    StageKeepsOrdered(d, Stamped(d, value), stage);
  }

  lemma StageIsAtomic<T>(d: Dir<T>, new_: Snapshot<T>, stage: Stage)
    requires Ordered(d) && Tops(d, new_) && Sheltered(d)
    ensures Load(StageDir(d, new_, stage)) == if Committed(d, stage) then Found(new_) else Load(d)
  {
    StageKeepsOrdered(d, new_, stage);
    LoadOrdered(StageDir(d, new_, stage));
    LoadOrdered(d);
    hide Ordered, Load, Tops;
    match stage
    case Untouched =>
    case Truncated =>
    case Staged =>
    case RetiredGone =>
    case MainRetired =>
    case Swapped =>
    case PreviousGone =>
    case Complete =>
  }

  /** A write that crashes after any stage leaves exactly the old or exactly the new snapshot, and the
      stage alone decides which. */
  lemma WriteIsAtomic<T>(d: Dir<T>, value: T, stage: Stage)
    requires Ordered(d) && Sheltered(d) && Generation(Load(d)) < U64_MAX
    ensures Load(Write(d, value, stage)) == if Committed(d, stage) then Found(Stamped(d, value)) else Load(d)
  {
    StampedTops(d, value);
    StageIsAtomic(d, Stamped(d, value), stage);
  }

  /** A completed write always installs its snapshot in the main file. */
  lemma CompleteWrite<T>(d: Dir<T>, value: T)
    requires Ordered(d) && Generation(Load(d)) < U64_MAX
    ensures var d' := Write(d, value, Complete);
            d'.main.Whole? && Load(d') == Found(Stamped(d, value))
  {
    LoadOrdered(d);
  }

  /** Exactly when a write is crash-safe: when the snapshot being replaced does not sit in `.next`, the file
      the write truncates first. */
  lemma AtomicExactlyWhenSheltered<T>(d: Dir<T>, value: T)
    requires Ordered(d) && Generation(Load(d)) < U64_MAX
    ensures (forall stage :: Load(Write(d, value, stage)) == Load(d)
                             || Load(Write(d, value, stage)) == Found(Stamped(d, value)))
            <==> Sheltered(d)
  {
    LoadOrdered(d);
    if Sheltered(d) {
      forall stage
        ensures Load(Write(d, value, stage)) == Load(d) || Load(Write(d, value, stage)) == Found(Stamped(d, value))
      {
        WriteIsAtomic(d, value, stage);
      }
    } else {
      WriteKeepsOrdered(d, value, Truncated);
      LoadOrdered(Write(d, value, Truncated));
      assert Load(Write(d, value, Truncated)) != Load(d);
    }
  }

  /** Which single stop does the damage: a write loses what was there exactly when it is stopped after
      truncating `.next` while the snapshot it replaces is in there. */
  lemma LosesExactly<T>(d: Dir<T>, value: T, stage: Stage)
    requires Ordered(d) && Generation(Load(d)) < U64_MAX
    ensures var l := Load(Write(d, value, stage));
            (l == Load(d) || l == Found(Stamped(d, value))) <==> Sheltered(d) || !stage.Truncated?
  {
    hide Ordered, Load, Write;
    if Sheltered(d) { WriteIsAtomic(d, value, stage); }
    else if stage.Truncated? { TruncationLoses(d, value); }
    else { OtherStopsKeep(d, value, stage); }
  }

  /** Emptying `.next` leaves the snapshot before. */
  lemma TruncationLoses<T>(d: Dir<T>, value: T)
    requires Ordered(d) && !Sheltered(d) && Generation(Load(d)) < U64_MAX
    ensures var l := Load(Write(d, value, Truncated)); l != Load(d) && l != Found(Stamped(d, value))
  {
    LoadOrdered(d);
    WriteKeepsOrdered(d, value, Truncated);
    LoadOrdered(Write(d, value, Truncated));
  }

  lemma OtherStopsKeep<T>(d: Dir<T>, value: T, stage: Stage)
    requires Ordered(d) && !Sheltered(d) && Generation(Load(d)) < U64_MAX && !stage.Truncated?
    ensures var l := Load(Write(d, value, stage)); l == Load(d) || l == Found(Stamped(d, value))
  {
    var d' := StageDir(d, Stamped(d, value), stage);
    WriteKeepsOrdered(d, value, stage);
    LoadOrdered(d);
    LoadOrdered(d');
    assert Write(d, value, stage) == d';
    hide Ordered, Load, Write;
    match stage
    case Untouched =>
    case Staged =>
    case RetiredGone =>
    case MainRetired =>
    case Swapped =>
    case PreviousGone =>
    case Complete =>
  }

  // ---------------------------------------------------------------- runs of writes

  datatype Attempt<+T> = Attempt(value: T, stage: Stage)

  /** The directory after the first `n` attempts. */
  function After<T>(d: Dir<T>, run: seq<Attempt<T>>, n: nat): Dir<T>
    requires n <= |run|
  {
    if n == 0 then d else Write(After(d, run, n - 1), run[n - 1].value, run[n - 1].stage)
  }

  /** No attempt that starts unsheltered is stopped after truncating `.next`. */
  ghost predicate Disciplined<T>(d: Dir<T>, run: seq<Attempt<T>>) {
    forall i | 0 <= i < |run| :: Sheltered(After(d, run, i)) || !run[i].stage.Truncated?
  }

  /** What one disciplined attempt does to the snapshot a restart would find. */
  ghost predicate Changes<T>(was: Loaded<T>, now: Loaded<T>, attempt: Attempt<T>) {
    var installed := Found(Snapshot(Generation(was) + 1, attempt.value));
    && !was.Corrupt? && !now.Corrupt?
    && (now == was || now == installed)
    && (attempt.stage.Complete? ==> now == installed)
  }

  lemma AttemptChanges<T>(d: Dir<T>, attempt: Attempt<T>)
    requires Ordered(d) && Generation(Load(d)) < U64_MAX && (Sheltered(d) || !attempt.stage.Truncated?)
    ensures var d' := Write(d, attempt.value, attempt.stage);
            Ordered(d') && Changes(Load(d), Load(d'), attempt)
  {
    StampedTops(d, attempt.value);
    WriteKeepsOrdered(d, attempt.value, attempt.stage);
    LosesExactly(d, attempt.value, attempt.stage);
    CompleteWrite(d, attempt.value);
  }

  lemma RunOrdered<T>(d: Dir<T>, run: seq<Attempt<T>>, n: nat)
    requires Ordered(d) && n <= |run| && Generation(Load(d)) + |run| <= U64_MAX && Disciplined(d, run)
    ensures Ordered(After(d, run, n)) && Generation(Load(After(d, run, n))) <= Generation(Load(d)) + n
  {
    if n > 0 {
      RunOrdered(d, run, n - 1);
      hide Ordered, Load, Write;
      AttemptChanges(After(d, run, n - 1), run[n - 1]);
    }
  }

  /** The files behave like one register: each attempt leaves what was there or installs its own snapshot
      under the next generation, and a completed one always does. */
  lemma FilesAreARegister<T>(d: Dir<T>, run: seq<Attempt<T>>, i: nat)
    requires Ordered(d) && i < |run| && Generation(Load(d)) + |run| <= U64_MAX && Disciplined(d, run)
    ensures Changes(Load(After(d, run, i)), Load(After(d, run, i + 1)), run[i])
  {
    hide Ordered, Load, Write;
    RunOrdered(d, run, i);
    AttemptChanges(After(d, run, i), run[i]);
  }

  /** `l` is the snapshot of attempt `i`, under a generation above `floor`. */
  ghost predicate FromAttempt<T>(l: Loaded<T>, run: seq<Attempt<T>>, i: nat, floor: nat) {
    i < |run| && l.Found? && l.snapshot.value == run[i].value && floor < l.snapshot.generation
  }

  /** What restarts would find, before the first attempt and after each. */
  ghost predicate History<T>(loads: seq<Loaded<T>>, run: seq<Attempt<T>>) {
    |loads| == |run| + 1 && forall i | 0 <= i < |run| :: Changes(loads[i], loads[i + 1], run[i])
  }

  lemma {:induction false} HistoryNeverOlder<T>(loads: seq<Loaded<T>>, run: seq<Attempt<T>>, done: nat, n: nat)
    requires History(loads, run) && done < n <= |run| && run[done].stage.Complete?
    ensures exists i :: done <= i < n && FromAttempt(loads[n], run, i, Generation(loads[done]))
    decreases n
  {
    assert Changes(loads[n - 1], loads[n], run[n - 1]);
    if n - 1 == done {
      assert FromAttempt(loads[n], run, done, Generation(loads[done]));
    } else {
      HistoryNeverOlder(loads, run, done, n - 1);
      var i :| done <= i < n - 1 && FromAttempt(loads[n - 1], run, i, Generation(loads[done]));
      assert FromAttempt(loads[n], run, if loads[n] == loads[n - 1] then i else n - 1, Generation(loads[done]));
    }
  }

  /** After a completed attempt the loader returns that attempt's snapshot or a later attempt's, never
      anything older, and its generation has risen. */
  lemma LastCompletedOrLater<T>(d: Dir<T>, run: seq<Attempt<T>>, done: nat, n: nat)
    requires Ordered(d) && Generation(Load(d)) + |run| <= U64_MAX && Disciplined(d, run)
    requires done < n <= |run| && run[done].stage.Complete?
    ensures exists i ::
              done <= i < n && FromAttempt(Load(After(d, run, n)), run, i, Generation(Load(After(d, run, done))))
  {
    var loads := Loads(d, run);
    RunHistory(d, run);
    hide History, Load, After, Ordered, Disciplined;
    HistoryNeverOlder(loads, run, done, n);
  }

  function Loads<T>(d: Dir<T>, run: seq<Attempt<T>>): (loads: seq<Loaded<T>>)
    ensures |loads| == |run| + 1 && forall i | 0 <= i <= |run| :: loads[i] == Load(After(d, run, i))
  {
    seq(|run| + 1, i requires 0 <= i <= |run| => Load(After(d, run, i)))
  }

  lemma RunHistory<T>(d: Dir<T>, run: seq<Attempt<T>>)
    requires Ordered(d) && Generation(Load(d)) + |run| <= U64_MAX && Disciplined(d, run)
    ensures History(Loads(d, run), run)
  {
    hide Load, After, Ordered;
    var loads := Loads(d, run);
    forall i | 0 <= i < |run| ensures Changes(loads[i], loads[i + 1], run[i]) { FilesAreARegister(d, run, i); }
  }

  /** It is enough that no two attempts in a row fail. */
  lemma NoTwoCrashesInARow<T>(d: Dir<T>, run: seq<Attempt<T>>, n: nat)
    requires Ordered(d) && Sheltered(d) && Generation(Load(d)) + |run| <= U64_MAX && n <= |run|
    requires forall i | 0 < i < |run| :: run[i - 1].stage.Complete? || run[i].stage.Complete?
    ensures forall i | 0 <= i < n :: Sheltered(After(d, run, i)) || run[i].stage.Complete?
    ensures Ordered(After(d, run, n)) && Generation(Load(After(d, run, n))) <= Generation(Load(d)) + n
    ensures n == 0 || run[n - 1].stage.Complete? ==> Sheltered(After(d, run, n))
  {
    if n > 0 {
      NoTwoCrashesInARow(d, run, n - 1);
      var e := After(d, run, n - 1);
      AttemptChanges(e, run[n - 1]);
      CompleteWrite(e, run[n - 1].value);
    }
  }

  // ---------------------------------------------------------------- where it fails

  /** Two crashes in a row: the snapshot the first restart found is gone at the second. */
  lemma TwoCrashesForget<T>(a: T, b: T, c: T)
    ensures var d := Write(Write(Dir(Absent, Absent, Absent, Absent), a, Complete), b, MainRetired);
            && Load(d) == Found(Snapshot(2, b))
            && Load(Write(d, c, Truncated)) == Found(Snapshot(1, a))
  {
    var d1: Dir<T> := Write(Dir(Absent, Absent, Absent, Absent), a, Complete);
    assert d1 == Dir(Whole(1, a), Absent, Absent, Absent);
    LoadOrdered(Write(d1, b, MainRetired));
    LoadOrdered(Write(Write(d1, b, MainRetired), c, Truncated));
  }

  /** Three crashes in a row lose even the snapshot whose write had completed. */
  lemma ThreeCrashesLoseACompletedWrite<T>(a: T, b: T, c: T, e: T)
    ensures var d := Write(Dir(Absent, Absent, Absent, Absent), a, Complete);
            && Load(d) == Found(Snapshot(1, a))
            && Load(Write(Write(Write(d, b, MainRetired), c, RetiredGone), e, Truncated)) == Nothing
  {
    var d1: Dir<T> := Write(Dir(Absent, Absent, Absent, Absent), a, Complete);
    assert d1 == Dir(Whole(1, a), Absent, Absent, Absent);
    var d2 := Write(d1, b, MainRetired);
    LoadOrdered(d2);
    var d3 := Write(d2, c, RetiredGone);
    LoadOrdered(d3);
  }
}
