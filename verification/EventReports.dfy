/** The events of progress reports: what of a report is stored behind what is stored already. */
module EventReports {
  import opened Common
  import opened RegistryState

  ghost predicate HasSequence(events: seq<Event>, sequence: nat) {
    exists e :: e in events && e.sequence == sequence
  }

  /** Event `i` of the batch is the first with its number, in store and batch. */
  ghost predicate IsNew(stored: seq<Event>, batch: seq<Event>, i: nat)
    requires i < |batch|
  {
    !HasSequence(stored, batch[i].sequence) && !HasSequence(batch[..i], batch[i].sequence)
  }

  /** From `stored` to `now` the new events of the batch have been added, unchanged and in their order, and nothing
      else: what was added brought new numbers only. */
  ghost predicate Added(stored: seq<Event>, batch: seq<Event>, now: seq<Event>) {
    && stored <= now && Subsequence(now[|stored|..], batch)
    && (forall i | 0 <= i < |batch| && IsNew(stored, batch, i) :: batch[i] in now[|stored|..])
    && (forall i, k | |stored| <= k < |now| && 0 <= i < k :: now[i].sequence != now[k].sequence)
  }

  /** Each number is stored once. */
  ghost predicate Distinct(events: seq<Event>) {
    forall i, k | 0 <= i < k < |events| :: events[i].sequence != events[k].sequence
  }

  lemma NewBehind(stored: seq<Event>, more: seq<Event>, batch: seq<Event>, i: nat)
    requires batch != [] && 0 < i < |batch| && IsNew(stored, batch, i)
    requires more == stored || more == stored + [batch[0]]
    ensures IsNew(more, batch[1..], i - 1)
  {
    assert batch[0] in batch[..i];
    forall e | e in batch[1..][..i - 1] ensures e in batch[..i] {
      var k :| 0 <= k < i - 1 && batch[1..][k] == e;
      assert batch[..i][k + 1] == e;
    }
  }

  lemma AddsFirst(stored: seq<Event>, batch: seq<Event>, now: seq<Event>)
    requires batch != [] && !HasSequence(stored, batch[0].sequence) && Added(stored + [batch[0]], batch[1..], now)
    ensures Added(stored, batch, now)
  {
    var more := stored + [batch[0]];
    assert now[|stored|] == batch[0] && now[|stored|..] == [batch[0]] + now[|more|..];
    forall i | 0 <= i < |batch| && IsNew(stored, batch, i) ensures batch[i] in now[|stored|..] {
      if i > 0 {
        NewBehind(stored, more, batch, i);
        assert batch[i] in now[|more|..];
      }
    }
    forall i, k | |stored| <= k < |now| && 0 <= i < k ensures now[i].sequence != now[k].sequence {
      if k == |stored| { assert now[i] == stored[i] && stored[i] in stored; }
    }
  }

  lemma SkipsFirst(stored: seq<Event>, batch: seq<Event>, now: seq<Event>)
    requires batch != [] && HasSequence(stored, batch[0].sequence) && Added(stored, batch[1..], now)
    ensures Added(stored, batch, now)
  {
    forall i | 0 <= i < |batch| && IsNew(stored, batch, i) ensures batch[i] in now[|stored|..] {
      if i > 0 { NewBehind(stored, stored, batch, i); }
    }
  }

  /** A report adds its new events. */
  lemma {:induction false} AddEventsAdds(stored: seq<Event>, batch: seq<Event>)
    ensures Added(stored, batch, AddEvents(stored, batch))
    decreases |batch|
  {
    if batch != [] {
      if exists e | e in stored :: e.sequence == batch[0].sequence {
        AddEventsAdds(stored, batch[1..]);
        SkipsFirst(stored, batch, AddEvents(stored, batch));
      } else {
        AddEventsAdds(stored + [batch[0]], batch[1..]);
        AddsFirst(stored, batch, AddEvents(stored, batch));
      }
    }
  }

  /** Numbers that were distinct stay so. */
  lemma AddedKeepsDistinct(stored: seq<Event>, batch: seq<Event>, now: seq<Event>)
    requires Added(stored, batch, now) && Distinct(stored)
    ensures Distinct(now)
  {
    forall i, k | 0 <= i < k < |now| ensures now[i].sequence != now[k].sequence {
      if k < |stored| { assert now[i] == stored[i] && now[k] == stored[k]; }
    }
  }
}
