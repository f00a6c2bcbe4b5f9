/** Paging through the audit log: following the cursors lists every matching record once, in order. */
module AuditQueries {
  import opened Common
  import opened AuditFrames
  import opened AuditDisk
  import opened AuditLog
  import opened AuditStores

  const MAX_PAGE_RECORDS: nat := 256
  const MAX_PAGE_BYTES: nat := 1024 * 1024

  /** Lengths of encoded records and cursors. */
  datatype Lengths = Lengths(record: AuditRecord -> nat, cursor: nat -> nat)

  datatype Query = Query(matches: AuditRecord -> bool, after: nat, limit: nat)

  datatype Page = Page(items: seq<AuditRecord>, next: Option<nat>)

  datatype Answer = Answered(page: Page) | Rejected(error: AuditError)

  function Wants(q: Query): AuditRecord -> bool {
    (r: AuditRecord) => r.sequence > q.after && q.matches(r)
  }

  /** Everything the query still has to return. */
  function Wanted(records: seq<AuditRecord>, q: Query): seq<AuditRecord> {
    Chosen(records, Wants(q))
  }

  function ItemBytes(l: Lengths, items: seq<AuditRecord>): nat {
    if items == [] then 0
    else
      var front := items[..|items| - 1];
      ItemBytes(l, front) + l.record(items[|items| - 1]) + if front == [] then 0 else 1
  }

  /** The encoded page: the items between brackets, the cursor behind them. */
  predicate PageFits(l: Lengths, items: seq<AuditRecord>)
    requires items != []
  {
    10 + ItemBytes(l, items) + 16 + l.cursor(items[|items| - 1].sequence) + 1 <= MAX_PAGE_BYTES
  }

  /** The longest page that stays within the limits at every item. */
  ghost predicate IsPage(l: Lengths, wanted: seq<AuditRecord>, limit: nat, items: seq<AuditRecord>) {
    && items <= wanted && |items| <= limit
    && (forall k | 0 < k <= |items| :: PageFits(l, wanted[..k]))
    && (|items| == |wanted| || |items| == limit || !PageFits(l, wanted[..|items| + 1]))
  }

  function LastSequence(records: seq<AuditRecord>): nat {
    if records == [] then 0 else records[|records| - 1].sequence
  }

  function NextCursor(items: seq<AuditRecord>): Option<nat> {
    if items == [] then None else Some(items[|items| - 1].sequence)
  }

  lemma NoItems(l: Lengths)
    ensures ItemBytes(l, []) == 0
  {
  }

  /** The largest number there is, so no cursor that a page ends with is ahead. */
  lemma NeverAhead(records: seq<AuditRecord>, q: Query)
    requires Increasing(records)
    ensures forall r <- records :: r.sequence <= LastSequence(records)
    ensures records != [] ==> exists r <- records :: r.sequence == LastSequence(records)
    ensures forall items: seq<AuditRecord> | items != [] && items <= Wanted(records, q) ::
              NextCursor(items).Some? && NextCursor(items).value <= LastSequence(records)
  {
    hide Increasing, Chosen;
    forall r | r in records ensures r.sequence <= LastSequence(records) {
      var i: nat :| i < |records| && records[i] == r;
      if i < |records| - 1 { IncreasingAt(records, i, |records| - 1); }
    }
    ChosenSplits(records, Wants(q));
    forall items: seq<AuditRecord> | items != [] && items <= Wanted(records, q)
      ensures NextCursor(items).Some? && NextCursor(items).value <= LastSequence(records)
    {
      assert items[|items| - 1] in Wanted(records, q);
    }
  }

  /** Items and cursors as text. */
  datatype Texts = Texts(record: AuditRecord -> string, cursor: nat -> string)

  function Listed(t: Texts, items: seq<AuditRecord>): string {
    if items == [] then ""
    else if |items| == 1 then t.record(items[0])
    else Listed(t, items[..|items| - 1]) + "," + t.record(items[|items| - 1])
  }

  /** A page as it is sent. */
  function Encoded(t: Texts, items: seq<AuditRecord>): string
    requires items != []
  {
    "{\"items\":[" + Listed(t, items) + "],\"next_cursor\":" + t.cursor(items[|items| - 1].sequence) + "}"
  }

  lemma {:induction false} ListedLength(t: Texts, l: Lengths, items: seq<AuditRecord>)
    requires forall r :: l.record(r) == |t.record(r)|
    ensures |Listed(t, items)| == ItemBytes(l, items)
  {
    if items != [] {
      ListedLength(t, l, items[..|items| - 1]);
      if |items| == 1 {
        NoItems(l);
        assert items[..0] == [];
      }
    }
  }

  /** What is counted while a page is filled is the length of the page as it is sent: at most one mebibyte. */
  lemma FitsAsSent(t: Texts, l: Lengths, items: seq<AuditRecord>)
    requires forall r :: l.record(r) == |t.record(r)|
    requires forall n :: l.cursor(n) == |t.cursor(n)|
    requires items != []
    ensures PageFits(l, items) <==> |Encoded(t, items)| <= 1024 * 1024
  {
    ListedLength(t, l, items);
    hide Listed, ItemBytes;
  }

  /** A page with one more item. */
  lemma OneMoreItem(l: Lengths, wanted: seq<AuditRecord>, i: nat)
    requires i < |wanted|
    ensures var candidate := ItemBytes(l, wanted[..i]) + l.record(wanted[i]) + if i == 0 then 0 else 1;
            && wanted[..i + 1] == wanted[..i] + [wanted[i]] && ItemBytes(l, wanted[..i + 1]) == candidate
            && (PageFits(l, wanted[..i + 1]) <==>
                  10 + candidate + 16 + l.cursor(wanted[i].sequence) + 1 <= MAX_PAGE_BYTES)
  {
    assert wanted[..i + 1][..i] == wanted[..i] && wanted[..i + 1][i] == wanted[i];
  }

  lemma PageEnds(l: Lengths, wanted: seq<AuditRecord>, limit: nat, i: nat)
    requires i <= |wanted| && i <= limit && forall k | 0 < k <= i :: PageFits(l, wanted[..k])
    requires i == |wanted| || i == limit || !PageFits(l, wanted[..i + 1])
    ensures IsPage(l, wanted, limit, wanted[..i])
  {
    hide PageFits;
  }

  /** One page over the records in memory. */
  method RunQuery(records: seq<AuditRecord>, available: bool, l: Lengths, q: Query) returns (answer: Answer)
    ensures match answer
            case Answered(page) =>
              available && 0 < q.limit <= MAX_PAGE_RECORDS && q.after <= LastSequence(records)
            case Rejected(error) =>
              error == (if !available then AuditUnavailable
                       else if q.limit == 0 || q.limit > MAX_PAGE_RECORDS then LimitExceeded
                       else CursorAhead)
              && (error.CursorAhead? ==> q.after > LastSequence(records))
    ensures answer.Answered? ==>
      && IsPage(l, Wanted(records, q), q.limit, answer.page.items)
      && answer.page.next == NextCursor(answer.page.items)
  {
    if !available { return Rejected(AuditUnavailable); }
    if q.limit == 0 || q.limit > MAX_PAGE_RECORDS { return Rejected(LimitExceeded); }
    if q.after > LastSequence(records) { return Rejected(CursorAhead); }
    hide ItemBytes, PageFits, Wanted, IsPage;
    var items, encodedItemsBytes := [], 0;
    var wanted := Wanted(records, q);
    NoItems(l);
    for i := 0 to |wanted|
      invariant |items| == i < q.limit && items == wanted[..i] && encodedItemsBytes == ItemBytes(l, items)
      invariant forall k | 0 < k <= i :: PageFits(l, wanted[..k])
    {
      var record := wanted[i];
      OneMoreItem(l, wanted, i);
      var candidate := encodedItemsBytes + l.record(record) + if items == [] then 0 else 1;
      if 10 + candidate + 16 + l.cursor(record.sequence) + 1 > MAX_PAGE_BYTES {
        PageEnds(l, wanted, q.limit, i);
        return Answered(Page(items, NextCursor(items)));
      }
      items := items + [record];
      encodedItemsBytes := candidate;
      if |items| == q.limit {
        PageEnds(l, wanted, q.limit, i + 1);
        return Answered(Page(items, NextCursor(items)));
      }
    }
    PageEnds(l, wanted, q.limit, |wanted|);
    return Answered(Page(items, NextCursor(items)));
  }

  /** Resuming behind a record of the answer asks for exactly what follows it. */
  lemma {:induction false} Resuming(records: seq<AuditRecord>, q: Query, k: nat)
    requires Increasing(records) && 0 < k <= |Wanted(records, q)|
    ensures Wanted(records, q.(after := Wanted(records, q)[k - 1].sequence)) == Wanted(records, q)[k..]
  {
    var front, wanted := records[..|records| - 1], Wanted(records, q);
    var later := q.(after := wanted[k - 1].sequence);
    var r := records[|records| - 1];
    if Wants(q)(r) && k == |wanted| {
      WantedOnlyBefore(front, later, r);
    } else {
      Resuming(front, q, k);
      if Wants(q)(r) {
        assert wanted[k..] == Wanted(front, q)[k..] + [r];
        ChosenSplits(front, Wants(q));
        assert Wanted(front, q)[k - 1] in front;
        EarlierThanLast(records, Wanted(front, q)[k - 1]);
      } else {
        assert !Wants(later)(r) || q.matches(r);
        ChosenSplits(front, Wants(q));
        assert Wanted(front, q)[k - 1] in front;
      }
    }
  }

  lemma EarlierThanLast(records: seq<AuditRecord>, r: AuditRecord)
    requires Increasing(records) && records != [] && r in records[..|records| - 1]
    ensures r.sequence < records[|records| - 1].sequence
  {
    var i: nat :| i < |records| - 1 && records[i] == r;
    IncreasingAt(records, i, |records| - 1);
  }

  lemma {:induction false} IncreasingAt(records: seq<AuditRecord>, i: nat, j: nat)
    requires Increasing(records) && i < j < |records|
    ensures records[i].sequence < records[j].sequence
  {
    if i + 1 < j {
      IncreasingAt(records, i, j - 1);
    }
    assert records[j - 1].sequence < records[j].sequence;
  }

  /** Nothing before the record that the cursor names is wanted. */
  lemma WantedOnlyBefore(front: seq<AuditRecord>, q: Query, r: AuditRecord)
    requires Increasing(front + [r]) && q.after == r.sequence
    ensures Chosen(front, Wants(q)) == []
  {
    forall x | x in front ensures !Wants(q)(x) {
      EarlierThanLast(front + [r], x);
    }
    NoneChosen(front, Wants(q));
  }

  /** What a reader collects who follows the cursors over `pages`, each of which answers the query. */
  ghost predicate Follow(l: Lengths, records: seq<AuditRecord>, q: Query, pages: seq<seq<AuditRecord>>)
    decreases |pages|
  {
    pages == []
    || (IsPage(l, Wanted(records, q), q.limit, pages[0])
        && if pages[0] == [] then |pages| == 1
           else Follow(l, records, q.(after := NextCursor(pages[0]).value), pages[1..]))
  }

  function Joined(pages: seq<seq<AuditRecord>>): seq<AuditRecord> {
    if pages == [] then [] else pages[0] + Joined(pages[1..])
  }

  /** Following the cursors never repeats or skips a record: what has been collected is a prefix of everything
      that matches and is numbered above the cursor (see `FromTheStart`); and once a page is empty it is all of
      it, unless the next record alone exceeds a page. */
  lemma {:induction false} PagesListEverything(l: Lengths, records: seq<AuditRecord>, q: Query,
                                               pages: seq<seq<AuditRecord>>)
    requires Increasing(records) && 0 < q.limit && Follow(l, records, q, pages)
    ensures Joined(pages) <= Wanted(records, q)
    ensures pages != [] && pages[|pages| - 1] == [] ==>
      || Joined(pages) == Wanted(records, q)
      || !PageFits(l, [Wanted(records, q)[|Joined(pages)|]])
    decreases |pages|
  {
    var wanted := Wanted(records, q);
    if pages != [] && pages[0] == [] {
      assert Joined(pages[1..]) == [];
      if wanted != [] {
        assert wanted[..1] == [wanted[0]];
      }
    } else if pages != [] {
      var k := |pages[0]|;
      var later := q.(after := pages[0][k - 1].sequence);
      Resuming(records, q, k);
      PagesListEverything(l, records, later, pages[1..]);
      assert wanted == pages[0] + wanted[k..];
    }
  }

  /** The records without one numbered 0, which only the first can be. */
  function AboveZero(records: seq<AuditRecord>): seq<AuditRecord> {
    if records != [] && records[0].sequence == 0 then records[1..] else records
  }

  /** A record numbered 0, which an empty log accepts, is the one record no query ever lists. Without a cursor
      everything else that matches is wanted. */
  lemma FromTheStart(records: seq<AuditRecord>, q: Query)
    requires Increasing(records)
    ensures forall r <- Wanted(records, q) :: r.sequence > 0
    ensures q.after == 0 ==> Wanted(records, q) == Chosen(AboveZero(records), q.matches)
  {
    hide Chosen, Increasing, AboveZero;
    ChosenSplits(records, Wants(q));
    if q.after == 0 {
      RestAboveZero(records);
      ZeroIsNotWanted(records, q);
      SameChoice(AboveZero(records), Wants(q), q.matches);
    }
  }

  lemma RestAboveZero(records: seq<AuditRecord>)
    requires Increasing(records)
    ensures forall r <- AboveZero(records) :: r.sequence > 0
  {
    hide Increasing;
    var rest := AboveZero(records);
    forall r <- rest ensures r.sequence > 0 {
      var i: nat :| i < |rest| && rest[i] == r;
      var j := i + |records| - |rest|;
      assert records[j] == r;
      if j > 0 { IncreasingAt(records, 0, j); }
    }
  }

  lemma ZeroIsNotWanted(records: seq<AuditRecord>, q: Query)
    requires q.after == 0
    ensures Wanted(records, q) == Chosen(AboveZero(records), Wants(q))
  {
    var rest := AboveZero(records);
    if rest != records {
      NoneOfOne(records[0], Wants(q));
      hide Chosen;
      assert records == [records[0]] + rest;
      ChosenJoin([records[0]], rest, Wants(q));
    }
  }

  lemma NoneOfOne(r: AuditRecord, p: AuditRecord -> bool)
    requires !p(r)
    ensures Chosen([r], p) == []
  {
    NoneChosen([r], p);
  }

  lemma {:induction false} SameChoice(records: seq<AuditRecord>, p: AuditRecord -> bool, o: AuditRecord -> bool)
    requires forall r <- records :: p(r) == o(r)
    ensures Chosen(records, p) == Chosen(records, o)
  {
    if records != [] { SameChoice(records[..|records| - 1], p, o); }
  }
}
