/** Audit segments byte by byte: framed entries, and reading them back with or without a torn tail. */
module AuditFrames {
  import opened Common

  const MAX_SEGMENT_BYTES: nat := 64 * 1024 * 1024
  const HASH_BYTES: nat := 32

  datatype AuditRecord = AuditRecord(sequence: U64, occurredAt: nat, body: Name)

  /** A segment is named by its number and the hash of its bytes. */
  datatype SegmentSummary = SegmentSummary(number: nat, sha: Bytes)

  datatype Tombstone = Tombstone(
    deleted: nat,
    first: nat,
    last: nat,
    segments: seq<SegmentSummary>,
    replacements: seq<SegmentSummary>)

  datatype Entry = Record(record: AuditRecord) | Summary(tombstone: Tombstone)

  /** JSON and SHA-256 as given functions. */
  datatype Codec = Codec(encode: Entry -> Bytes, decode: Bytes -> Option<Entry>, sha: Bytes -> Bytes)

  ghost predicate Lawful(c: Codec) {
    && (forall e :: c.decode(c.encode(e)) == Some(e))
    && (forall b :: |c.sha(b)| == HASH_BYTES)
  }

  /** Four bytes, most significant first. */
  function BigEndian(n: nat): (b: Bytes)
    requires n < 0x1_0000_0000
    ensures |b| == 4
  {
    [(n / 0x100_0000) as Byte, (n / 0x1_0000 % 0x100) as Byte, (n / 0x100 % 0x100) as Byte, (n % 0x100) as Byte]
  }

  function FromBigEndian(b: Bytes): nat
    requires |b| == 4
  {
    b[0] as nat * 0x100_0000 + b[1] as nat * 0x1_0000 + b[2] as nat * 0x100 + b[3] as nat
  }

  lemma BigEndianRoundTrip(n: nat)
    requires n < 0x1_0000_0000
    ensures FromBigEndian(BigEndian(n)) == n
  {
    assert n / 0x1_0000 == n / 0x100_0000 * 0x100 + n / 0x1_0000 % 0x100;
    assert n / 0x100 == n / 0x1_0000 * 0x100 + n / 0x100 % 0x100;
  }

  function Frame(c: Codec, payload: Bytes): Bytes
    requires |payload| < 0x1_0000_0000
  {
    BigEndian(|payload|) + payload + c.sha(payload)
  }

  function FrameLength(payload: Bytes): nat {
    |payload| + 4 + HASH_BYTES
  }

  /** The entry's frame fits a segment. */
  predicate Fits(c: Codec, e: Entry) {
    FrameLength(c.encode(e)) <= MAX_SEGMENT_BYTES
  }

  function EntryFrame(c: Codec, e: Entry): Bytes
    requires Fits(c, e)
  {
    Frame(c, c.encode(e))
  }

  // ---------------------------------------------------------------- reading

  /** Entries in order, how many bytes are kept, and whether a torn tail was cut off. */
  datatype Scan = Scan(entries: seq<Entry>, kept: nat, torn: bool) | Damaged

  function Before(e: Entry, length: nat, rest: Scan): Scan {
    if rest.Damaged? then Damaged else Scan([e] + rest.entries, length + rest.kept, rest.torn)
  }

  function Tail(torn: bool, mayBeTorn: bool): Scan {
    if torn && !mayBeTorn then Damaged else Scan([], 0, torn)
  }

  /** What stands at the front: less than a frame, a damaged frame, or an entry and its frame's length. */
  datatype Front = Short(torn: bool) | Bad | One(entry: Entry, length: nat)

  function FrontOf(c: Codec, b: Bytes): (f: Front)
    ensures f.One? ==> 0 < f.length <= |b|
    ensures f == Short(false) <==> b == []
  {
    if |b| < 4 then Short(b != [])
    else
      var length := FromBigEndian(b[..4]);
      var end := 4 + length + HASH_BYTES;
      if |b| < end then Short(true)
      else if end > MAX_SEGMENT_BYTES then Bad
      else
        var payload, expected := b[4..4 + length], b[4 + length..end];
        if c.sha(payload) != expected then Bad
        else
          match c.decode(payload)
          case None => Bad
          case Some(e) => One(e, end)
  }

  function ReadSegment(c: Codec, b: Bytes, mayBeTorn: bool): Scan
    decreases |b|
  {
    match FrontOf(c, b)
    case Short(torn) => Tail(torn, mayBeTorn)
    case Bad => Damaged
    case One(e, length) => Before(e, length, ReadSegment(c, b[length..], mayBeTorn))
  }

  /** All of `b` is intact frames, holding `entries`. */
  ghost predicate Intact(c: Codec, b: Bytes, entries: seq<Entry>) {
    ReadSegment(c, b, false) == Scan(entries, |b|, false)
  }

  function Onto(entries: seq<Entry>, length: nat, rest: Scan): Scan {
    if rest.Damaged? then Damaged else Scan(entries + rest.entries, length + rest.kept, rest.torn)
  }

  /** The front frame is read the same whatever follows it. */
  lemma FrontBehind(c: Codec, b: Bytes, x: Bytes)
    requires FrontOf(c, b).One?
    ensures FrontOf(c, b + x) == FrontOf(c, b)
  {
    var length := FromBigEndian(b[..4]);
    var end := 4 + length + HASH_BYTES;
    assert (b + x)[..4] == b[..4];
    assert (b + x)[4..4 + length] == b[4..4 + length];
    assert (b + x)[4 + length..end] == b[4 + length..end];
  }

  /** What follows intact frames does not change how they are read. */
  lemma {:induction false} ReadBehind(c: Codec, b: Bytes, entries: seq<Entry>, x: Bytes, mayBeTorn: bool)
    requires Intact(c, b, entries)
    ensures ReadSegment(c, b + x, mayBeTorn) == Onto(entries, |b|, ReadSegment(c, x, mayBeTorn))
    decreases |b|
  {
    hide FrontOf;
    var f := FrontOf(c, b);
    if f.Short? {
      assert b == [] && b + x == x;
    } else {
      FrontBehind(c, b, x);
      assert (b + x)[f.length..] == b[f.length..] + x;
      assert entries == [entries[0]] + entries[1..];
      assert Intact(c, b[f.length..], entries[1..]);
      ReadBehind(c, b[f.length..], entries[1..], x, mayBeTorn);
    }
  }

  lemma ReadFrame(c: Codec, e: Entry)
    requires Lawful(c) && Fits(c, e)
    ensures Intact(c, EntryFrame(c, e), [e])
  {
    var payload, b := c.encode(e), EntryFrame(c, e);
    BigEndianRoundTrip(|payload|);
    var end := 4 + |payload| + HASH_BYTES;
    assert b[..4] == BigEndian(|payload|) && b[4..4 + |payload|] == payload;
    assert b[4 + |payload|..end] == c.sha(payload) && b[end..] == [];
    assert FrontOf(c, b) == One(e, end);
  }

  /** Appending a frame appends its entry. */
  lemma AppendReads(c: Codec, b: Bytes, entries: seq<Entry>, e: Entry)
    requires Lawful(c) && Fits(c, e) && Intact(c, b, entries)
    ensures Intact(c, b + EntryFrame(c, e), entries + [e])
  {
    ReadFrame(c, e);
    ReadBehind(c, b, entries, EntryFrame(c, e), false);
  }

  /** A frame cut anywhere reads as nothing at all, torn unless the cut is at its very start. */
  lemma CutFrame(c: Codec, e: Entry, cut: nat, mayBeTorn: bool)
    requires Lawful(c) && Fits(c, e) && cut < |EntryFrame(c, e)|
    ensures ReadSegment(c, EntryFrame(c, e)[..cut], mayBeTorn) == Tail(cut > 0, mayBeTorn)
  {
    var b := EntryFrame(c, e);
    if cut >= 4 {
      BigEndianRoundTrip(|c.encode(e)|);
      assert b[..cut][..4] == BigEndian(|c.encode(e)|);
    }
  }

  /** Torn-tail recovery: wherever the last frame of a segment is cut, reading it back gives exactly the
      entries before, keeps exactly their bytes, and reports a tear if and only if bytes were cut off;
      where no tear is allowed it is damage. */
  lemma TornTailRecovery(c: Codec, b: Bytes, entries: seq<Entry>, e: Entry, cut: nat)
    requires Lawful(c) && Fits(c, e) && Intact(c, b, entries) && cut < |EntryFrame(c, e)|
    ensures var torn := b + EntryFrame(c, e)[..cut];
            && ReadSegment(c, torn, true) == Scan(entries, |b|, cut > 0)
            && torn[..|b|] == b
            && (ReadSegment(c, torn, false).Damaged? <==> cut > 0)
  {
    CutFrame(c, e, cut, true);
    CutFrame(c, e, cut, false);
    ReadBehind(c, b, entries, EntryFrame(c, e)[..cut], true);
    ReadBehind(c, b, entries, EntryFrame(c, e)[..cut], false);
  }

  /** What is kept reads back cleanly, so recovery is done once. */
  lemma {:induction false} KeptIsIntact(c: Codec, b: Bytes)
    ensures var s := ReadSegment(c, b, true);
            s.Scan? ==> s.kept <= |b| && Intact(c, b[..s.kept], s.entries) && (!s.torn ==> s.kept == |b|)
    decreases |b|
  {
    hide FrontOf;
    var s, f := ReadSegment(c, b, true), FrontOf(c, b);
    if s.Scan? && f.One? {
      var rest := ReadSegment(c, b[f.length..], true);
      KeptIsIntact(c, b[f.length..]);
      KeptFront(c, b, s.kept);
      assert b[..s.kept][f.length..] == b[f.length..][..rest.kept];
    }
  }

  lemma KeptFront(c: Codec, b: Bytes, kept: nat)
    requires FrontOf(c, b).One? && FrontOf(c, b).length <= kept <= |b|
    ensures FrontOf(c, b[..kept]) == FrontOf(c, b)
  {
    var length := FromBigEndian(b[..4]);
    var end := 4 + length + HASH_BYTES;
    assert b[..kept][..4] == b[..4];
    assert b[..kept][4..4 + length] == b[4..4 + length];
    assert b[..kept][4 + length..end] == b[4 + length..end];
  }

  /** Reading without permission to cut agrees with reading with it, where it succeeds. */
  lemma IntactEitherWay(c: Codec, b: Bytes, entries: seq<Entry>)
    requires Intact(c, b, entries)
    ensures ReadSegment(c, b, true) == Scan(entries, |b|, false)
  {
    assert b + [] == b;
    ReadBehind(c, b, entries, [], true);
  }
}
