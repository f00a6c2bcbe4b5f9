/** Which bytes the audit log accepts when it is read back, and which it refuses as damaged. */
module AuditReading {
  import opened Common
  import opened AuditFrames
  import opened AuditDisk

  // ---------------------------------------------------------------- whole frames

  /** Frames of these payloads, one after the other. */
  function Framed(c: Codec, payloads: seq<Bytes>): Bytes
    requires forall p <- payloads :: |p| < 0x1_0000_0000
  {
    if payloads == [] then [] else Frame(c, payloads[0]) + Framed(c, payloads[1..])
  }

  /** The payloads are those of the entries, and none is too long for a segment. */
  ghost predicate Decodes(c: Codec, payloads: seq<Bytes>, entries: seq<Entry>) {
    && |payloads| == |entries|
    && forall i | 0 <= i < |payloads| ::
         4 + |payloads[i]| + 32 <= 64 * 1024 * 1024 && c.decode(payloads[i]) == Some(entries[i])
  }

  lemma BytesOfLength(b: Bytes)
    requires |b| == 4
    ensures FromBigEndian(b) < 0x1_0000_0000 && BigEndian(FromBigEndian(b)) == b
  {
    var n, high, low := FromBigEndian(b), b[0] as nat * 0x100 + b[1] as nat, b[2] as nat * 0x100 + b[3] as nat;
    assert n == high * 0x1_0000 + low;
    assert n / 0x1_0000 == high && n % 0x1_0000 == low;
    assert n / 0x100_0000 == high / 0x100 == b[0] as nat && high % 0x100 == b[1] as nat;
    assert n / 0x100 == high * 0x100 + b[2] as nat && n / 0x100 % 0x100 == b[2] as nat;
    assert n % 0x100 == b[3] as nat;
  }

  /** A frame at the front is read as its payload's entry, whatever follows. */
  lemma FrontIsFrame(c: Codec, payload: Bytes, e: Entry, x: Bytes)
    requires Lawful(c) && 4 + |payload| + 32 <= 64 * 1024 * 1024 && c.decode(payload) == Some(e)
    ensures FrontOf(c, Frame(c, payload) + x) == One(e, |Frame(c, payload)|)
    ensures (Frame(c, payload) + x)[|Frame(c, payload)|..] == x
  {
    var frame := Frame(c, payload);
    var b := frame + x;
    BigEndianRoundTrip(|payload|);
    assert b[..4] == BigEndian(|payload|);
    assert b[4..4 + |payload|] == payload;
    assert b[4 + |payload|..4 + |payload| + HASH_BYTES] == c.sha(payload);
  }

  /** And an entry at the front stands there as the frame of some payload of it. */
  lemma FrontFrame(c: Codec, b: Bytes) returns (payload: Bytes)
    requires Lawful(c) && FrontOf(c, b).One?
    ensures var f := FrontOf(c, b);
            && f.length == 4 + |payload| + 32 <= 64 * 1024 * 1024
            && c.decode(payload) == Some(f.entry)
            && b[..f.length] == Frame(c, payload)
  {
    BytesOfLength(b[..4]);
    payload := b[4..4 + FromBigEndian(b[..4])];
  }

  lemma {:induction false} FramesAreRead(c: Codec, payloads: seq<Bytes>, entries: seq<Entry>)
    requires Lawful(c) && Decodes(c, payloads, entries)
    ensures forall p <- payloads :: |p| < 0x1_0000_0000
    ensures Intact(c, Framed(c, payloads), entries)
    decreases |payloads|
  {
    hide Frame, FrontOf;
    if payloads != [] {
      FramesAreRead(c, payloads[1..], entries[1..]);
      var x := Framed(c, payloads[1..]);
      FrontIsFrame(c, payloads[0], entries[0], x);
      FrontIsRead(c, Frame(c, payloads[0]) + x, entries);
      assert forall p <- payloads :: p == payloads[0] || p in payloads[1..];
    }
  }

  /** The front entry and what follows it. */
  lemma FrontIsRead(c: Codec, b: Bytes, entries: seq<Entry>)
    requires FrontOf(c, b).One? && entries != [] && entries[0] == FrontOf(c, b).entry
    requires Intact(c, b[FrontOf(c, b).length..], entries[1..])
    ensures Intact(c, b, entries)
  {
    hide FrontOf;
    assert [entries[0]] + entries[1..] == entries;
  }

  lemma {:induction false} ReadAreFrames(c: Codec, b: Bytes, entries: seq<Entry>) returns (payloads: seq<Bytes>)
    requires Lawful(c) && Intact(c, b, entries)
    ensures Decodes(c, payloads, entries) && (forall p <- payloads :: |p| < 0x1_0000_0000)
    ensures b == Framed(c, payloads)
    decreases |b|
  {
    hide Frame, FrontOf;
    var f := FrontOf(c, b);
    if f.Short? {
      payloads := [];
    } else {
      assert entries == [f.entry] + entries[1..];
      assert Intact(c, b[f.length..], entries[1..]);
      var payload := FrontFrame(c, b);
      var rest := ReadAreFrames(c, b[f.length..], entries[1..]);
      payloads := [payload] + rest;
      assert payloads[1..] == rest;
      assert b == b[..f.length] + b[f.length..];
    }
  }

  /** Bytes are a segment holding `entries` exactly if they are frames, each announcing its payload's length and ending
      with its hash, of payloads that decode to the entries. */
  lemma IntactExactly(c: Codec, b: Bytes, entries: seq<Entry>)
    requires Lawful(c)
    ensures Intact(c, b, entries) <==>
              exists payloads: seq<Bytes> ::
                Decodes(c, payloads, entries) && (forall p <- payloads :: |p| < 0x1_0000_0000)
                && b == Framed(c, payloads)
  {
    if Intact(c, b, entries) {
      var payloads := ReadAreFrames(c, b, entries);
    }
    forall payloads: seq<Bytes> | Decodes(c, payloads, entries) ensures Intact(c, Framed(c, payloads), entries)
      ensures forall p <- payloads :: |p| < 0x1_0000_0000
    {
      FramesAreRead(c, payloads, entries);
    }
  }

  // ---------------------------------------------------------------- torn tails and damage

  /** Fewer bytes than the frame they begin would have. */
  predicate Unfinished(b: Bytes) {
    |b| < 4 || |b| < 4 + FromBigEndian(b[..4]) + 32
  }

  /** Recovery keeps `kept` bytes and gives up the rest. */
  ghost predicate Splits(c: Codec, b: Bytes, entries: seq<Entry>, kept: nat) {
    kept <= |b| && Intact(c, b[..kept], entries) && Unfinished(b[kept..])
  }

  lemma UnfinishedFront(c: Codec, b: Bytes)
    ensures FrontOf(c, b).Short? <==> Unfinished(b)
    ensures FrontOf(c, b).Short? ==> FrontOf(c, b).torn == (b != [])
  {
  }

  /** Where a tear is allowed, a segment is read exactly if it is whole frames and behind them fewer bytes than their
      own frame would have; those are what is cut off, and anything else is damage. */
  lemma RecoversExactly(c: Codec, b: Bytes, entries: seq<Entry>, kept: nat)
    ensures ReadSegment(c, b, true) == Scan(entries, kept, kept < |b|) <==> Splits(c, b, entries, kept)
    decreases |b|
  {
    var s := ReadSegment(c, b, true);
    if Splits(c, b, entries, kept) {
      ReadBehind(c, b[..kept], entries, b[kept..], true);
      assert b == b[..kept] + b[kept..];
      UnfinishedFront(c, b[kept..]);
    }
    if s == Scan(entries, kept, kept < |b|) {
      KeptIsIntact(c, b);
      RestUnfinished(c, b);
    }
    hide FrontOf, Unfinished, Intact;
  }

  lemma {:induction false} RestUnfinished(c: Codec, b: Bytes)
    ensures var s := ReadSegment(c, b, true);
            s.Scan? ==> s.kept <= |b| && Unfinished(b[s.kept..]) && s.torn == (s.kept < |b|)
    decreases |b|
  {
    UnfinishedFront(c, b);
    hide FrontOf, Unfinished;
    var f := FrontOf(c, b);
    if f.One? {
      RestUnfinished(c, b[f.length..]);
      var rest := ReadSegment(c, b[f.length..], true);
      if rest.Scan? { assert b[f.length..][rest.kept..] == b[f.length + rest.kept..]; }
    } else {
      assert b[0..] == b;
    }
  }

  /** A segment is refused exactly if it is not so made up; where no tear is allowed, if it is not whole frames. */
  lemma DamagedExactly(c: Codec, b: Bytes)
    ensures ReadSegment(c, b, true).Damaged? <==> forall entries, kept: nat :: !Splits(c, b, entries, kept)
    ensures ReadSegment(c, b, false).Damaged? <==> forall entries :: !Intact(c, b, entries)
  {
    hide ReadSegment, Splits;
    forall entries, kept: nat | Splits(c, b, entries, kept) ensures ReadSegment(c, b, true).Scan? {
      RecoversExactly(c, b, entries, kept);
    }
    var s, uncut := ReadSegment(c, b, true), ReadSegment(c, b, false);
    RestUnfinished(c, b);
    if s.Scan? { RecoversExactly(c, b, s.entries, s.kept); }
    UncutReads(c, b);
    if uncut.Scan? { assert Intact(c, b, uncut.entries); }
  }

  lemma {:induction false} UncutReads(c: Codec, b: Bytes)
    ensures var s := ReadSegment(c, b, false); s.Scan? ==> s == Scan(s.entries, |b|, false)
    decreases |b|
  {
    hide FrontOf;
    var f := FrontOf(c, b);
    if f.One? { UncutReads(c, b[f.length..]); }
  }

  /** The log is refused exactly if an active segment is missing or damaged, a tear being allowed in the current one
      only, or the numbers of its records do not rise. */
  lemma RefusedExactly(c: Codec, d: Disk)
    ensures Load(c, d).Refused? <==>
              || (exists n <- d.index.active :: n !in d.segments
                                                || ReadSegment(c, d.segments[n], n == d.index.current).Damaged?)
              || (var log := Gather(c, d.segments, d.index.current, d.index.active);
                  log.Log? && !Increasing(Records(log.entries)))
  {
    UnreadableExactly(c, d.segments, d.index.current, d.index.active);
  }

  lemma {:induction false} UnreadableExactly(c: Codec, segments: map<nat, Bytes>, current: nat, active: seq<nat>)
    ensures Gather(c, segments, current, active).Unreadable? <==>
              exists n <- active :: n !in segments || ReadSegment(c, segments[n], n == current).Damaged?
    decreases |active|
  {
    hide ReadSegment;
    if active != [] {
      var front, last := active[..|active| - 1], active[|active| - 1];
      UnreadableExactly(c, segments, current, front);
      assert active == front + [last];
    }
  }
}
