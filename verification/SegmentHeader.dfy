/** The fixed binary header of event segments: headers and their 158 bytes determine each other. */
module SegmentHeaders {
  import opened Common

  const HEADER_BYTES: nat := 158
  const MAX_BODY_BYTES: nat := 524_288

  /** "DLSEG001" */
  const MAGIC: Bytes := [0x44, 0x4C, 0x53, 0x45, 0x47, 0x30, 0x30, 0x31]

  datatype Header = Header(
    storeId: Bytes,
    job: Bytes,
    predecessor: Bytes,
    origin: Byte,
    actor: Bytes,
    flags: Byte,
    eventCount: nat,
    firstSequence: nat,
    lastSequence: nat,
    partIndex: nat,
    bodyLength: nat)

  /** The widths of the fields. */
  predicate WellTyped(h: Header) {
    && |h.storeId| == 16 && |h.job| == 32 && |h.predecessor| == 32 && |h.actor| == 32
    && h.eventCount <= U64_MAX && h.firstSequence <= U64_MAX && h.lastSequence <= U64_MAX && h.partIndex <= U64_MAX
    && h.bodyLength < 0x1_0000_0000
  }

  predicate AllZero(b: Bytes) {
    forall x <- b :: x == 0
  }

  /** Local consistency of a header. */
  predicate Consistent(h: Header) {
    var first, last, terminal := h.flags % 2 == 1, h.flags / 2 % 2 == 1, h.flags / 4 % 2 == 1;
    && 1 <= h.origin <= 4
    && (h.origin == 1 || AllZero(h.actor))
    && h.flags <= 7
    && (terminal ==> last)
    && (first <==> h.partIndex == 0)
    && (first || !AllZero(h.predecessor))
    && 0 < h.bodyLength <= MAX_BODY_BYTES
    && (last || h.bodyLength == MAX_BODY_BYTES)
    && (h.eventCount == 0 ==> first && last && h.bodyLength == 8 && h.firstSequence == 0 && h.lastSequence == 0)
    && (h.eventCount == 1 ==> h.firstSequence == h.lastSequence)
  }

  // ---------------------------------------------------------------- integers

  function LittleEndian(n: nat, width: nat): (b: Bytes)
    ensures |b| == width
  {
    if width == 0 then [] else [(n % 256) as Byte] + LittleEndian(n / 256, width - 1)
  }

  function FromLittleEndian(b: Bytes): nat {
    if b == [] then 0 else b[0] as nat + 256 * FromLittleEndian(b[1..])
  }

  function Power(width: nat): nat {
    if width == 0 then 1 else 256 * Power(width - 1)
  }

  lemma {:induction false} NumberRoundTrip(n: nat, width: nat)
    requires n < Power(width)
    ensures FromLittleEndian(LittleEndian(n, width)) == n
  {
    if width > 0 {
      NumberRoundTrip(n / 256, width - 1);
      assert LittleEndian(n, width)[1..] == LittleEndian(n / 256, width - 1);
    }
  }

  lemma {:induction false} BytesRoundTrip(b: Bytes)
    ensures FromLittleEndian(b) < Power(|b|) && LittleEndian(FromLittleEndian(b), |b|) == b
  {
    if b != [] {
      var n := FromLittleEndian(b[1..]);
      BytesRoundTrip(b[1..]);
      LowByte(b[0], n);
      assert LittleEndian(b[0] as nat + 256 * n, |b|) == [b[0]] + LittleEndian(n, |b| - 1);
    }
  }

  lemma LowByte(low: Byte, n: nat)
    ensures (low as nat + 256 * n) % 256 == low as nat && (low as nat + 256 * n) / 256 == n
  {
  }

  lemma Powers()
    ensures Power(8) == U64_MAX + 1 && Power(4) == 0x1_0000_0000
  {
    assert Power(2) == 0x1_0000;
    assert Power(4) == 0x1_0000_0000;
    assert Power(6) == 0x1_0000_0000_0000;
  }

  // ---------------------------------------------------------------- the layout

  /** Each field at its offset. */
  predicate IsEncoding(b: Bytes, h: Header) {
    && |b| == HEADER_BYTES
    && b[..8] == MAGIC
    && b[8..24] == h.storeId && b[24..56] == h.job && b[56..88] == h.predecessor
    && b[88] == h.origin && b[89..121] == h.actor && b[121] == h.flags
    && b[122..130] == LittleEndian(h.eventCount, 8)
    && b[130..138] == LittleEndian(h.firstSequence, 8)
    && b[138..146] == LittleEndian(h.lastSequence, 8)
    && b[146..154] == LittleEndian(h.partIndex, 8)
    && b[154..158] == LittleEndian(h.bodyLength, 4)
  }

  lemma SameOnSlice(a: Bytes, b: Bytes, lo: nat, hi: nat)
    requires lo <= hi <= |a| && hi <= |b| && a[lo..hi] == b[lo..hi]
    ensures forall i | lo <= i < hi :: a[i] == b[i]
  {
    forall i | lo <= i < hi ensures a[i] == b[i] {
      assert a[lo..hi][i - lo] == b[lo..hi][i - lo];
    }
  }

  /** The offsets cover the whole header: no two byte strings encode the same fields. */
  lemma EncodingUnique(a: Bytes, b: Bytes, h: Header)
    requires IsEncoding(a, h) && IsEncoding(b, h)
    ensures a == b
  {
    hide LittleEndian;
    SameOnSlice(a, b, 0, 8);
    SameOnSlice(a, b, 8, 24);
    SameOnSlice(a, b, 24, 56);
    SameOnSlice(a, b, 56, 88);
    SameOnSlice(a, b, 89, 121);
    SameOnSlice(a, b, 122, 130);
    SameOnSlice(a, b, 130, 138);
    SameOnSlice(a, b, 138, 146);
    SameOnSlice(a, b, 146, 154);
    SameOnSlice(a, b, 154, 158);
  }

  function FieldsOf(b: Bytes): Header
    requires |b| == HEADER_BYTES
  {
    Header(
      b[8..24], b[24..56], b[56..88], b[88], b[89..121], b[121],
      FromLittleEndian(b[122..130]), FromLittleEndian(b[130..138]), FromLittleEndian(b[138..146]),
      FromLittleEndian(b[146..154]), FromLittleEndian(b[154..158]))
  }

  function Decode(b: Bytes): Option<Header> {
    if |b| != HEADER_BYTES || b[..8] != MAGIC then None
    else if Consistent(FieldsOf(b)) then Some(FieldsOf(b))
    else None
  }

  /** Decoding accepts exactly the encodings of consistent headers, and returns the header. */
  lemma DecodesExactly(b: Bytes, h: Header)
    ensures Decode(b) == Some(h) <==> IsEncoding(b, h) && WellTyped(h) && Consistent(h)
  {
    hide Consistent, LittleEndian, FromLittleEndian, Power;
    Powers();
    if |b| == HEADER_BYTES {
      BytesRoundTrip(b[122..130]);
      BytesRoundTrip(b[130..138]);
      BytesRoundTrip(b[138..146]);
      BytesRoundTrip(b[146..154]);
      BytesRoundTrip(b[154..158]);
    }
    if IsEncoding(b, h) && WellTyped(h) {
      NumberRoundTrip(h.eventCount, 8);
      NumberRoundTrip(h.firstSequence, 8);
      NumberRoundTrip(h.lastSequence, 8);
      NumberRoundTrip(h.partIndex, 8);
      NumberRoundTrip(h.bodyLength, 4);
    }
  }

  lemma NotAllZero(b: Bytes, lo: nat, hi: nat)
    requires lo <= hi <= |b|
    ensures AllZero(b[lo..hi]) <==> forall i | lo <= i < hi :: b[i] == 0
  {
    if AllZero(b[lo..hi]) {
      forall i | lo <= i < hi ensures b[i] == 0 { assert b[i] == b[lo..hi][i - lo] && b[lo..hi][i - lo] in b[lo..hi]; }
    }
  }

  /** Told of the bytes: which headers are accepted. Flag values 1, 3 and 7 mark the first part, 2, 3, 6 and 7 the
      last, 6 and 7 a terminal one, and there are no others but 0. The first part is number 0 and has no
      predecessor; all but the last have full bodies; a body without events is eight bytes long, all there is,
      and numbers nothing. Only origin 1 names an actor. */
  lemma AcceptsExactly(b: Bytes)
    ensures Decode(b).Some? <==>
      && |b| == 158
      && b[..8] == [0x44, 0x4C, 0x53, 0x45, 0x47, 0x30, 0x30, 0x31]
      && var first, last := b[121] in {1, 3, 7}, b[121] in {2, 3, 6, 7};
         var count, from, to := FromLittleEndian(b[122..130]), FromLittleEndian(b[130..138]),
                                FromLittleEndian(b[138..146]);
         var part, length := FromLittleEndian(b[146..154]), FromLittleEndian(b[154..158]);
         && (first || last || b[121] == 0)
         && b[88] in {1, 2, 3, 4} && (b[88] != 1 ==> forall i | 89 <= i < 121 :: b[i] == 0)
         && (if first then part == 0 else part > 0 && exists i | 56 <= i < 88 :: b[i] != 0)
         && (if last then 1 <= length <= 524_288 else length == 524_288)
         && (count == 0 ==> first && last && length == 8 && from == 0 && to == 0)
         && (count == 1 ==> from == to)
  {
    hide FromLittleEndian, AllZero;
    if |b| == 158 {
      NotAllZero(b, 89, 121);
      NotAllZero(b, 56, 88);
      FlagBits(b[121]);
    }
  }

  lemma FlagBits(flags: Byte)
    ensures var first, last, terminal := flags % 2 == 1, flags / 2 % 2 == 1, flags / 4 % 2 == 1;
            flags <= 7 && (terminal ==> last) <==> flags in {0, 1, 2, 3, 6, 7}
    ensures flags <= 7 ==> (flags % 2 == 1 <==> flags in {1, 3, 5, 7})
    ensures flags <= 7 ==> (flags / 2 % 2 == 1 <==> flags in {2, 3, 6, 7})
  {
    if flags <= 7 {
      assert flags in {0, 1, 2, 3, 4, 5, 6, 7};
    }
  }

  // ---------------------------------------------------------------- encoding

  function Identity(h: Header): Bytes {
    MAGIC + h.storeId + h.job + h.predecessor
  }

  function Provenance(h: Header): Bytes {
    [h.origin] + h.actor + [h.flags]
  }

  function Numbers(h: Header): Bytes {
    LittleEndian(h.eventCount, 8) + LittleEndian(h.firstSequence, 8) + LittleEndian(h.lastSequence, 8)
    + LittleEndian(h.partIndex, 8) + LittleEndian(h.bodyLength, 4)
  }

  /** The encoded header. */
  function Layout(h: Header): Bytes {
    Identity(h) + Provenance(h) + Numbers(h)
  }

  lemma IdentitySlices(h: Header)
    requires WellTyped(h)
    ensures var b := Identity(h);
            |b| == 88 && b[..8] == MAGIC && b[8..24] == h.storeId && b[24..56] == h.job && b[56..88] == h.predecessor
  {
  }

  lemma NumberSlices(h: Header)
    ensures var b := Numbers(h);
            && |b| == 36
            && b[..8] == LittleEndian(h.eventCount, 8) && b[8..16] == LittleEndian(h.firstSequence, 8)
            && b[16..24] == LittleEndian(h.lastSequence, 8) && b[24..32] == LittleEndian(h.partIndex, 8)
            && b[32..36] == LittleEndian(h.bodyLength, 4)
  {
    hide LittleEndian;
  }

  lemma SlicesInOrder(a: Bytes, b: Bytes, c: Bytes, i: nat, j: nat)
    requires i <= j
    ensures var whole := a + b + c;
            && (j <= |a| ==> whole[i..j] == a[i..j])
            && (j <= |b| ==> whole[|a| + i..|a| + j] == b[i..j])
            && (j <= |c| ==> whole[|a| + |b| + i..|a| + |b| + j] == c[i..j])
  {
  }

  /** The three parts one after the other are an encoding of the header. */
  lemma LayoutEncodes(h: Header)
    requires WellTyped(h)
    ensures IsEncoding(Layout(h), h)
  {
    hide Identity, Provenance, Numbers, LittleEndian, WellTyped;
    var a, b, c := Identity(h), Provenance(h), Numbers(h);
    IdentitySlices(h);
    ProvenanceSlices(h);
    NumberSlices(h);
    SlicesInOrder(a, b, c, 0, 8);
    SlicesInOrder(a, b, c, 8, 24);
    SlicesInOrder(a, b, c, 24, 56);
    SlicesInOrder(a, b, c, 56, 88);
    SlicesInOrder(a, b, c, 1, 33);
    SlicesInOrder(a, b, c, 8, 16);
    SlicesInOrder(a, b, c, 16, 24);
    SlicesInOrder(a, b, c, 24, 32);
    SlicesInOrder(a, b, c, 32, 36);
  }

  lemma ProvenanceSlices(h: Header)
    requires WellTyped(h)
    ensures var b := Provenance(h); |b| == 34 && b[0] == h.origin && b[1..33] == h.actor && b[33] == h.flags
  {
  }

  method CopyFromSlice(a: array<Byte>, start: nat, source: Bytes)
    requires start + |source| <= a.Length
    modifies a
    ensures a[..start + |source|] == old(a[..start]) + source
    ensures a[start + |source|..] == old(a[start + |source|..])
  {
    forall i | start <= i < start + |source| {
      a[i] := source[i - start];
    }
  }

  method FillIdentity(bytes: array<Byte>, h: Header)
    requires WellTyped(h) && bytes.Length == HEADER_BYTES
    modifies bytes
    ensures bytes[..88] == Identity(h)
  {
    CopyFromSlice(bytes, 0, MAGIC);
    CopyFromSlice(bytes, 8, h.storeId);
    CopyFromSlice(bytes, 24, h.job);
    CopyFromSlice(bytes, 56, h.predecessor);
  }

  method FillProvenance(bytes: array<Byte>, h: Header)
    requires WellTyped(h) && bytes.Length == HEADER_BYTES
    modifies bytes
    ensures bytes[..122] == old(bytes[..88]) + Provenance(h)
  {
    bytes[88] := h.origin;
    assert bytes[..89] == old(bytes[..88]) + [h.origin];
    CopyFromSlice(bytes, 89, h.actor);
    ghost var before := bytes[..121];
    bytes[121] := h.flags;
    assert bytes[..122] == before + [h.flags];
  }

  method FillNumbers(bytes: array<Byte>, h: Header)
    requires WellTyped(h) && bytes.Length == HEADER_BYTES
    modifies bytes
    ensures bytes[..] == old(bytes[..122]) + Numbers(h)
  {
    hide LittleEndian;
    CopyFromSlice(bytes, 122, LittleEndian(h.eventCount, 8));
    CopyFromSlice(bytes, 130, LittleEndian(h.firstSequence, 8));
    CopyFromSlice(bytes, 138, LittleEndian(h.lastSequence, 8));
    CopyFromSlice(bytes, 146, LittleEndian(h.partIndex, 8));
    CopyFromSlice(bytes, 154, LittleEndian(h.bodyLength, 4));
    assert bytes[..] == bytes[..158];
  }

  /** Fills the header slice by slice; refuses inconsistent headers. */
  method Encode(h: Header) returns (encoded: Option<Bytes>)
    requires WellTyped(h)
    ensures encoded.Some? <==> Consistent(h)
    ensures encoded.Some? ==>
      IsEncoding(encoded.value, h) && encoded.value == Layout(h) && Decode(encoded.value) == Some(h)
  {
    hide Consistent, LittleEndian, FromLittleEndian, IsEncoding, Decode, Identity, Provenance, Numbers;
    if !Consistent(h) { return None; }
    var bytes := new Byte[HEADER_BYTES](_ => 0);
    FillIdentity(bytes, h);
    FillProvenance(bytes, h);
    FillNumbers(bytes, h);
    LayoutEncodes(h);
    DecodesExactly(bytes[..], h);
    return Some(bytes[..]);
  }

  /** An accepted header encodes to its own bytes again. */
  lemma ReencodesExactly(b: Bytes)
    requires Decode(b).Some?
    ensures var h := Decode(b).value; WellTyped(h) && Consistent(h) && Layout(h) == b
  {
    hide IsEncoding, Decode, Layout;
    var h := Decode(b).value;
    DecodesExactly(b, h);
    LayoutEncodes(h);
    EncodingUnique(b, Layout(h), h);
  }

  // ---------------------------------------------------------------- whole segments

  function DecodeSegment(b: Bytes): Option<(Header, Bytes)> {
    if !(HEADER_BYTES <= |b| <= HEADER_BYTES + MAX_BODY_BYTES) then None
    else
      match Decode(b[..HEADER_BYTES])
      case None => None
      case Some(h) => if |b| != HEADER_BYTES + h.bodyLength then None else Some((h, b[HEADER_BYTES..]))
  }

  /** A segment is accepted exactly when it is an encoded header and a body of the length it declares. */
  lemma SegmentExactly(b: Bytes, h: Header, body: Bytes)
    ensures DecodeSegment(b) == Some((h, body)) <==>
      && |b| >= HEADER_BYTES && b == b[..HEADER_BYTES] + body
      && IsEncoding(b[..HEADER_BYTES], h) && WellTyped(h) && Consistent(h) && |body| == h.bodyLength
  {
    hide IsEncoding, Decode;
    if |b| >= HEADER_BYTES {
      DecodesExactly(b[..HEADER_BYTES], h);
      assert b == b[..HEADER_BYTES] + b[HEADER_BYTES..];
    }
  }

  /** Cutting an accepted segment short, or adding to it, makes it unacceptable. */
  lemma ExactExtent(b: Bytes, other: Bytes)
    requires DecodeSegment(b).Some? && DecodeSegment(other).Some?
    requires b <= other
    ensures b == other
  {
    assert other[..HEADER_BYTES] == b[..HEADER_BYTES];
  }
}
