// The metadata marker of VSF TR-06-4 Part 7 as one transport stream packet on PID 0x1FF0:
// the section layout the multiplexer writes and the checks the sender makes on it.
module MarkerCodec {
  import opened Bytes
  import opened TransportStream
  import opened Crc32

  const RTP_PAYLOADS_PER_MARKER: nat := 5
  const SECTION_DATA_SIZE: nat := 23
  const SECTION_SIZE: nat := 27

  datatype Marker = Marker(
    sequence: U32,
    nonNull: U16,
    nulls: U16,
    rtpStart: U16,
    rtpNext: U16,
    ssrc: U32)

  // ---- the writer ----

  const SECTION_HEADER: seq<Byte> := [0xBF, 0x30, 24]

  function SectionData(m: Marker): (s: seq<Byte>)
    ensures |s| == SECTION_DATA_SIZE
  {
    SECTION_HEADER + Be32(m.sequence) + Be16(m.nonNull) + Be16(m.nulls)
    + [0, 0] + Be16(m.rtpStart) + [0, 0] + Be16(m.rtpNext) + Be32(m.ssrc)
  }

  function Section(m: Marker): (s: seq<Byte>)
    ensures |s| == SECTION_SIZE
  {
    SectionData(m) + WordBytes(Crc(SectionData(m)))
  }

  function MarkerHeader(cc: Byte): (s: seq<Byte>)
    ensures |s| == 5
  {
    [SYNC_BYTE, 0x5F, 0xF0, 0x10 | (cc & 0x0F), 0]
  }

  function MarkerPacket(m: Marker, cc: Byte): TsPacket {
    MarkerHeader(cc) + Section(m) + seq(TS_PACKET_SIZE - 32, i => 0xFF)
  }

  // ---- the reader ----

  function SectionStart(p: TsPacket): (k: nat)
    ensures 5 <= k <= 260
  {
    ByteOfByte(p[4]);
    5 + (p[4] as int)
  }

  predicate HeaderAccepted(p: TsPacket) {
    p[0] == SYNC_BYTE && p[1] & 0x40 != 0 &&
    // a zero pointer always leaves room for the section
    SectionStart(p) + SECTION_SIZE <= TS_PACKET_SIZE
  }

  function SectionOf(p: TsPacket): (s: seq<Byte>)
    requires HeaderAccepted(p)
    ensures |s| == SECTION_SIZE
  {
    p[SectionStart(p)..SectionStart(p) + SECTION_SIZE]
  }

  predicate SectionAccepted(s: seq<Byte>)
    requires |s| == SECTION_SIZE
  {
    s[0] == 0xBF && s[1] & 0x30 == 0x30 &&
    s[1] & 0x0F == 0 && s[2] == 24 &&
    s[SECTION_DATA_SIZE..] == WordBytes(Crc(s[..SECTION_DATA_SIZE]))
  }

  function MarkerOf(s: seq<Byte>): Marker
    requires |s| == SECTION_SIZE
  {
    Marker(
      Int32(s[3], s[4], s[5], s[6]),
      Int16(s[7], s[8]),
      Int16(s[9], s[10]),
      Int16(s[13], s[14]),
      Int16(s[17], s[18]),
      Int32(s[19], s[20], s[21], s[22]))
  }

  function Parse(p: TsPacket): Option<Marker> {
    if HeaderAccepted(p) && SectionAccepted(SectionOf(p)) then Some(MarkerOf(SectionOf(p))) else None
  }

  // ---- properties ----

  lemma MarkerPacketIsMarker(m: Marker, cc: Byte)
    ensures IsMarker(MarkerPacket(m, cc))
  {
    var p := MarkerPacket(m, cc);
    assert p[0] == SYNC_BYTE && p[1] == 0x5F && p[2] == 0xF0;
  }

  lemma SectionDataBytes(m: Marker)
    ensures var s := SectionData(m);
      && s[..3] == SECTION_HEADER && s[3..7] == Be32(m.sequence)
      && s[7..9] == Be16(m.nonNull) && s[9..11] == Be16(m.nulls)
      && s[13..15] == Be16(m.rtpStart) && s[17..19] == Be16(m.rtpNext)
      && s[19..23] == Be32(m.ssrc)
  {
  }

  lemma MarkerOfSection(m: Marker)
    ensures MarkerOf(Section(m)) == m
  {
    hide Be16, Be32, WordBytes, Crc;
    var s := Section(m);
    SectionDataBytes(m);
    assert s[..SECTION_DATA_SIZE] == SectionData(m);
    Int32OfBe32(m.sequence);
    Int16OfBe16(m.nonNull);
    Int16OfBe16(m.nulls);
    Int16OfBe16(m.rtpStart);
    Int16OfBe16(m.rtpNext);
    Int32OfBe32(m.ssrc);
    assert forall i :: 3 <= i < 23 ==> s[i] == SectionData(m)[i];
    assert s[3] == s[3..7][0] && s[4] == s[3..7][1] && s[5] == s[3..7][2] && s[6] == s[3..7][3];
    assert s[7] == s[7..9][0] && s[8] == s[7..9][1];
    assert s[9] == s[9..11][0] && s[10] == s[9..11][1];
    assert s[13] == s[13..15][0] && s[14] == s[13..15][1];
    assert s[17] == s[17..19][0] && s[18] == s[17..19][1];
    assert s[19] == s[19..23][0] && s[20] == s[19..23][1] && s[21] == s[19..23][2] && s[22] == s[19..23][3];
  }

  // Reading back a written marker gives its fields, whatever they are.
  lemma ParseMarkerPacket(m: Marker, cc: Byte)
    ensures Parse(MarkerPacket(m, cc)) == Some(m)
  {
    hide SectionData, WordBytes, Crc, Be16, Be32;
    var p := MarkerPacket(m, cc);
    assert p[..5] == MarkerHeader(cc);
    assert p[0] == p[..5][0] && p[1] == p[..5][1] && p[4] == p[..5][4];
    assert SectionStart(p) == 5;
    assert SectionOf(p) == Section(m);
    MarkerOfSection(m);
    SectionDataBytes(m);
    var s := Section(m);
    assert s[..SECTION_DATA_SIZE] == SectionData(m);
    assert s[..3] == SectionData(m)[..3];
    assert s[0] == s[..3][0] && s[1] == s[..3][1] && s[2] == s[..3][2];
    assert s[SECTION_DATA_SIZE..] == WordBytes(Crc(SectionData(m)));
  }

  // The number written big-endian in these bytes.
  function Number(s: seq<Byte>): int {
    if s == [] then 0 else 0x100 * Number(s[..|s| - 1]) + (s[|s| - 1] as int)
  }

  lemma NumberSnoc(s: seq<Byte>, b: Byte)
    ensures Number(s + [b]) == 0x100 * Number(s) + (b as int)
  {
    assert (s + [b])[..|s|] == s;
  }

  lemma NumberOf2(a: Byte, b: Byte)
    ensures Number([a, b]) == Int16(a, b)
  {
    NumberSnoc([], a);
    NumberSnoc([a], b);
    assert [] + [a] == [a] && [a] + [b] == [a, b];
  }

  lemma NumberOf4(a: Byte, b: Byte, c: Byte, d: Byte)
    ensures Number([a, b, c, d]) == Int32(a, b, c, d)
  {
    hide Number;
    NumberOf2(a, b);
    NumberSnoc([a, b], c);
    NumberSnoc([a, b, c], d);
    assert [a, b] + [c] == [a, b, c] && [a, b, c] + [d] == [a, b, c, d];
  }

  lemma NumberOfBe16(n: U16)
    ensures Number(Be16(n)) == n
  {
    hide ByteOf, Number, Int16;
    Int16OfBe16(n);
    NumberOf2(ByteOf(n / 256), ByteOf(n % 256));
  }

  lemma NumberOfBe32(n: U32)
    ensures Number(Be32(n)) == n
  {
    hide ByteOf, Number, Int32;
    Int32OfBe32(n);
    var s := Be32(n);
    NumberOf4(s[0], s[1], s[2], s[3]);
    assert s == [s[0], s[1], s[2], s[3]];
  }

  lemma PacketParts(m: Marker, cc: Byte)
    ensures var p := MarkerPacket(m, cc);
      && p[..5] == MarkerHeader(cc) && p[5..28] == SectionData(m) && p[28..32] == WordBytes(Crc(SectionData(m)))
      && forall i :: 32 <= i < 188 ==> p[i] == 0xFF
  {
    hide SectionData, MarkerHeader, WordBytes, Crc;
  }

  lemma FieldNumbers(m: Marker)
    ensures var s := SectionData(m);
      && s[..3] == [0xBF, 0x30, 24] && Number(s[3..7]) == m.sequence
      && Number(s[7..9]) == m.nonNull && Number(s[9..11]) == m.nulls
      && s[11..13] == [0, 0] && Number(s[13..15]) == m.rtpStart
      && s[15..17] == [0, 0] && Number(s[17..19]) == m.rtpNext && Number(s[19..23]) == m.ssrc
  {
    hide Be16, Be32, Number;
    SectionDataBytes(m);
    NumberOfBe32(m.sequence);
    NumberOfBe16(m.nonNull);
    NumberOfBe16(m.nulls);
    NumberOfBe16(m.rtpStart);
    NumberOfBe16(m.rtpNext);
    NumberOfBe32(m.ssrc);
  }

  lemma SliceOfSlice(p: TsPacket, i: nat, j: nat)
    requires i <= j <= 23
    ensures p[5..28][i..j] == p[5 + i..5 + j]
  {
    assert forall k :: 0 <= k < j - i ==> p[5..28][i..j][k] == p[5 + i..5 + j][k];
  }

  // Where each field lies in a marker packet.
  lemma MarkerLayout(m: Marker, cc: Byte)
    ensures var p := MarkerPacket(m, cc);
      && p[..5] == [0x47, 0x5F, 0xF0, 0x10 | (cc & 0x0F), 0] && p[5..8] == [0xBF, 0x30, 24]
      && Number(p[8..12]) == m.sequence && Number(p[12..14]) == m.nonNull && Number(p[14..16]) == m.nulls
      && p[16..18] == [0, 0] && Number(p[18..20]) == m.rtpStart
      && p[20..22] == [0, 0] && Number(p[22..24]) == m.rtpNext && Number(p[24..28]) == m.ssrc
      && p[28..32] == WordBytes(Crc(p[5..28])) && forall i :: 32 <= i < 188 ==> p[i] == 0xFF
  {
    hide MarkerPacket, SectionData, WordBytes, Crc, Number;
    PacketParts(m, cc);
    FieldNumbers(m);
    var p := MarkerPacket(m, cc);
    SliceOfSlice(p, 0, 3);
    SliceOfSlice(p, 3, 7);
    SliceOfSlice(p, 7, 9);
    SliceOfSlice(p, 9, 11);
    SliceOfSlice(p, 11, 13);
    SliceOfSlice(p, 13, 15);
    SliceOfSlice(p, 15, 17);
    SliceOfSlice(p, 17, 19);
    SliceOfSlice(p, 19, 23);
  }

  // The sender's comparison of two CRC fields is the decoder rule of Annex A of ISO/IEC
  // 13818-1: the shift register is zero after the whole section.
  lemma AcceptedIffRegisterZero(s: seq<Byte>)
    requires |s| == SECTION_SIZE
    ensures SectionAccepted(s) <==>
      s[0] == 0xBF && s[1] & 0x3F == 0x30 && s[2] == 24 && Crc(s) == 0
  {
    hide WordBytes, Crc;
    AnnexAZero(s[..SECTION_DATA_SIZE], s[SECTION_DATA_SIZE..]);
    assert s == s[..SECTION_DATA_SIZE] + s[SECTION_DATA_SIZE..];
    HeaderBits(s[1]);
  }

  lemma HeaderBits(b: Byte)
    ensures b & 0x30 == 0x30 && b & 0x0F == 0 <==> b & 0x3F == 0x30
  {
  }

  lemma ChangedSectionRejected(s: seq<Byte>, j: nat, b: Byte)
    requires |s| == SECTION_SIZE && SectionAccepted(s) && j < |s| && b != s[j]
    ensures !SectionAccepted(s[j := b])
  {
    hide WordBytes, Register;
    AcceptedIffRegisterZero(s);
    AcceptedIffRegisterZero(s[j := b]);
    SingleByteChange(INITIAL, s, j, b);
  }

  lemma HeaderUnchanged(p: TsPacket, k: nat, b: Byte)
    requires 5 <= k < TS_PACKET_SIZE
    ensures SectionStart(p[k := b]) == SectionStart(p)
    ensures HeaderAccepted(p[k := b]) == HeaderAccepted(p)
  {
    var q: TsPacket := p[k := b];
    assert q[0] == p[0] && q[1] == p[1] && q[4] == p[4];
  }

  // No marker survives a change of any one byte of its section.
  lemma ChangedByteRejected(p: TsPacket, k: nat, b: Byte)
    requires Parse(p).Some?
    requires SectionStart(p) <= k < SectionStart(p) + SECTION_SIZE <= TS_PACKET_SIZE
    requires b != p[k]
    ensures Parse(p[k := b]) == None
  {
    hide SectionAccepted, HeaderAccepted;
    HeaderUnchanged(p, k, b);
    var j := k - SectionStart(p);
    assert SectionOf(p[k := b]) == SectionOf(p)[j := b];
    ChangedSectionRejected(SectionOf(p), j, b);
  }
}
