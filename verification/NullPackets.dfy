// Null-packet deletion: transport packets of 188 or 204 bytes, with a bit for each null packet left out.
module NullPackets {
  import opened Bytes
  import opened Sequences
  import opened TransportStream

  // ---- bits of a header byte ----

  function Mask(pos: nat): Byte
    requires pos < 8
  {
    match pos
    case 0 => 0x01
    case 1 => 0x02
    case 2 => 0x04
    case 3 => 0x08
    case 4 => 0x10
    case 5 => 0x20
    case 6 => 0x40
    case _ => 0x80
  }

  predicate Bit(b: Byte, pos: nat)
    requires pos < 8
  {
    b & Mask(pos) != 0
  }

  function SetBit(b: Byte, pos: nat): Byte
    requires pos < 8
  {
    b | Mask(pos)
  }

  // What the library's bit-clearing macro does: it keeps the bit and clears all the others.
  function UnsetBit(b: Byte, pos: nat): Byte
    requires pos < 8
  {
    b & Mask(pos)
  }

  lemma BitOfSetBit(b: Byte, pos: nat, other: nat)
    requires pos < 8 && other < 8
    ensures Bit(SetBit(b, pos), other) <==> pos == other || Bit(b, other)
  {
    MaskOfMask(pos, other);
    OrMask(b, Mask(pos), Mask(other));
  }

  lemma OrMask(b: Byte, m: Byte, n: Byte)
    ensures (b | m) & n != 0 <==> b & n != 0 || m & n != 0
  {
  }

  lemma MaskOfMask(pos: nat, other: nat)
    requires pos < 8 && other < 8
    ensures Mask(pos) & Mask(other) != 0 <==> pos == other
  {
  }

  lemma NoBits(pos: nat)
    requires pos < 8
    ensures !Bit(0, pos)
  {
  }

  // ---- packets ----

  type Size = n: nat | n == 188 || n == 204 witness 188

  lemma OneSizeLess(n: nat, size: Size)
    requires n >= size && n % size == 0
    ensures (n - size) % size == 0
  {
    if size == 188 {
    } else {
    }
  }

  lemma {:induction false} JoinOfSplit(s: seq<Byte>, size: Size)
    requires |s| % size == 0
    ensures Join(Split(s, size)) == s && |s| == |Split(s, size)| * size
    decreases |s|
  {
    if |s| < size {
      assert s == [];
    } else {
      assert |s[size..]| % size == 0 by { OneSizeLess(|s|, size); }
      JoinOfSplit(s[size..], size);
    }
  }

  // All thirteen bits of the packet identifier set, and the three flags above it clear.
  predicate IsNullPacket(p: seq<Byte>)
    requires |p| >= 4
  {
    p[1] == 0x1F && p[2] == 0xFF
  }

  function NullPacket(size: Size): (p: seq<Byte>)
    ensures |p| == size && IsNullPacket(p)
  {
    [0x47, 0x1F, 0xFF, 0x10] + seq(size - 4, i => 0xFF)
  }

  // ---- suppression and expansion as functions ----

  // The packet size a payload of this length is taken to have.
  function SizeOf(len: nat): (size: Option<Size>) {
    if len % 188 == 0 then Some(188) else if len % 204 == 0 then Some(204) else None
  }

  // The bits after the packets from the i-th on have been looked at.
  function MarkNulls(ps: seq<seq<Byte>>, i: nat, bits: Byte): Byte
    requires i <= |ps| <= 7 && forall k :: 0 <= k < |ps| ==> |ps[k]| >= 4
    decreases |ps| - i
  {
    if i == |ps| then bits else MarkNulls(ps, i + 1, if IsNullPacket(ps[i]) then SetBit(bits, 6 - i) else bits)
  }

  function CountNulls(ps: seq<seq<Byte>>, i: nat): (n: nat)
    requires i <= |ps| && forall k :: 0 <= k < |ps| ==> |ps[k]| >= 4
    ensures n <= |ps| - i
    decreases |ps| - i
  {
    if i == |ps| then 0 else (if IsNullPacket(ps[i]) then 1 else 0) + CountNulls(ps, i + 1)
  }

  // The packets whose bit is clear.
  function Kept(ps: seq<seq<Byte>>, i: nat, bits: Byte): seq<Byte>
    requires i <= |ps| <= 7
    decreases |ps| - i
  {
    if i == |ps| then [] else (if Bit(bits, 6 - i) then [] else ps[i]) + Kept(ps, i + 1, bits)
  }

  // The number of set bits from the i-th packet's down to the last.
  function CountBits(bits: Byte, i: nat): (n: nat)
    requires i <= 7
    ensures n <= 7 - i
    decreases 7 - i
  {
    if i == 7 then 0 else (if Bit(bits, 6 - i) then 1 else 0) + CountBits(bits, i + 1)
  }

  function SizeOfBits(bits: Byte): Size { if Bit(bits, 7) then 204 else 188 }

  // The packets from the i-th to the count-th, taken from the data or made up.
  function Rebuilt(data: seq<Byte>, bits: Byte, i: nat, count: nat): seq<Byte>
    requires i <= count <= 7
    decreases count - i
  {
    var size := SizeOfBits(bits);
    if i == count then []
    else if Bit(bits, 6 - i) then NullPacket(size) + Rebuilt(data, bits, i + 1, count)
    else if |data| < size then []
    else data[..size] + Rebuilt(data[size..], bits, i + 1, count)
  }

  // How many packets a compressed payload stands for.
  function PacketCount(len: nat, bits: Byte): nat { len / SizeOfBits(bits) + CountBits(bits, 0) }

  // How many of the packets from the i-th to the count-th are copied rather than made up.
  function CopiedFrom(bits: Byte, i: nat, count: nat): nat
    requires i <= count <= 7
  {
    BitsWithin(bits, i, count);
    count - i - (CountBits(bits, i) - CountBits(bits, count))
  }

  lemma {:induction false} BitsWithin(bits: Byte, i: nat, count: nat)
    requires i <= count <= 7
    ensures CountBits(bits, count) <= CountBits(bits, i) <= CountBits(bits, count) + count - i
    decreases count - i
  {
    if i < count { BitsWithin(bits, i + 1, count); }
  }

  function Copied(len: nat, bits: Byte): nat
    requires PacketCount(len, bits) <= 7
  {
    CopiedFrom(bits, 0, PacketCount(len, bits))
  }

  // The copies stay within a payload of this length if and only if no bit names a packet past the last one.
  lemma CopiesStayInside(len: nat, bits: Byte)
    requires PacketCount(len, bits) <= 7
    ensures Copied(len, bits) * SizeOfBits(bits) <= len <==> CountBits(bits, PacketCount(len, bits)) == 0
  {
    hide Bit, CountBits;
  }

  // Such bits can arrive: with one packet of data and only the lowest bit set, two packets are counted, neither
  // is marked, and both would be copied out of the one.
  lemma LowestBitReadsPastEnd()
    ensures PacketCount(188, 0x01) == 2 && CountBits(0x01, 2) == 1
    ensures Copied(188, 0x01) == 2 && SizeOfBits(0x01) == 188
  {
    assert CountBits(0x01, 6) == 1;
    assert CountBits(0x01, 4) == 1;
    assert CountBits(0x01, 2) == 1;
    assert CountBits(0x01, 0) == 1;
  }

  // Nor is the number of packets bounded by the seven that the bits can describe: two packets of data under seven
  // bits make nine, and for the eighth the source shifts by 6 - 7.
  lemma NinePackets()
    ensures PacketCount(376, 0x7F) == 9
  {
    assert CountBits(0x7F, 6) == 1;
    assert CountBits(0x7F, 4) == 3;
    assert CountBits(0x7F, 2) == 5;
    assert CountBits(0x7F, 0) == 7;
  }

  // What expansion makes of a payload; no bit set leaves it alone.
  function Expanded(data: seq<Byte>, bits: Byte): seq<Byte>
    requires PacketCount(|data|, bits) <= 7
  {
    if CountBits(bits, 0) == 0 then data else Rebuilt(data, bits, 0, PacketCount(|data|, bits))
  }

  // Each null packet replaced by the standard one.
  function Standardised(ps: seq<seq<Byte>>, size: Size): seq<Byte>
    requires forall k :: 0 <= k < |ps| ==> |ps[k]| == size
  {
    if ps == [] then []
    else (if IsNullPacket(ps[0]) then NullPacket(size) else ps[0]) + Standardised(ps[1..], size)
  }

  // A payload that can be compressed: one to seven packets, the first starting with a sync byte.
  predicate Eligible(payload: seq<Byte>) {
    payload != [] && payload[0] == 0x47 && SizeOf(|payload|).Some? && |payload| / SizeOf(|payload|).value <= 7
  }

  function SizeBit(size: Size): Byte {
    if size == 204 then SetBit(0, 7) else 0
  }

  function NullBits(payload: seq<Byte>): Byte
    requires Eligible(payload)
  {
    var size := SizeOf(|payload|).value;
    JoinOfSplit(payload, size);
    MarkNulls(Split(payload, size), 0, SizeBit(size))
  }

  // ---- the bits record exactly the null packets ----

  lemma {:induction false} MarkedBits(ps: seq<seq<Byte>>, i: nat, bits: Byte, k: nat)
    requires i <= |ps| <= 7 && forall j :: 0 <= j < |ps| ==> |ps[j]| >= 4
    requires k < 8
    ensures Bit(MarkNulls(ps, i, bits), k) <==> Bit(bits, k) || (k < 7 && i <= 6 - k < |ps| && IsNullPacket(ps[6 - k]))
    decreases |ps| - i
  {
    hide Bit, SetBit, IsNullPacket;
    if i < |ps| {
      var next := if IsNullPacket(ps[i]) then SetBit(bits, 6 - i) else bits;
      BitOfSetBit(bits, 6 - i, k);
      MarkedBits(ps, i + 1, next, k);
    }
  }

  // Bits that say of each packet whether it is null, and nothing else.
  ghost predicate Describes(bits: Byte, ps: seq<seq<Byte>>)
    requires |ps| <= 7 && forall j :: 0 <= j < |ps| ==> |ps[j]| >= 4
  {
    forall i :: 0 <= i < 7 ==> Tells(bits, ps, i)
  }

  // The i-th bit says whether there is an i-th packet that is null.
  predicate Tells(bits: Byte, ps: seq<seq<Byte>>, i: nat)
    requires i < 7 && forall j :: 0 <= j < |ps| ==> |ps[j]| >= 4
  {
    Bit(bits, 6 - i) <==> i < |ps| && IsNullPacket(ps[i])
  }

  lemma MarkedBitsDescribe(ps: seq<seq<Byte>>, size: Size)
    requires |ps| <= 7 && forall j :: 0 <= j < |ps| ==> |ps[j]| == size
    ensures Describes(MarkNulls(ps, 0, SizeBit(size)), ps)
    ensures SizeOfBits(MarkNulls(ps, 0, SizeBit(size))) == size
  {
    hide Bit, SetBit, IsNullPacket;
    var bits := MarkNulls(ps, 0, SizeBit(size));
    forall k | 0 <= k < 8
      ensures Bit(SizeBit(size), k) <==> size == 204 && k == 7
    {
      BitOfSetBit(0, 7, k);
      NoBits(k);
    }
    forall i | 0 <= i < 7
      ensures Tells(bits, ps, i)
    {
      MarkedBits(ps, 0, SizeBit(size), 6 - i);
    }
    MarkedBits(ps, 0, SizeBit(size), 7);
  }

  lemma {:induction false} DescribedCount(bits: Byte, ps: seq<seq<Byte>>, i: nat)
    requires |ps| <= 7 && forall j :: 0 <= j < |ps| ==> |ps[j]| >= 4
    requires Describes(bits, ps) && i <= 7
    ensures CountBits(bits, i) == if i <= |ps| then CountNulls(ps, i) else 0
    decreases 7 - i
  {
    hide Bit, IsNullPacket;
    if i < 7 {
      assert Tells(bits, ps, i);
      DescribedCount(bits, ps, i + 1);
    }
  }

  lemma {:induction false} KeptLength(bits: Byte, ps: seq<seq<Byte>>, size: Size, i: nat)
    requires |ps| <= 7 && forall j :: 0 <= j < |ps| ==> |ps[j]| == size
    requires Describes(bits, ps) && i <= |ps|
    ensures |Kept(ps, i, bits)| == (|ps| - i - CountNulls(ps, i)) * size
    decreases |ps| - i
  {
    hide Bit, IsNullPacket;
    if i < |ps| {
      assert Tells(bits, ps, i);
      KeptLength(bits, ps, size, i + 1);
    }
  }

  // Rebuilding puts a standard null packet where each null was, and every other packet back in its place.
  lemma {:induction false} RebuiltStandardises(bits: Byte, ps: seq<seq<Byte>>, size: Size, i: nat)
    requires |ps| <= 7 && forall j :: 0 <= j < |ps| ==> |ps[j]| == size
    requires Describes(bits, ps) && SizeOfBits(bits) == size && i <= |ps|
    ensures Rebuilt(Kept(ps, i, bits), bits, i, |ps|) == Standardised(ps[i..], size)
    decreases |ps| - i
  {
    hide Bit, IsNullPacket, NullPacket;
    if i < |ps| {
      assert Tells(bits, ps, i);
      assert ps[i..][1..] == ps[i + 1..];
      var rest := Kept(ps, i + 1, bits);
      if IsNullPacket(ps[i]) {
        assert Kept(ps, i, bits) == rest;
      } else {
        assert Kept(ps, i, bits)[..size] == ps[i] && Kept(ps, i, bits)[size..] == rest;
      }
      RebuiltStandardises(bits, ps, size, i + 1);
    }
  }

  lemma CopiedStep(bits: Byte, i: nat, count: nat, size: nat)
    requires i < count <= 7
    ensures CopiedFrom(bits, i, count) * size ==
      CopiedFrom(bits, i + 1, count) * size + if Bit(bits, 6 - i) then 0 else size
  {
    hide Bit;
    var n := CopiedFrom(bits, i + 1, count);
    assert (n + 1) * size == n * size + size;
  }

  lemma CopiedNonnegative(bits: Byte, i: nat, count: nat, size: nat)
    requires i <= count <= 7
    ensures CopiedFrom(bits, i, count) * size >= 0
  {
  }

  // What lies behind the packets to be copied makes no difference.
  lemma {:induction false} RebuiltIgnoresTail(data: seq<Byte>, tail: seq<Byte>, bits: Byte, i: nat, count: nat)
    requires i <= count <= 7 && |data| >= CopiedFrom(bits, i, count) * SizeOfBits(bits)
    ensures Rebuilt(data + tail, bits, i, count) == Rebuilt(data, bits, i, count)
    decreases count - i
  {
    hide Bit, NullPacket, SizeOfBits, CopiedFrom;
    var size := SizeOfBits(bits);
    if i < count {
      CopiedStep(bits, i, count, size);
      CopiedNonnegative(bits, i + 1, count, size);
      if Bit(bits, 6 - i) {
        RebuiltIgnoresTail(data, tail, bits, i + 1, count);
      } else {
        assert (data + tail)[..size] == data[..size] && (data + tail)[size..] == data[size..] + tail;
        RebuiltIgnoresTail(data[size..], tail, bits, i + 1, count);
      }
    }
  }

  // With honest bits the payload alone decides the expansion.
  lemma ReadsPayloadOnly(data: seq<Byte>, tail: seq<Byte>, bits: Byte)
    requires PacketCount(|data|, bits) <= 7 && CountBits(bits, 0) > 0
    requires CountBits(bits, PacketCount(|data|, bits)) == 0
    ensures Rebuilt(data + tail, bits, 0, PacketCount(|data|, bits)) == Expanded(data, bits)
  {
    hide Rebuilt, CountBits, PacketCount;
    CopiesStayInside(|data|, bits);
    RebuiltIgnoresTail(data, tail, bits, 0, PacketCount(|data|, bits));
  }

  // ---- sender and receiver together ----

  // What the sender puts on the wire: the compressed payload with its bits, or the payload as it is.
  datatype Datagram = Plain(payload: seq<Byte>) | Compressed(payload: seq<Byte>, bits: Byte)

  function Send(payload: seq<Byte>): Datagram {
    if !Eligible(payload) then Plain(payload)
    else
      var size := SizeOf(|payload|).value;
      JoinOfSplit(payload, size);
      var ps := Split(payload, size);
      if CountNulls(ps, 0) == 0 then Plain(payload) else Compressed(Kept(ps, 0, NullBits(payload)), NullBits(payload))
  }

  ghost predicate Readable(d: Datagram) {
    d.Compressed? ==> PacketCount(|d.payload|, d.bits) <= 7
  }

  function Receive(d: Datagram): seq<Byte>
    requires Readable(d)
  {
    if d.Plain? then d.payload else Expanded(d.payload, d.bits)
  }

  lemma {:induction false} NoNullsIsStandard(ps: seq<seq<Byte>>, size: Size, i: nat)
    requires i <= |ps| && forall k :: 0 <= k < |ps| ==> |ps[k]| == size
    requires CountNulls(ps, i) == 0
    ensures Standardised(ps[i..], size) == Join(ps[i..])
    decreases |ps| - i
  {
    hide IsNullPacket, NullPacket;
    if i < |ps| {
      assert ps[i..][1..] == ps[i + 1..];
      NoNullsIsStandard(ps, size, i + 1);
    }
  }

  lemma ExpandsToStandard(ps: seq<seq<Byte>>, size: Size, bits: Byte)
    requires |ps| <= 7 && forall k :: 0 <= k < |ps| ==> |ps[k]| == size
    requires CountNulls(ps, 0) > 0 && bits == MarkNulls(ps, 0, SizeBit(size))
    ensures var kept := Kept(ps, 0, bits);
      && PacketCount(|kept|, bits) == |ps|
      && Expanded(kept, bits) == Standardised(ps, size)
  {
    hide Kept, MarkNulls, Standardised, Rebuilt, CountNulls, CountBits, SizeOfBits, Describes;
    assert ps[0..] == ps;
    MarkedBitsDescribe(ps, size);
    DescribedCount(bits, ps, 0);
    KeptLength(bits, ps, size, 0);
    RebuiltStandardises(bits, ps, size, 0);
  }

  // Whatever the payload, the receiver gets it back with each null packet in its place as the standard null
  // packet; a payload that is not eligible, or has no nulls, comes back unchanged.
  lemma SuppressThenExpand(payload: seq<Byte>)
    ensures Readable(Send(payload))
    ensures Receive(Send(payload)) == if Eligible(payload)
      then Standardised(Split(payload, SizeOf(|payload|).value), SizeOf(|payload|).value) else payload
  {
    hide Kept, MarkNulls, Standardised, Expanded, CountNulls, CountBits, PacketCount, Split, Join;
    if Eligible(payload) {
      var size := SizeOf(|payload|).value;
      JoinOfSplit(payload, size);
      var ps := Split(payload, size);
      assert ps[0..] == ps;
      if CountNulls(ps, 0) == 0 {
        NoNullsIsStandard(ps, size, 0);
      } else {
        ExpandsToStandard(ps, size, NullBits(payload));
      }
    }
  }
}
