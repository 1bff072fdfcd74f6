// Fixed-width integers and their big-endian byte images.
module Bytes {
  type Byte = bv8
  type U16 = n: int | 0 <= n < 0x1_0000
  type U32 = n: int | 0 <= n < 0x1_0000_0000
  type U64 = n: int | 0 <= n < 0x1_0000_0000_0000_0000

  // Clock ticks in a millisecond.
  const RIST_CLOCK: nat := 4294967

  datatype Option<+T> = None | Some(value: T)

  // C's conversions of an out-of-range sum or difference to an unsigned type.
  function Wrap16(n: int): U16 { n % 0x1_0000 }
  function Wrap32(n: int): U32 { n % 0x1_0000_0000 }
  function Wrap64(n: int): U64 { n % 0x1_0000_0000_0000_0000 }

  // The byte whose unsigned value is n.
  function ByteOf(n: int): Byte
    requires 0 <= n < 256
  {
    if n == 0 then 0 else ByteOf(n - 1) + 1
  }

  lemma IncrementByte(b: Byte)
    requires b as int < 255
    ensures (b + 1) as int == b as int + 1
  {
  }

  lemma {:induction false} ByteOfInt(n: int)
    requires 0 <= n < 256
    ensures ByteOf(n) as int == n
  {
    if n > 0 {
      ByteOfInt(n - 1);
      IncrementByte(ByteOf(n - 1));
    }
  }

  lemma ByteOfByte(b: Byte)
    ensures 0 <= b as int < 256 && ByteOf(b as int) == b
  {
    ByteOfInt(b as int);
    assert (ByteOf(b as int) as int) as bv8 == ByteOf(b as int);
  }

  // The four bytes of a 32-bit word, the most significant one being byte 3.
  function Byte3(w: bv32): Byte { ((w >> 24) & 0xFF) as bv8 }

  function Byte2(w: bv32): Byte { ((w >> 16) & 0xFF) as bv8 }

  function Byte1(w: bv32): Byte { ((w >> 8) & 0xFF) as bv8 }

  function Byte0(w: bv32): Byte { (w & 0xFF) as bv8 }

  function WordBytes(w: bv32): (s: seq<Byte>)
    ensures |s| == 4
  {
    [Byte3(w), Byte2(w), Byte1(w), Byte0(w)]
  }

  // The word of four bytes, the most significant one first.
  function WordOf(b0: Byte, b1: Byte, b2: Byte, b3: Byte): bv32 {
    (b0 as bv32 << 24) | (b1 as bv32 << 16) | (b2 as bv32 << 8) | (b3 as bv32)
  }

  function Xor8(a: Byte, b: Byte): Byte { a ^ b }

  function Xor32(a: bv32, b: bv32): bv32 { a ^ b }

  // The first string combined with as many bytes of the second.
  function XorBytes(a: seq<Byte>, b: seq<Byte>): (c: seq<Byte>)
    requires |a| <= |b|
    ensures |c| == |a|
  {
    seq(|a|, i requires 0 <= i < |a| => Xor8(a[i], b[i]))
  }

  function Zeros(n: nat): (s: seq<Byte>)
    ensures |s| == n
  {
    seq(n, i => 0)
  }

  function Be16(n: U16): (s: seq<Byte>)
    ensures |s| == 2
  {
    [ByteOf(n / 256), ByteOf(n % 256)]
  }

  function Be32(n: U32): (s: seq<Byte>)
    ensures |s| == 4
  {
    [ByteOf(n / 0x100_0000), ByteOf(n / 0x1_0000 % 256), ByteOf(n / 0x100 % 256), ByteOf(n % 256)]
  }

  function Int16(hi: Byte, lo: Byte): U16 {
    256 * (hi as int) + (lo as int)
  }

  // The 13-bit number in the low bits of two bytes.
  function Int13(hi: Byte, lo: Byte): (n: U16)
    ensures n < 0x2000
  {
    ByteOfByte(hi);
    ByteOfByte(lo);
    (hi as int) % 32 * 256 + (lo as int)
  }

  function Int32(b0: Byte, b1: Byte, b2: Byte, b3: Byte): U32 {
    0x100_0000 * (b0 as int) + 0x1_0000 * (b1 as int) + 0x100 * (b2 as int) + (b3 as int)
  }

  lemma Int16OfBe16(n: U16)
    ensures Int16(Be16(n)[0], Be16(n)[1]) == n
  {
    ByteOfInt(n / 256);
    ByteOfInt(n % 256);
  }

  lemma Int32OfBe32(n: U32)
    ensures var s := Be32(n); Int32(s[0], s[1], s[2], s[3]) == n
  {
    assert n == 0x100 * (n / 0x100) + n % 0x100;
    assert n / 0x100 == 0x100 * (n / 0x1_0000) + n / 0x100 % 0x100;
    assert n / 0x1_0000 == 0x100 * (n / 0x100_0000) + n / 0x1_0000 % 0x100;
    ByteOfInt(n / 0x100_0000);
    ByteOfInt(n / 0x1_0000 % 256);
    ByteOfInt(n / 0x100 % 256);
    ByteOfInt(n % 256);
  }
}

// MPEG transport stream packets (ISO/IEC 13818-1, section 2.4.3.2).
module TransportStream {
  import opened Bytes
  import opened Sequences

  const TS_PACKET_SIZE: nat := 188
  const SYNC_BYTE: Byte := 0x47

  type TsPacket = p: seq<Byte> | |p| == TS_PACKET_SIZE witness seq(188, i => 0)

  predicate HasSync(p: TsPacket) { p[0] == SYNC_BYTE }

  // The 13-bit packet identifier.
  function Pid(p: TsPacket): U16 { Int13(p[1], p[2]) }

  predicate IsMarker(p: TsPacket) { HasSync(p) && Pid(p) == 0x1FF0 }

  predicate IsNull(p: TsPacket) { HasSync(p) && Pid(p) == 0x1FFF }

  // The whole pieces of this size of a byte string; a shorter tail is ignored.
  function Split(s: seq<Byte>, size: nat): (ps: seq<seq<Byte>>)
    requires size > 0
    ensures forall i :: 0 <= i < |ps| ==> |ps[i]| == size
    decreases |s|
  {
    if |s| < size then [] else [s[..size]] + Split(s[size..], size)
  }

  function Packets(bytes: seq<Byte>): (ps: seq<TsPacket>)
    ensures |ps| == |bytes| / TS_PACKET_SIZE
  {
    SplitLength(bytes);
    Split(bytes, TS_PACKET_SIZE)
  }

  lemma {:induction false} SplitLength(bytes: seq<Byte>)
    ensures |Split(bytes, TS_PACKET_SIZE)| == |bytes| / TS_PACKET_SIZE
    decreases |bytes|
  {
    if |bytes| >= TS_PACKET_SIZE { SplitLength(bytes[TS_PACKET_SIZE..]); }
  }

  function Flatten(ps: seq<TsPacket>): (bytes: seq<Byte>)
    ensures |bytes| == TS_PACKET_SIZE * |ps|
  {
    JoinLength(ps);
    Join(ps)
  }

  lemma {:induction false} JoinLength(ps: seq<TsPacket>)
    ensures |Join(ps)| == TS_PACKET_SIZE * |ps|
  {
    if ps != [] { JoinLength(ps[1..]); }
  }

  lemma {:induction false} PacketsAt(bytes: seq<Byte>, k: nat)
    requires k < |bytes| / TS_PACKET_SIZE
    ensures Packets(bytes)[k] == bytes[TS_PACKET_SIZE * k..TS_PACKET_SIZE * (k + 1)]
  {
    if k > 0 {
      PacketsAt(bytes[TS_PACKET_SIZE..], k - 1);
    }
  }

  lemma {:induction false} PacketsOfFlatten(ps: seq<TsPacket>)
    ensures Packets(Flatten(ps)) == ps
  {
    if ps != [] {
      assert Flatten(ps)[TS_PACKET_SIZE..] == Flatten(ps[1..]);
      PacketsOfFlatten(ps[1..]);
    }
  }

  lemma {:induction false} FlattenConcat(a: seq<TsPacket>, b: seq<TsPacket>)
    ensures Flatten(a + b) == Flatten(a) + Flatten(b)
  {
    if a == [] {
      assert a + b == b;
    } else {
      assert (a + b)[1..] == a[1..] + b;
      FlattenConcat(a[1..], b);
    }
  }

  // Cutting into packets distributes over any join at a packet boundary.
  lemma {:induction false} PacketsConcat(a: seq<Byte>, b: seq<Byte>, n: nat)
    requires |a| == TS_PACKET_SIZE * n
    ensures Packets(a + b) == Packets(a) + Packets(b)
  {
    if n == 0 {
      assert a + b == b;
    } else {
      assert |a| >= TS_PACKET_SIZE;
      var first, rest := a[..TS_PACKET_SIZE], a[TS_PACKET_SIZE..];
      assert (a + b)[TS_PACKET_SIZE..] == rest + b;
      assert (a + b)[..TS_PACKET_SIZE] == first;
      PacketsConcat(rest, b, n - 1);
      assert [first] + (Packets(rest) + Packets(b)) == ([first] + Packets(rest)) + Packets(b);
    }
  }
}
