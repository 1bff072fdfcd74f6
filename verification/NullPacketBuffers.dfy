// Null-packet deletion as the library runs it: running offsets over byte buffers written in place.
module NullPacketBuffers {
  import opened Bytes
  import opened Sequences
  import opened TransportStream
  import opened NullPackets

  // The two bytes of the RTP header extension that describe deleted null packets.
  class HeaderExt {
    var flags: Byte
    var npdBits: Byte

    constructor ()
      ensures flags == 0 && npdBits == 0
    {
      flags, npdBits := 0, 0;
    }
  }

  method CopyBytes(src: array<Byte>, from: nat, n: nat, dst: array<Byte>, at: nat)
    requires src != dst && from + n <= src.Length && at + n <= dst.Length
    modifies dst
    ensures dst[..at + n] == old(dst[..at]) + src[from..from + n]
  {
    forall k | 0 <= k < n {
      dst[at + k] := src[from + k];
    }
  }

  // The payload from one packet boundary to the next.
  lemma SplitStep(s: seq<Byte>, at: nat, size: Size, ps: seq<seq<Byte>>, i: nat)
    requires at <= |s| && i <= |ps| && Split(s[at..], size) == ps[i..]
    ensures i < |ps| <==> at + size <= |s|
    ensures i < |ps| ==> ps[i] == s[at..at + size] && Split(s[at + size..], size) == ps[i + 1..]
  {
    if at + size <= |s| {
      assert s[at..][..size] == s[at..at + size] && s[at..][size..] == s[at + size..];
      assert ps[i] == ps[i..][0] && ps[i + 1..] == ps[i..][1..];
    }
  }

  lemma OneMore(n: nat, size: nat)
    ensures (n + 1) * size == n * size + size
  {
  }

  // Marks the null packets, counting them and taking their size off the length.
  method MarkNullPackets(payload: array<Byte>, len: nat, size: Size, count: nat, ext: HeaderExt,
                         ghost ps: seq<seq<Byte>>)
    returns (suppressed: nat, newLen: nat)
    requires len <= payload.Length && |ps| == count <= 7 && ps == Split(payload[..len], size)
    modifies ext
    ensures ext.flags == old(ext.flags) && ext.npdBits == MarkNulls(ps, 0, old(ext.npdBits))
    ensures suppressed == CountNulls(ps, 0) && newLen + suppressed * size == len
  {
    hide Split, SetBit;
    var offset: nat := 0;
    suppressed, newLen := 0, len;
    assert payload[..len][0..] == payload[..len] && ps[0..] == ps;
    for i := 0 to count
      invariant len - newLen <= offset <= len && Split(payload[..len][offset..], size) == ps[i..]
      invariant ext.flags == old(ext.flags)
      invariant MarkNulls(ps, i, ext.npdBits) == MarkNulls(ps, 0, old(ext.npdBits))
      invariant suppressed + CountNulls(ps, i) == CountNulls(ps, 0)
      invariant newLen + suppressed * size == len
    {
      SplitStep(payload[..len], offset, size, ps, i);
      assert IsNullPacket(ps[i]) <==> payload[offset + 1] == 0x1F && payload[offset + 2] == 0xFF;
      if payload[offset + 1] == 0x1F && payload[offset + 2] == 0xFF {
        OneMore(suppressed, size);
        newLen := newLen - size;
        ext.npdBits := SetBit(ext.npdBits, 6 - i);
        suppressed := suppressed + 1;
      }
      offset := offset + size;
    }
  }

  // Copies the packets whose bit is clear to the front of the output.
  method CopyKept(payload: array<Byte>, len: nat, size: Size, count: nat, bits: Byte, out: array<Byte>,
                  ghost ps: seq<seq<Byte>>)
    requires payload != out && len <= payload.Length && len <= out.Length
    requires |ps| == count <= 7 && ps == Split(payload[..len], size)
    modifies out
    ensures |Kept(ps, 0, bits)| <= out.Length && out[..|Kept(ps, 0, bits)|] == Kept(ps, 0, bits)
  {
    hide Split, Bit;
    ghost var all := Kept(ps, 0, bits);
    var offset: nat, outputOffset: nat := 0, 0;
    assert payload[..len][0..] == payload[..len] && ps[0..] == ps;
    for i := 0 to count
      invariant outputOffset <= offset <= len && Split(payload[..len][offset..], size) == ps[i..]
      invariant out[..outputOffset] + Kept(ps, i, bits) == all
    {
      SplitStep(payload[..len], offset, size, ps, i);
      if !Bit(bits, 6 - i) {
        ghost var done := out[..outputOffset];
        assert ps[i] == payload[offset..offset + size];
        CopyBytes(payload, offset, size, out, outputOffset);
        assert (done + ps[i]) + Kept(ps, i + 1, bits) == done + (ps[i] + Kept(ps, i + 1, bits));
        outputOffset := outputOffset + size;
      }
      offset := offset + size;
    }
    assert out[..outputOffset] == all;
  }

  // Compresses a payload. The header extension comes in cleared. The first byte of the buffer is looked at even
  // when the payload is empty. When the payload does not start with a sync byte the presence flag, already set,
  // stays set.
  method SuppressNullPackets(payload: array<Byte>, len: nat, out: array<Byte>, ext: HeaderExt)
    returns (r: int, newLen: nat)
    requires payload != out && len <= payload.Length && payload.Length > 0 && len <= out.Length
    requires ext.npdBits == 0 && ext.flags == 0
    modifies out, ext
    ensures len > 0 ==> (r == -1 <==> !Eligible(payload[..len]))
    ensures len == 0 ==> r == if payload[0] == 0x47 then 0 else -1
    ensures r <= 0 ==> newLen == len
    ensures r >= 0 ==> r == CountNulls(Split(payload[..len], SizeOf(len).value), 0) && ext.flags == SetBit(0, 7)
    ensures r <= 0 ==> Send(payload[..len]) == Plain(payload[..len])
    ensures r > 0 ==> newLen <= out.Length && Send(payload[..len]) == Compressed(out[..newLen], ext.npdBits)
    ensures r == -1 ==> (ext.flags == SetBit(0, 7) <==> SizeOf(len).Some? && len / SizeOf(len).value <= 7)
  {
    hide Split, SetBit, MarkNulls, CountNulls, Kept, Join;
    var size: Size := 188;
    newLen := len;
    FlagSet();
    if len % 188 != 0 {
      size := 204;
      if len % 204 != 0 {
        return -1, len;
      }
      ext.npdBits := SetBit(ext.npdBits, 7);
    }
    if len / size > 7 {
      return -1, len;
    }
    ext.flags := SetBit(ext.flags, 7);
    if payload[0] != 0x47 {
      ext.flags := UnsetBit(ext.flags, 7);
      return -1, len;
    }
    ghost var ps := Split(payload[..len], size);
    JoinOfSplit(payload[..len], size);
    var suppressed: nat;
    suppressed, newLen := MarkNullPackets(payload, len, size, len / size, ext, ps);
    r := suppressed;
    if suppressed > 0 {
      KeptSize(ps, size);
      CopyKept(payload, len, size, len / size, ext.npdBits, out, ps);
    }
  }

  lemma FlagSet()
    ensures SetBit(0, 7) != 0 && UnsetBit(SetBit(0, 7), 7) == SetBit(0, 7)
  {
  }

  lemma KeptSize(ps: seq<seq<Byte>>, size: Size)
    requires |ps| <= 7 && forall j :: 0 <= j < |ps| ==> |ps[j]| == size
    ensures |Kept(ps, 0, MarkNulls(ps, 0, SizeBit(size)))| == |ps| * size - CountNulls(ps, 0) * size
  {
    MarkedBitsDescribe(ps, size);
    KeptLength(MarkNulls(ps, 0, SizeBit(size)), ps, size, 0);
  }

  // The standard null packet, written field by field.
  method WriteNullPacket(out: array<Byte>, at: nat, size: Size)
    requires at + size <= out.Length
    modifies out
    ensures out[..at + size] == old(out[..at]) + NullPacket(size)
  {
    out[at], out[at + 1], out[at + 2], out[at + 3] := 0x47, 0x1F, 0xFF, 0x10;
    forall k | 4 <= k < size {
      out[at + k] := 0xFF;
    }
    ghost var p := NullPacket(size);
    forall k | 0 <= k < size
      ensures out[at + k] == p[k]
    {
    }
    assert out[..at] == old(out[..at]) && out[at..at + size] == p;
  }

  // What is written so far, and what the packets from the i-th on will add, make up the whole.
  ghost predicate Progress(done: seq<Byte>, data: seq<Byte>, at: nat, bits: Byte, i: nat, count: nat, all: seq<Byte>)
    requires i <= count <= 7 && at <= |data|
  {
    done + Rebuilt(data[at..], bits, i, count) == all
  }

  lemma ProgressStep(done: seq<Byte>, data: seq<Byte>, at: nat, bits: Byte, i: nat, count: nat, all: seq<Byte>)
    requires i < count <= 7 && at <= |data| && Progress(done, data, at, bits, i, count, all)
    requires Bit(bits, 6 - i) || at + SizeOfBits(bits) <= |data|
    ensures Bit(bits, 6 - i) ==> Progress(done + NullPacket(SizeOfBits(bits)), data, at, bits, i + 1, count, all)
    ensures !Bit(bits, 6 - i) ==>
      Progress(done + data[at..at + SizeOfBits(bits)], data, at + SizeOfBits(bits), bits, i + 1, count, all)
  {
    hide Bit, NullPacket, SizeOfBits;
    var size := SizeOfBits(bits);
    if !Bit(bits, 6 - i) {
      assert data[at..][size..] == data[at + size..] && data[at..][..size] == data[at..at + size];
    }
  }

  // From the empty output to the whole expansion.
  lemma ProgressStarts(data: seq<Byte>, bits: Byte, count: nat)
    requires count <= 7
    ensures Progress([], data, 0, bits, 0, count, Rebuilt(data, bits, 0, count))
  {
    assert data[0..] == data;
  }

  lemma ProgressEnds(data: seq<Byte>, bits: Byte, count: nat, done: seq<Byte>, at: nat, all: seq<Byte>)
    requires count <= 7 && at <= |data| && Progress(done, data, at, bits, count, count, all)
    ensures done == all
  {
  }

  // The data still to be read holds the packets that will be copied, and the output has room.
  ghost predicate Enough(left: nat, room: nat, bits: Byte, i: nat, count: nat)
    requires i <= count <= 7
  {
    left >= CopiedFrom(bits, i, count) * SizeOfBits(bits) && room >= (count - i) * SizeOfBits(bits)
  }

  lemma EnoughStep(left: nat, room: nat, bits: Byte, i: nat, count: nat)
    requires i < count <= 7 && Enough(left, room, bits, i, count)
    ensures room >= SizeOfBits(bits)
    ensures Bit(bits, 6 - i) ==> Enough(left, room - SizeOfBits(bits), bits, i + 1, count)
    ensures !Bit(bits, 6 - i) ==>
      left >= SizeOfBits(bits) && Enough(left - SizeOfBits(bits), room - SizeOfBits(bits), bits, i + 1, count)
  {
    hide Bit, SizeOfBits;
    OneMore(count - i - 1, SizeOfBits(bits));
    if !Bit(bits, 6 - i) {
      OneMore(CopiedFrom(bits, i + 1, count), SizeOfBits(bits));
    }
  }

  // What the buffers have to hold: at most seven packets, since the bit of an eighth would need a shift by a
  // negative amount, as much input as is copied, and room for the output.
  predicate WithinBuffers(len: nat, bits: Byte, input: nat, output: nat) {
    PacketCount(len, bits) <= 7 && Copied(len, bits) * SizeOfBits(bits) <= input
    && PacketCount(len, bits) * SizeOfBits(bits) <= output
  }

  lemma EnoughAtStart(len: nat, bits: Byte, input: nat, output: nat)
    requires WithinBuffers(len, bits, input, output)
    ensures PacketCount(len, bits) <= 7 && Enough(input, output, bits, 0, PacketCount(len, bits))
  {
  }

  // One packet of the output: a null packet, or the next one of the input.
  method WritePacket(payload: array<Byte>, from: nat, out: array<Byte>, at: nat, size: Size, missing: bool,
                     ghost data: seq<Byte>)
    returns (next: nat)
    requires payload != out && at + size <= out.Length && |data| <= payload.Length && data == payload[..|data|]
    requires from <= |data| && (missing || from + size <= |data|)
    modifies out
    ensures next == if missing then from else from + size
    ensures out[..at + size] == old(out[..at]) + if missing then NullPacket(size) else data[from..from + size]
  {
    hide NullPacket;
    next := from;
    if missing {
      WriteNullPacket(out, at, size);
    } else {
      CopyBytes(payload, from, size, out, at);
      assert data[from..from + size] == payload[from..from + size];
      next := from + size;
    }
  }

  // Where the rebuilding stands after i packets: offset bytes written, from bytes read.
  ghost predicate Rebuilding(out: seq<Byte>, offset: nat, data: seq<Byte>, from: nat, bits: Byte, i: nat, count: nat,
                             all: seq<Byte>)
    requires i <= count <= 7
  {
    && from <= |data| && offset <= |out| && Enough(|data| - from, |out| - offset, bits, i, count)
    && Progress(out[..offset], data, from, bits, i, count, all)
  }

  method ExpandOne(payload: array<Byte>, out: array<Byte>, bits: Byte, i: nat, count: nat, offset: nat, from: nat,
                   ghost data: seq<Byte>, ghost all: seq<Byte>)
    returns (nextOffset: nat, nextFrom: nat)
    requires payload != out && |data| <= payload.Length && data == payload[..|data|]
    requires i < count <= 7 && Rebuilding(out[..], offset, data, from, bits, i, count, all)
    modifies out
    ensures Rebuilding(out[..], nextOffset, data, nextFrom, bits, i + 1, count, all)
  {
    hide Bit, NullPacket, SizeOfBits, Progress, Enough, CountBits;
    EnoughStep(|data| - from, out.Length - offset, bits, i, count);
    assert out[..offset] == out[..][..offset];
    ProgressStep(out[..offset], data, from, bits, i, count, all);
    nextFrom := WritePacket(payload, from, out, offset, SizeOfBits(bits), Bit(bits, 6 - i), data);
    nextOffset := offset + SizeOfBits(bits);
    assert out[..nextOffset] == out[..][..nextOffset];
  }

  // Rebuilds a payload from the packets kept and the bits. Bits that name a packet past the last make it read
  // on in the buffer, past the payload; otherwise the result is the expansion.
  method ExpandNullPackets(payload: array<Byte>, len: nat, out: array<Byte>, bits: Byte)
    returns (changed: bool, newLen: nat)
    requires payload != out && len <= payload.Length
    requires CountBits(bits, 0) > 0 ==> WithinBuffers(len, bits, payload.Length, out.Length)
    modifies out
    ensures changed <==> CountBits(bits, 0) > 0
    ensures changed ==> newLen <= out.Length
    ensures changed ==> out[..newLen] == Rebuilt(payload[..], bits, 0, PacketCount(len, bits))
    ensures changed && CountBits(bits, PacketCount(len, bits)) == 0 ==> out[..newLen] == Expanded(payload[..len], bits)
    ensures !changed ==> newLen == len && out[..] == old(out[..])
  {
    hide Bit, NullPacket, SizeOfBits, Progress, Enough, CountBits, WithinBuffers, PacketCount, Rebuilt;
    var nulls := CountBits(bits, 0);
    if nulls == 0 {
      return false, len;
    }
    EnoughAtStart(len, bits, payload.Length, out.Length);
    var count := PacketCount(len, bits);
    ghost var data, all := payload[..], Rebuilt(payload[..], bits, 0, count);
    var offset: nat, from: nat := 0, 0;
    ProgressStarts(data, bits, count);
    for i := 0 to count
      invariant Rebuilding(out[..], offset, data, from, bits, i, count, all)
    {
      offset, from := ExpandOne(payload, out, bits, i, count, offset, from, data, all);
    }
    ProgressEnds(data, bits, count, out[..][..offset], from, all);
    if CountBits(bits, count) == 0 {
      ReadsPayloadOnly(payload[..len], payload[len..], bits);
      assert payload[..len] + payload[len..] == payload[..];
    }
    assert out[..offset] == out[..][..offset];
    return true, offset;
  }

  // What the sender compresses meets the terms of expansion.
  lemma SentIsExpandable(payload: seq<Byte>)
    requires Send(payload).Compressed?
    ensures var d := Send(payload);
      WithinBuffers(|d.payload|, d.bits, |d.payload|, |payload|)
      && CountBits(d.bits, PacketCount(|d.payload|, d.bits)) == 0
  {
    hide Kept, MarkNulls, CountNulls, CountBits, SizeOfBits, Split, Describes;
    var size := SizeOf(|payload|).value;
    JoinOfSplit(payload, size);
    var ps := Split(payload, size);
    MarkedBitsDescribe(ps, size);
    ExpandsToStandard(ps, size, NullBits(payload));
    DescribedCount(NullBits(payload), ps, |ps|);
    NoNullsLeft(ps);
  }

  lemma NoNullsLeft(ps: seq<seq<Byte>>)
    requires forall k :: 0 <= k < |ps| ==> |ps[k]| >= 4
    ensures CountNulls(ps, |ps|) == 0
  {
  }
}
