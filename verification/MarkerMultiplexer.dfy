// The receiver that re-multiplexes RIST payloads: it counts the packets of every block of five RTP
// payloads, closes the block with a marker, and sends everything in datagrams of seven packets.
module MarkerMultiplexer {
  import opened Bytes
  import opened Sequences
  import opened TransportStream
  import opened Crc32
  import opened MarkerCodec

  const UDP_PAYLOAD_SIZE: nat := 1316

  datatype Payload = Payload(seqNo: U64, flowId: U32, data: seq<Byte>)

  // The globals behind marker generation.
  datatype Mux = Mux(
    markerSequence: U32,
    inBlock: U32,
    startSeq: U16,
    nonNull: U16,
    nulls: U16,
    ssrc: U32,
    cc: Byte,
    firstMarkerSent: bool)

  const INITIAL_MUX: Mux := Mux(1, 0, 0, 0, 0, 0, 0, false)

  function NullCount(ps: seq<TsPacket>): (n: nat)
    ensures n <= |ps|
  {
    if ps == [] then 0
    else NullCount(ps[..|ps| - 1]) + if IsNull(ps[|ps| - 1]) then 1 else 0
  }

  function NonNullCount(ps: seq<TsPacket>): (n: nat)
    ensures n + NullCount(ps) <= |ps|
  {
    if ps == [] then 0
    else NonNullCount(ps[..|ps| - 1]) + if HasSync(ps[|ps| - 1]) && !IsNull(ps[|ps| - 1]) then 1 else 0
  }

  // The fields of the marker that closes the current block.
  function CurrentMarker(x: Mux): Marker {
    Marker(x.markerSequence, x.nonNull, x.nulls, x.startSeq,
           Wrap16(x.startSeq + RTP_PAYLOADS_PER_MARKER), x.ssrc)
  }

  function StartBlock(x: Mux, p: Payload): Mux {
    if x.inBlock == 0 then
      x.(ssrc := p.flowId, startSeq := Wrap16(p.seqNo), nonNull := if x.firstMarkerSent then 1 else 0, nulls := 0)
    else x.(ssrc := p.flowId)
  }

  function CountPayload(x: Mux, p: Payload): Mux {
    var ps := Packets(p.data);
    x.(nonNull := Wrap16(x.nonNull + NonNullCount(ps)), nulls := Wrap16(x.nulls + NullCount(ps)),
       inBlock := Wrap32(x.inBlock + 1))
  }

  // The four-bit continuity counter of the marker PID.
  function NextCounter(cc: Byte): Byte { (cc + 1) & 0x0F }

  function CloseBlock(x: Mux): Mux {
    x.(cc := NextCounter(x.cc), firstMarkerSent := true, markerSequence := Wrap32(x.markerSequence + 1),
       inBlock := 0, startSeq := Wrap16(x.startSeq + RTP_PAYLOADS_PER_MARKER))
  }

  // One payload: the new state and the packets it adds to the output.
  function Accept(x: Mux, p: Payload): (Mux, seq<TsPacket>) {
    if p.data == [] then (x, [])
    else
      var counted := CountPayload(StartBlock(x, p), p);
      if counted.inBlock >= RTP_PAYLOADS_PER_MARKER then
        (CloseBlock(counted), Packets(p.data) + [MarkerPacket(CurrentMarker(counted), counted.cc)])
      else (counted, Packets(p.data))
  }

  class Multiplexer {
    const crcTable: CrcTable
    var state: Mux
    const udpBuffer: array<Byte>
    var udpBufferFill: nat
    // the datagrams sent, oldest first
    var datagrams: seq<seq<Byte>>

    ghost predicate Valid()
      reads this, crcTable, crcTable.table, udpBuffer
    {
      && crcTable.Valid()
      && udpBuffer.Length == UDP_PAYLOAD_SIZE
      && udpBufferFill < UDP_PAYLOAD_SIZE && udpBufferFill % TS_PACKET_SIZE == 0
      && AllFull(datagrams)
    }

    // Everything put out so far: the datagrams, then the packets waiting in the buffer.
    ghost function Output(): seq<Byte>
      requires udpBufferFill <= udpBuffer.Length
      reads this, udpBuffer
    {
      Join(datagrams) + udpBuffer[..udpBufferFill]
    }

    constructor ()
      ensures Valid() && state == INITIAL_MUX && Output() == []
      ensures fresh(crcTable) && fresh(crcTable.table) && fresh(udpBuffer)
    {
      crcTable := new CrcTable();
      state := INITIAL_MUX;
      udpBuffer := new Byte[UDP_PAYLOAD_SIZE](_ => 0);
      udpBufferFill := 0;
      datagrams := [];
    }

    method FlushUdpBuffer()
      requires udpBufferFill <= udpBuffer.Length
      modifies this`udpBufferFill, this`datagrams
      ensures udpBufferFill == 0
      ensures datagrams == old(datagrams) + if old(udpBufferFill) == 0 then [] else [udpBuffer[..old(udpBufferFill)]]
    {
      if udpBufferFill == 0 { return; }
      datagrams := datagrams + [udpBuffer[..udpBufferFill]];
      udpBufferFill := 0;
    }

    method AddTsToUdpBuffer(ts: TsPacket)
      requires Valid()
      modifies this`udpBufferFill, this`datagrams, udpBuffer
      ensures Valid() && Output() == old(Output()) + ts
    {
      if udpBufferFill + TS_PACKET_SIZE > UDP_PAYLOAD_SIZE {
        FlushUdpBuffer();
      }
      CopyIn(ts);
      if udpBufferFill == UDP_PAYLOAD_SIZE {
        FlushUdpBuffer();
        assert udpBuffer[..UDP_PAYLOAD_SIZE] == udpBuffer[..];
        JoinSnoc(old(datagrams), udpBuffer[..]);
      }
    }

    method CopyIn(ts: TsPacket)
      requires udpBufferFill + TS_PACKET_SIZE <= udpBuffer.Length
      modifies this`udpBufferFill, udpBuffer
      ensures udpBufferFill == old(udpBufferFill) + TS_PACKET_SIZE
      ensures udpBuffer[..udpBufferFill] == old(udpBuffer[..udpBufferFill]) + ts
    {
      forall i | 0 <= i < TS_PACKET_SIZE {
        udpBuffer[udpBufferFill + i] := ts[i];
      }
      udpBufferFill := udpBufferFill + TS_PACKET_SIZE;
    }

    method GenerateMetadataMarker() returns (packet: TsPacket)
      requires Valid()
      modifies this`state, crcTable, crcTable.table
      ensures Valid() && Output() == old(Output())
      ensures packet == MarkerPacket(CurrentMarker(old(state)), old(state).cc)
      ensures state == old(state).(cc := NextCounter(old(state).cc))
    {
      hide Crc, WordBytes, Be16, Be32;
      var header := [SYNC_BYTE, 0x5F, 0xF0, 0x10 | (state.cc & 0x0F), 0];
      var sec := SECTION_HEADER;
      sec := sec + Be32(state.markerSequence) + Be16(state.nonNull) + Be16(state.nulls);
      sec := sec + [0, 0] + Be16(state.startSeq);
      var nextLsb: U16 := Wrap16(state.startSeq + RTP_PAYLOADS_PER_MARKER);
      sec := sec + [0, 0] + Be16(nextLsb) + Be32(state.ssrc);
      assert sec == SectionData(CurrentMarker(state));
      var crc := crcTable.Compute(sec);
      packet := header + (sec + WordBytes(crc)) + seq(TS_PACKET_SIZE - 32, i => 0xFF);
      state := state.(cc := (state.cc + 1) & 0x0F);
    }

    // The data callback: one RTP payload in, its packets and perhaps a marker out.
    method CbRecv(b: Payload) returns (r: int)
      requires Valid()
      modifies this`state, this`udpBufferFill, this`datagrams, udpBuffer, crcTable, crcTable.table
      ensures Valid()
      ensures state == Accept(old(state), b).0
      ensures Output() == old(Output()) + Flatten(Accept(old(state), b).1)
      ensures r == if b.data == [] then -1 else 0
    {
      hide StartBlock, CurrentMarker, MarkerPacket, CloseBlock, NullCount, NonNullCount;
      if b.data == [] { return -1; }
      state := StartBlock(state, b);
      var nonNull, nulls := CountTsPackets(b.data, state.nonNull, state.nulls);
      state := state.(nonNull := nonNull, nulls := nulls, inBlock := Wrap32(state.inBlock + 1));
      ghost var counted := state;
      assert counted == CountPayload(StartBlock(old(state), b), b);
      ForwardTsPackets(b);
      if state.inBlock >= RTP_PAYLOADS_PER_MARKER {
        InsertMarker();
        ghost var marker := MarkerPacket(CurrentMarker(counted), counted.cc);
        FlattenConcat(Packets(b.data), [marker]);
        FlattenOne(marker);
      }
      r := 0;
    }

    method InsertMarker()
      requires Valid()
      modifies this`state, this`udpBufferFill, this`datagrams, udpBuffer, crcTable, crcTable.table
      ensures Valid()
      ensures state == CloseBlock(old(state))
      ensures Output() == old(Output()) + MarkerPacket(CurrentMarker(old(state)), old(state).cc)
    {
      hide MarkerPacket, CurrentMarker;
      var marker := GenerateMetadataMarker();
      AddTsToUdpBuffer(marker);
      state := state.(firstMarkerSent := true, markerSequence := Wrap32(state.markerSequence + 1),
                      inBlock := 0, startSeq := Wrap16(state.startSeq + RTP_PAYLOADS_PER_MARKER));
    }

    method ForwardTsPackets(b: Payload)
      requires Valid()
      modifies this`udpBufferFill, this`datagrams, udpBuffer
      ensures Valid() && Output() == old(Output()) + Flatten(Packets(b.data))
    {
      var tsPackets := |b.data| / TS_PACKET_SIZE;
      ghost var packets := Packets(b.data);
      for i := 0 to tsPackets
        invariant Valid() && Output() == old(Output()) + Flatten(packets[..i])
      {
        var ts: TsPacket := b.data[i * TS_PACKET_SIZE..(i + 1) * TS_PACKET_SIZE];
        PacketsAt(b.data, i);
        assert packets[..i + 1] == packets[..i] + [ts];
        FlattenConcat(packets[..i], [ts]);
        FlattenOne(ts);
        AddTsToUdpBuffer(ts);
      }
      assert packets[..tsPackets] == packets;
    }
  }

  // Counts the synchronised packets of a payload on top of two running 16-bit counters.
  method CountTsPackets(data: seq<Byte>, nonNull0: U16, nulls0: U16) returns (nonNull: U16, nulls: U16)
    ensures nonNull == Wrap16(nonNull0 + NonNullCount(Packets(data)))
    ensures nulls == Wrap16(nulls0 + NullCount(Packets(data)))
  {
    hide IsNull, HasSync, Wrap16;
    var tsPackets := |data| / TS_PACKET_SIZE;
    nonNull, nulls := nonNull0, nulls0;
    WrapSmall(nonNull);
    WrapSmall(nulls);
    ghost var packets := Packets(data);
    for i := 0 to tsPackets
      invariant nonNull == Wrap16(nonNull0 + NonNullCount(packets[..i]))
      invariant nulls == Wrap16(nulls0 + NullCount(packets[..i]))
    {
      var ts: TsPacket := data[i * TS_PACKET_SIZE..(i + 1) * TS_PACKET_SIZE];
      PacketsAt(data, i);
      assert packets[..i + 1][..i] == packets[..i];
      WrapNext(nulls0 + NullCount(packets[..i]));
      WrapNext(nonNull0 + NonNullCount(packets[..i]));
      if IsNull(ts) { NullHasSync(ts); }
      if !HasSync(ts) { continue; }
      if IsNull(ts) { nulls := Wrap16(nulls + 1); } else { nonNull := Wrap16(nonNull + 1); }
    }
    assert packets[..tsPackets] == packets;
  }

  lemma WrapSmall(n: U16)
    ensures Wrap16(n) == n
  {
  }

  lemma WrapNext(n: int)
    ensures Wrap16(Wrap16(n) + 1) == Wrap16(n + 1)
  {
  }

  lemma NullHasSync(p: TsPacket)
    requires IsNull(p)
    ensures HasSync(p)
  {
  }

  lemma FlattenOne(p: TsPacket)
    ensures Flatten([p]) == p
  {
  }

  ghost predicate AllFull(ds: seq<seq<Byte>>) {
    forall i :: 0 <= i < |ds| ==> |ds[i]| == UDP_PAYLOAD_SIZE
  }
}
