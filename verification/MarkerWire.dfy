// What the multiplexer puts on the wire for a well-formed source: the source packets in order, with
// a marker after every block of five payloads.
module MarkerWire {
  import opened Bytes
  import opened TransportStream
  import opened MarkerCodec
  import opened MarkerMultiplexer

  const PACKETS_PER_BLOCK: nat := 35

  predicate SourcePacket(p: TsPacket) { HasSync(p) && !IsMarker(p) }

  // Full payloads of synchronised packets outside the marker PID, numbered consecutively
  // inside each block of five.
  ghost predicate GoodSource(ps: seq<Payload>) {
    && (forall i :: 0 <= i < |ps| ==> |ps[i].data| == UDP_PAYLOAD_SIZE)
    && (forall i, k :: 0 <= i < |ps| && 0 <= k < 7 ==> SourcePacket(Packets(ps[i].data)[k]))
    && (forall i :: 0 <= i < |ps| && i % 5 != 0 ==> Wrap16(ps[i].seqNo) == Wrap16(ps[i - 1].seqNo + 1))
  }

  // All source packets in order.
  function Source(ps: seq<Payload>): seq<TsPacket> {
    if ps == [] then [] else Source(ps[..|ps| - 1]) + Packets(ps[|ps| - 1].data)
  }

  lemma {:induction false} SourceLength(ps: seq<Payload>)
    requires GoodSource(ps)
    ensures |Source(ps)| == 7 * |ps|
    ensures forall n :: 0 <= n < 7 * |ps| ==> SourcePacket(Source(ps)[n])
  {
    hide SourcePacket;
    if ps != [] {
      var front := ps[..|ps| - 1];
      SourceLength(front);
      assert Packets(ps[|ps| - 1].data) == Packets(ps[|ps| - 1].data);
    }
  }

  lemma {:induction false} SourceAt(ps: seq<Payload>, i: nat)
    requires GoodSource(ps) && i < |ps|
    ensures |Source(ps)| == 7 * |ps|
    ensures Source(ps)[7 * i..7 * i + 7] == Packets(ps[i].data)
  {
    hide SourcePacket;
    var front := ps[..|ps| - 1];
    SourceLength(front);
    SourceLength(ps);
    if i < |front| {
      SourceAt(front, i);
      assert Source(ps)[7 * i..7 * i + 7] == Source(front)[7 * i..7 * i + 7];
    }
  }

  // The packets of block j.
  function Block(ps: seq<Payload>, j: nat): (b: seq<TsPacket>)
    requires PACKETS_PER_BLOCK * (j + 1) <= |Source(ps)|
    ensures |b| == PACKETS_PER_BLOCK
  {
    Source(ps)[PACKETS_PER_BLOCK * j..PACKETS_PER_BLOCK * (j + 1)]
  }

  function ContinuityCounter(j: nat): Byte {
    if j == 0 then 0 else NextCounter(ContinuityCounter(j - 1))
  }

  // The marker that closes block j, every block but the first counting the marker it starts with.
  function BlockMarker(ps: seq<Payload>, j: nat): Marker
    requires PACKETS_PER_BLOCK * (j + 1) <= |Source(ps)| && 5 * j + 4 < |ps|
  {
    Marker(Wrap32(1 + j), (if j > 0 then 1 else 0) + NonNullCount(Block(ps, j)), NullCount(Block(ps, j)),
           Wrap16(ps[5 * j].seqNo), Wrap16(ps[5 * j].seqNo + 5), ps[5 * j + 4].flowId)
  }

  lemma NextNumber(a: int, b: int, k: int)
    requires Wrap16(b) == Wrap16(a + k)
    ensures Wrap16(b + 1) == Wrap16(a + (k + 1))
  {
  }

  lemma NumbersFollow(ps: seq<Payload>, i: nat)
    requires GoodSource(ps) && 0 < i < |ps| && i % 5 != 0
    ensures Wrap16(ps[i].seqNo) == Wrap16(ps[i - 1].seqNo as int + 1)
  {
    hide SourcePacket;
  }

  // In a source numbered through, the marker of a block names the number at which the next one starts.
  lemma NamesNextBlock(ps: seq<Payload>, j: nat)
    requires GoodSource(ps) && 5 * j + 5 < |ps| && PACKETS_PER_BLOCK * (j + 1) <= |Source(ps)|
    requires Wrap16(ps[5 * j + 5].seqNo) == Wrap16(ps[5 * j + 4].seqNo as int + 1)
    ensures BlockMarker(ps, j).rtpStart == Wrap16(ps[5 * j].seqNo)
    ensures BlockMarker(ps, j).rtpNext == Wrap16(ps[5 * j + 5].seqNo)
  {
    hide Wrap16, NullCount, NonNullCount, GoodSource;
    var start: int := ps[5 * j].seqNo;
    NumbersFollow(ps, 5 * j + 1);
    NumbersFollow(ps, 5 * j + 2);
    NumbersFollow(ps, 5 * j + 3);
    NumbersFollow(ps, 5 * j + 4);
    NextNumber(start, ps[5 * j + 1].seqNo, 1);
    NextNumber(start, ps[5 * j + 2].seqNo, 2);
    NextNumber(start, ps[5 * j + 3].seqNo, 3);
    NextNumber(start, ps[5 * j + 4].seqNo, 4);
  }

  // The first m blocks, each followed by its marker.
  function Wire(ps: seq<Payload>, m: nat): (w: seq<TsPacket>)
    requires GoodSource(ps) && 5 * m <= |ps|
    ensures |w| == 36 * m
  {
    if m == 0 then []
    else
      SourceLength(ps);
      Wire(ps, m - 1) + Block(ps, m - 1) + [MarkerPacket(BlockMarker(ps, m - 1), ContinuityCounter(m - 1))]
  }

  // What the multiplexer has produced after the payloads ps.
  function MuxAfter(ps: seq<Payload>): (Mux, seq<TsPacket>) {
    if ps == [] then (INITIAL_MUX, [])
    else
      var before := MuxAfter(ps[..|ps| - 1]);
      var step := Accept(before.0, ps[|ps| - 1]);
      (step.0, before.1 + step.1)
  }

  // ---- the state between payloads ----

  lemma {:induction false} CountsConcat(a: seq<TsPacket>, b: seq<TsPacket>)
    ensures NullCount(a + b) == NullCount(a) + NullCount(b)
    ensures NonNullCount(a + b) == NonNullCount(a) + NonNullCount(b)
  {
    hide IsNull, HasSync;
    if b == [] {
      assert a + b == a;
    } else {
      assert (a + b)[..|a + b| - 1] == a + b[..|b| - 1];
      CountsConcat(a, b[..|b| - 1]);
    }
  }

  lemma {:induction false} CountsOfSource(a: seq<TsPacket>)
    requires forall n :: 0 <= n < |a| ==> SourcePacket(a[n])
    ensures NullCount(a) + NonNullCount(a) == |a|
  {
    if a != [] {
      assert SourcePacket(a[|a| - 1]);
      CountsOfSource(a[..|a| - 1]);
    }
  }

  // The packets after the first m blocks.
  function OpenPart(ps: seq<Payload>, m: nat): seq<TsPacket>
    requires PACKETS_PER_BLOCK * m <= |Source(ps)|
  {
    Source(ps)[PACKETS_PER_BLOCK * m..]
  }

  // The counters when block m is open and holds the given packets so far.
  ghost predicate Counted(x: Mux, ps: seq<Payload>, m: nat, open: seq<TsPacket>)
    requires 5 * m < |ps|
  {
    && x.startSeq == Wrap16(ps[5 * m].seqNo) && x.nulls == NullCount(open)
    && x.nonNull == (if m > 0 then 1 else 0) + NonNullCount(open)
  }

  // The state after m whole blocks and k more payloads.
  ghost predicate MuxState(ps: seq<Payload>, m: nat, k: nat, x: Mux)
    requires |ps| == 5 * m + k && PACKETS_PER_BLOCK * m <= |Source(ps)|
  {
    && x.inBlock == k && x.markerSequence == Wrap32(1 + m)
    && x.firstMarkerSent == (m > 0) && x.cc == ContinuityCounter(m)
    && (k > 0 ==> Counted(x, ps, m, OpenPart(ps, m)))
  }

  lemma SourceSnoc(ps: seq<Payload>)
    requires GoodSource(ps) && ps != []
    ensures GoodSource(ps[..|ps| - 1])
    ensures Source(ps) == Source(ps[..|ps| - 1]) + Packets(ps[|ps| - 1].data)
    ensures |Source(ps)| == 7 * |ps| && |Source(ps[..|ps| - 1])| == 7 * |ps| - 7
  {
    hide SourcePacket;
    SourceLength(ps);
  }

  lemma BlockMarkerPrefix(ps: seq<Payload>, j: nat)
    requires ps != [] && 5 * j + 4 < |ps| - 1
    requires PACKETS_PER_BLOCK * (j + 1) <= |Source(ps[..|ps| - 1])| <= |Source(ps)|
    requires Block(ps, j) == Block(ps[..|ps| - 1], j)
    ensures BlockMarker(ps, j) == BlockMarker(ps[..|ps| - 1], j)
  {
  }

  lemma {:induction false} WirePrefix(ps: seq<Payload>, m: nat)
    requires GoodSource(ps) && ps != [] && 5 * m <= |ps| - 1 && GoodSource(ps[..|ps| - 1])
    ensures Wire(ps, m) == Wire(ps[..|ps| - 1], m)
  {
    hide GoodSource, SourcePacket, MarkerPacket, BlockMarker;
    if m > 0 {
      var front := ps[..|ps| - 1];
      SourceSnoc(ps);
      WirePrefix(ps, m - 1);
      assert Block(ps, m - 1) == Block(front, m - 1);
      BlockMarkerPrefix(ps, m - 1);
    }
  }

  lemma StartedBlock(ps: seq<Payload>, m: nat, k: nat, x: Mux)
    requires |ps| == 5 * m + k + 1 && PACKETS_PER_BLOCK * m <= |Source(ps[..5 * m + k])|
    requires MuxState(ps[..5 * m + k], m, k, x)
    requires k == 0 ==> |Source(ps[..5 * m + k])| == PACKETS_PER_BLOCK * m
    ensures var y := StartBlock(x, ps[5 * m + k]);
      y.ssrc == ps[5 * m + k].flowId && Counted(y, ps, m, OpenPart(ps[..5 * m + k], m))
  {
    hide NullCount, NonNullCount, ContinuityCounter;
    var front := ps[..5 * m + k];
    if k == 0 {
      assert OpenPart(front, m) == [];
      CountsEmpty();
    } else {
      assert front[5 * m] == ps[5 * m];
    }
  }

  // One more payload extends the open part of the block, and the counters follow.
  lemma CountsAfter(ps: seq<Payload>, m: nat, x: Mux, p: Payload, before: seq<TsPacket>)
    requires 5 * m < |ps| && Counted(x, ps, m, before) && x.inBlock < 5
    requires |before + Packets(p.data)| <= PACKETS_PER_BLOCK
    ensures var y := CountPayload(x, p);
      y.inBlock == x.inBlock + 1 && Counted(y, ps, m, before + Packets(p.data))
  {
    hide NullCount, NonNullCount, Packets, Wrap16;
    var open := before + Packets(p.data);
    CountsConcat(before, Packets(p.data));
    CountBounds(open);
    WrapSmall(NullCount(open));
    WrapSmall((if m > 0 then 1 else 0) + NonNullCount(open));
  }

  lemma GoodPayload(ps: seq<Payload>, i: nat)
    requires GoodSource(ps) && i < |ps|
    ensures |ps[i].data| == UDP_PAYLOAD_SIZE
  {
  }

  lemma CountBounds(a: seq<TsPacket>)
    ensures NullCount(a) + NonNullCount(a) <= |a|
  {
  }

  lemma CountsEmpty()
    ensures NullCount([]) == 0 && NonNullCount([]) == 0
  {
  }

  lemma BlockClosed(ps: seq<Payload>, m: nat, y: Mux)
    requires |ps| == 5 * (m + 1) && |Source(ps)| == PACKETS_PER_BLOCK * (m + 1)
    requires Counted(y, ps, m, OpenPart(ps, m)) && y.ssrc == ps[5 * m + 4].flowId
    requires y.markerSequence == Wrap32(1 + m) && y.cc == ContinuityCounter(m)
    ensures CurrentMarker(y) == BlockMarker(ps, m)
    ensures MuxState(ps, m + 1, 0, CloseBlock(y))
  {
    hide NullCount, NonNullCount, NextCounter, MuxState, CurrentMarker, BlockMarker;
    ClosedMarker(ps, m, y);
    ClosedState(ps, m, y);
  }

  lemma ClosedMarker(ps: seq<Payload>, m: nat, y: Mux)
    requires |ps| == 5 * (m + 1) && |Source(ps)| == PACKETS_PER_BLOCK * (m + 1)
    requires Counted(y, ps, m, OpenPart(ps, m)) && y.ssrc == ps[5 * m + 4].flowId
    requires y.markerSequence == Wrap32(1 + m)
    ensures CurrentMarker(y) == BlockMarker(ps, m)
  {
    hide NullCount, NonNullCount, Source;
    assert OpenPart(ps, m) == Block(ps, m);
  }

  lemma ClosedState(ps: seq<Payload>, m: nat, y: Mux)
    requires |ps| == 5 * (m + 1) && |Source(ps)| == PACKETS_PER_BLOCK * (m + 1)
    requires y.markerSequence == Wrap32(1 + m) && y.cc == ContinuityCounter(m)
    ensures MuxState(ps, m + 1, 0, CloseBlock(y))
  {
    hide NextCounter, Source, Counted, Wrap32;
    Wrap32Next(1 + m);
  }

  lemma Wrap32Next(n: nat)
    ensures Wrap32(Wrap32(n) + 1) == Wrap32(n + 1)
  {
  }

  // For every well-formed source the multiplexer's output is the wire: no packet is lost, altered or
  // reordered, and marker j follows block j with its exact counts.
  lemma {:induction false} MuxProducesWire(ps: seq<Payload>, m: nat, k: nat)
    requires GoodSource(ps) && |ps| == 5 * m + k && k < 5
    ensures |Source(ps)| == 7 * |ps|
    ensures MuxState(ps, m, k, MuxAfter(ps).0)
    ensures MuxAfter(ps).1 == Wire(ps, m) + OpenPart(ps, m)
  {
    hide GoodSource, NullCount, NonNullCount, MarkerPacket, StartBlock, CountPayload, CloseBlock,
         ContinuityCounter, CurrentMarker, BlockMarker, Packets, Counted;
    SourceLength(ps);
    if k > 0 {
      MuxStep(ps, m, k - 1);
    } else if m > 0 {
      MuxStep(ps, m - 1, 4);
    } else {
      InitialMux();
    }
  }

  lemma InitialMux()
    ensures MuxState([], 0, 0, INITIAL_MUX)
  {
  }

  // The counters after one more payload, before the block is possibly closed.
  lemma MuxCounted(ps: seq<Payload>, m: nat, k: nat, x: Mux)
    requires GoodSource(ps) && |ps| == 5 * m + k + 1 && k < 5
    requires |Source(ps)| == 7 * |ps| && |Source(ps[..5 * m + k])| == 7 * |ps| - 7
    requires MuxState(ps[..5 * m + k], m, k, x)
    ensures var p := ps[5 * m + k];
      var y := CountPayload(StartBlock(x, p), p);
      && p.data != [] && y.ssrc == p.flowId && y.inBlock == k + 1
      && y.markerSequence == Wrap32(1 + m) && y.firstMarkerSent == (m > 0) && y.cc == ContinuityCounter(m)
      && OpenPart(ps, m) == OpenPart(ps[..5 * m + k], m) + Packets(p.data)
      && Counted(y, ps, m, OpenPart(ps, m))
  {
    hide GoodSource, StartBlock, CountPayload, ContinuityCounter, Packets, Counted;
    var front, p := ps[..5 * m + k], ps[5 * m + k];
    SourceSnoc(ps);
    StartedBlock(ps, m, k, x);
    StartKeeps(x, p);
    assert OpenPart(ps, m) == OpenPart(front, m) + Packets(p.data);
    CountsAfter(ps, m, StartBlock(x, p), p, OpenPart(front, m));
    CountKeeps(StartBlock(x, p), p);
    GoodPayload(ps, 5 * m + k);
  }

  lemma AcceptOpen(x: Mux, p: Payload)
    requires p.data != [] && CountPayload(StartBlock(x, p), p).inBlock < 5
    ensures Accept(x, p) == (CountPayload(StartBlock(x, p), p), Packets(p.data))
  {
  }

  lemma AcceptClosing(x: Mux, p: Payload)
    requires p.data != [] && CountPayload(StartBlock(x, p), p).inBlock == 5
    ensures var y := CountPayload(StartBlock(x, p), p);
      Accept(x, p) == (CloseBlock(y), Packets(p.data) + [MarkerPacket(CurrentMarker(y), y.cc)])
  {
  }

  lemma MuxStepOpen(ps: seq<Payload>, m: nat, k: nat, x: Mux, out: seq<TsPacket>)
    requires GoodSource(ps) && |ps| == 5 * m + k + 1 && k < 4
    requires |Source(ps)| == 7 * |ps| && |Source(ps[..5 * m + k])| == 7 * |ps| - 7
    requires GoodSource(ps[..5 * m + k]) && Wire(ps, m) == Wire(ps[..5 * m + k], m)
    requires MuxState(ps[..5 * m + k], m, k, x)
    requires out == Wire(ps, m) + OpenPart(ps[..5 * m + k], m)
    ensures var step := Accept(x, ps[5 * m + k]);
      MuxState(ps, m, k + 1, step.0) && out + step.1 == Wire(ps, m) + OpenPart(ps, m)
  {
    hide GoodSource, StartBlock, CountPayload, ContinuityCounter, Packets, Counted, Source, Wire, Accept, OpenPart;
    MuxCounted(ps, m, k, x);
    AcceptOpen(x, ps[5 * m + k]);
  }

  lemma MuxStepClosing(ps: seq<Payload>, m: nat, x: Mux, out: seq<TsPacket>)
    requires GoodSource(ps) && |ps| == 5 * m + 5
    requires |Source(ps)| == 7 * |ps| && |Source(ps[..5 * m + 4])| == 7 * |ps| - 7
    requires GoodSource(ps[..5 * m + 4]) && Wire(ps, m) == Wire(ps[..5 * m + 4], m)
    requires MuxState(ps[..5 * m + 4], m, 4, x)
    requires out == Wire(ps, m) + OpenPart(ps[..5 * m + 4], m)
    ensures var step := Accept(x, ps[5 * m + 4]);
      MuxState(ps, m + 1, 0, step.0) && out + step.1 == Wire(ps, m + 1) + OpenPart(ps, m + 1)
  {
    hide GoodSource, StartBlock, CountPayload, CloseBlock, ContinuityCounter, Packets, Counted, Source, Accept,
         MuxState, MarkerPacket, BlockMarker, CurrentMarker;
    MuxCounted(ps, m, 4, x);
    AcceptClosing(x, ps[5 * m + 4]);
    BlockClosed(ps, m, CountPayload(StartBlock(x, ps[5 * m + 4]), ps[5 * m + 4]));
    assert OpenPart(ps, m) == Block(ps, m) && OpenPart(ps, m + 1) == [];
  }

  // The step from m blocks and k payloads to one payload more.
  lemma {:induction false} MuxStep(ps: seq<Payload>, m: nat, k: nat)
    requires GoodSource(ps) && |ps| == 5 * m + k + 1 && k < 5
    ensures |Source(ps)| == 7 * |ps|
    ensures k < 4 ==> MuxState(ps, m, k + 1, MuxAfter(ps).0) && MuxAfter(ps).1 == Wire(ps, m) + OpenPart(ps, m)
    ensures k == 4 ==> MuxState(ps, m + 1, 0, MuxAfter(ps).0) && MuxAfter(ps).1 == Wire(ps, m + 1) + OpenPart(ps, m + 1)
  {
    hide GoodSource, Accept, MuxState, Wire, OpenPart, Source;
    var front := ps[..5 * m + k];
    SourceSnoc(ps);
    MuxProducesWire(front, m, k);
    WirePrefix(ps, m);
    var before := MuxAfter(front);
    if k == 4 { MuxStepClosing(ps, m, before.0, before.1); } else { MuxStepOpen(ps, m, k, before.0, before.1); }
  }

  lemma StartKeeps(x: Mux, p: Payload)
    ensures var y := StartBlock(x, p);
      y.inBlock == x.inBlock && y.markerSequence == x.markerSequence && y.cc == x.cc
      && y.firstMarkerSent == x.firstMarkerSent
  {
  }

  lemma CountKeeps(x: Mux, p: Payload)
    ensures var y := CountPayload(x, p);
      y.ssrc == x.ssrc && y.markerSequence == x.markerSequence && y.cc == x.cc
      && y.firstMarkerSent == x.firstMarkerSent
  {
  }
}
