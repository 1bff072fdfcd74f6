// The Part 7 link over a channel that loses nothing: everything from the third marker on gets through.
module MarkerCompleteness {
  import opened Bytes
  import opened Sequences
  import opened TransportStream
  import opened MarkerCodec
  import opened FailureWindow
  import opened MarkerMultiplexer
  import opened MarkerWire
  import opened MarkerSession
  import opened MarkerLink

  ghost predicate Connected(envs: seq<Env>) {
    forall i :: 0 <= i < |envs| ==> envs[i].connected
  }

  // Blocks 2 to j-1 of the source, in order.
  function BlocksFromThird(ps: seq<Payload>, j: nat): (bs: seq<seq<RtpPayload>>)
    requires 5 * j <= |ps|
    ensures |bs| == if j <= 2 then 0 else j - 2
  {
    if j <= 2 then [] else BlocksFromThird(ps, j - 1) + [SourceBlock(ps, j - 1)]
  }

  // The sender after o packets of block j, nothing having been lost.
  ghost predicate InStep(ps: seq<Payload>, j: nat, o: nat, r: Run) {
    var s := r.session;
    && |Source(ps)| == 7 * |ps| && o <= 35 && 35 * j + o <= 7 * |ps| && 5 * j <= |ps|
    && Invariant(s)
    && s.circuit.Normal? && s.trips == 0 && s.losses == 0 && s.failures == CLEARED
    && (j == 0 ==> !s.firstMarkerSeen)
    && (j > 0 ==>
          s.firstMarkerSeen && s.lastSequence == Wrap32(j) && s.synchronized == (j >= 2) &&
          s.block == Source(ps)[35 * j..35 * j + o] && s.nulls == NullCount(s.block))
    && r.blocks == BlocksFromThird(ps, j)
  }

  lemma PacketInStep(ps: seq<Payload>, j: nat, o: nat, r: Run, env: Env)
    requires GoodSource(ps) && InStep(ps, j, o, r) && OnWire(ps, j, o) && o < 35
    ensures InStep(ps, j, o + 1, Receive(r, WirePacket(ps, j, o), env))
  {
    hide BlocksFromThird, GoodSource, NullCount, IsNull, Parse, OnMarker, SourcePacket, Invariant, CLEARED;
    var p, s := WirePacket(ps, j, o), r.session;
    SourceLength(ps);
    SourcePacketIsOrdinary(p);
    PacketKeepsInvariant(s, p, env);
    NullCountSnoc(s.block, p);
    InvariantFacts(s);
    assert Source(ps)[35 * j..35 * j + o + 1] == Source(ps)[35 * j..35 * j + o] + [p];
  }

  // The next marker in sequence, arriving in the Normal circuit.
  lemma NextMarker(s: Session, m: Marker, env: Env)
    requires Invariant(s) && s.circuit.Normal?
    requires s.firstMarkerSeen ==> m.sequence == Wrap32(s.lastSequence + 1)
    requires s.firstMarkerSeen && s.synchronized && s.count > 0 ==> BlockMatches(s, m)
    ensures var o := OnMarker(s, m, env);
      var t := o.session;
      && t.circuit.Normal? && t.trips == s.trips && t.failures == s.failures
      && t.losses == (if s.firstMarkerSeen then 0 else s.losses)
      && t.firstMarkerSeen && t.lastSequence == m.sequence && t.synchronized == s.firstMarkerSeen
      && t.block == [] && t.nulls == 0
      && o.sent == if s.firstMarkerSeen && s.synchronized && s.count > 0 && env.connected
                   then Some(Payloads(s.block, m.rtpStart, m.ssrc)) else None
  {
    hide Payloads, ThresholdReached, Record, CLEARED, Ring.Valid;
  }

  lemma BlockIsMatched(ps: seq<Payload>, j: nat, r: Run)
    requires GoodSource(ps) && InStep(ps, j, 35, r) && OnWire(ps, j, 35) && j > 0
    ensures BlockMatches(r.session, BlockMarker(ps, j)) && r.session.count == 35
    ensures r.session.block == Block(ps, j)
  {
    hide GoodSource, Invariant, NullCount, NonNullCount, SourcePacket, BlocksFromThird, CLEARED;
    InvariantFacts(r.session);
    SourceLength(ps);
    CountsOfSource(Block(ps, j));
    assert r.session.block == Block(ps, j);
  }

  lemma MarkerInStep(ps: seq<Payload>, j: nat, r: Run, env: Env)
    requires GoodSource(ps) && InStep(ps, j, 35, r) && OnWire(ps, j, 35) && env.connected
    ensures InStep(ps, j + 1, 0, Receive(r, WirePacket(ps, j, 35), env))
  {
    hide GoodSource, Invariant, OnMarker, OnPacket, BlockMarker, MarkerPacket, Payloads, SourceBlock, CLEARED,
      BlockMatches;
    var s, m := r.session, BlockMarker(ps, j);
    InvariantFacts(s);
    MarkerArrival(s, m, ContinuityCounter(j), env);
    PacketKeepsInvariant(s, WirePacket(ps, j, 35), env);
    MarkerFields(ps, j);
    if j > 0 {
      BlockIsMatched(ps, j, r);
      PayloadsOfBlock(ps, j);
    }
    NextMarker(s, m, env);
    assert Source(ps)[35 * (j + 1)..35 * (j + 1) + 0] == [];
  }

  lemma MarkerFields(ps: seq<Payload>, j: nat)
    requires 35 * (j + 1) <= |Source(ps)| && 5 * j + 4 < |ps|
    ensures BlockMarker(ps, j).sequence == Wrap32(1 + j) == Wrap32(Wrap32(j) + 1)
    ensures BlockMarker(ps, j).rtpStart == Wrap16(ps[5 * j].seqNo) && BlockMarker(ps, j).ssrc == ps[5 * j + 4].flowId
  {
  }

  // Every packet so far has arrived: the sender is in step at every point of the output.
  lemma {:induction false} AlwaysInStep(ps: seq<Payload>, j: nat, o: nat, envs: seq<Env>)
    requires GoodSource(ps) && Connected(envs) && o <= 35
    requires 36 * j + o == |envs| <= |MuxAfter(ps).1|
    ensures InStep(ps, j, o, FromStart(MuxAfter(ps).1[..|envs|], envs))
    decreases |envs|
  {
    hide GoodSource, Invariant, InStep, OnWire, MuxAfter, WirePacket, Receive;
    if envs == [] {
      assert MuxAfter(ps).1[..0] == [];
      StartInStep(ps);
    } else {
      var n := |envs| - 1;
      var j0, o0 := if o > 0 then j else j - 1, if o > 0 then o - 1 else 35;
      var w := MuxAfter(ps).1;
      OutputAt(ps, j0, o0);
      assert 36 * j0 + o0 == n;
      assert w[..|envs|] == w[..n] + [w[n]] && envs == envs[..n] + [envs[n]];
      ReceiveOne(w[..n], envs[..n], w[n], envs[n]);
      AlwaysInStep(ps, j0, o0, envs[..n]);
      var r := FromStart(w[..n], envs[..n]);
      if o0 < 35 { PacketInStep(ps, j0, o0, r, envs[n]); } else { MarkerInStep(ps, j0, r, envs[n]); }
    }
  }

  lemma StartInStep(ps: seq<Payload>)
    requires GoodSource(ps)
    ensures InStep(ps, 0, 0, START)
  {
    SourceLength(ps);
    InitialInvariant();
  }

  // Completeness. With a connected peer and nothing lost, the circuit breaker never trips, and once m
  // markers have reached the sender it has handed on exactly the blocks that the third and
  // later of them closed, each once and in order. There is no bound on the number of markers.
  lemma EveryClosedBlockIsSent(ps: seq<Payload>, envs: seq<Env>)
    requires GoodSource(ps) && Connected(envs) && |envs| <= |MuxAfter(ps).1|
    ensures var m := |envs| / 36;
      var r := FromStart(MuxAfter(ps).1[..|envs|], envs);
      && 5 * m <= |ps|
      && r.blocks == BlocksFromThird(ps, m)
      && r.session.circuit.Normal? && r.session.trips == 0
  {
    hide GoodSource, MuxAfter, Invariant, BlocksFromThird, CLEARED;
    AlwaysInStep(ps, |envs| / 36, |envs| % 36, envs);
  }

  // ---- datagrams ----

  // The datagrams sent so far carry a prefix of the output, seven packets each.
  lemma {:induction false} DatagramsCarryWire(ds: seq<seq<Byte>>, rest: seq<Byte>, w: seq<TsPacket>)
    requires AllFull(ds) && Join(ds) + rest == Flatten(w)
    ensures |Join(ds)| == UDP_PAYLOAD_SIZE * |ds| && 7 * |ds| <= |w|
    ensures Packets(Join(ds)) == w[..7 * |ds|]
  {
    DatagramsLength(ds);
    var k := 7 * |ds|;
    assert w == w[..k] + w[k..];
    FlattenConcat(w[..k], w[k..]);
    var n := UDP_PAYLOAD_SIZE * |ds|;
    assert Join(ds) == Flatten(w)[..n] == Flatten(w[..k]);
    PacketsOfFlatten(w[..k]);
  }

  lemma {:induction false} DatagramsLength(ds: seq<seq<Byte>>)
    requires AllFull(ds)
    ensures |Join(ds)| == UDP_PAYLOAD_SIZE * |ds|
  {
    if ds != [] {
      DatagramsLength(ds[1..]);
    }
  }

  // The receiver's main loop over a list of payloads.
  method Multiplex(mx: Multiplexer, ps: seq<Payload>)
    requires mx.Valid() && mx.state == INITIAL_MUX && mx.Output() == []
    modifies mx, mx.udpBuffer, mx.crcTable, mx.crcTable.table
    ensures mx.Valid()
    ensures mx.Output() == Flatten(MuxAfter(ps).1)
  {
    hide Accept;
    for i := 0 to |ps|
      invariant mx.Valid()
      invariant mx.state == MuxAfter(ps[..i]).0
      invariant mx.Output() == Flatten(MuxAfter(ps[..i]).1)
    {
      assert ps[..i + 1][..i] == ps[..i];
      ghost var before := MuxAfter(ps[..i]);
      var _ := mx.CbRecv(ps[i]);
      FlattenConcat(before.1, Accept(before.0, ps[i]).1);
    }
    assert ps[..|ps|] == ps;
  }

  // What a run sends does not depend on what was sent before it.
  lemma {:induction false} BlocksAccumulate(s: Session, blocks: seq<seq<RtpPayload>>, ps: seq<TsPacket>, envs: seq<Env>)
    requires Invariant(s) && |ps| == |envs|
    ensures ReceiveAll(Run(s, blocks), ps, envs).session == ReceiveAll(Run(s, []), ps, envs).session
    ensures ReceiveAll(Run(s, blocks), ps, envs).blocks == blocks + ReceiveAll(Run(s, []), ps, envs).blocks
  {
    hide Invariant, OnPacket;
    if ps != [] {
      var n := |ps| - 1;
      BlocksAccumulate(s, blocks, ps[..n], envs[..n]);
    }
  }

  lemma NoDatagrams(start: Run)
    requires Invariant(start.session)
    ensures Packets(Join([])) == [] && ReceiveAll(start, [], []) == start
  {
  }

  lemma OneMoreDatagram(start: Run, mid: Session, blocks: seq<seq<RtpPayload>>,
                        ds: seq<seq<Byte>>, d: seq<Byte>, es: seq<Env>, fs: seq<Env>)
    requires Invariant(start.session) && Invariant(mid)
    requires AllFull(ds) && |d| == UDP_PAYLOAD_SIZE && |es| == 7 * |ds| && |fs| == 7
    requires |Packets(Join(ds))| == |es|
    requires Run(mid, blocks) == ReceiveAll(start, Packets(Join(ds)), es)
    ensures |Packets(Join(ds + [d]))| == |es + fs|
    ensures
      var more := ReceiveAll(Run(mid, []), Packets(d), fs);
      ReceiveAll(start, Packets(Join(ds + [d])), es + fs) == Run(more.session, blocks + more.blocks)
  {
    hide Invariant, Receive, ReceiveAll, Packets;
    JoinSnoc(ds, d);
    DatagramsLength(ds);
    PacketsConcat(Join(ds), d, 7 * |ds|);
    ReceiveAllConcat(start, Packets(Join(ds)), es, Packets(d), fs);
    BlocksAccumulate(mid, blocks, Packets(d), fs);
  }

  // The sender's event loop over the datagrams that reach it.
  method Deliver(cb: Callback, ds: seq<seq<Byte>>, envs: seq<Env>) returns (blocks: seq<seq<RtpPayload>>)
    requires cb.Valid() && AllFull(ds) && |envs| == 7 * |ds|
    modifies cb, cb.blockBuffer, cb.validationFailureTimestamps
    ensures cb.Valid()
    ensures |Packets(Join(ds))| == |envs|
    ensures Run(cb.View(), blocks) == ReceiveAll(Run(old(cb.View()), []), Packets(Join(ds)), envs)
  {
    hide Invariant, Receive, ReceiveAll, Packets;
    blocks := [];
    ghost var start := Run(cb.View(), []);
    NoDatagrams(start);
    for i := 0 to |ds|
      invariant cb.Valid()
      invariant |Packets(Join(ds[..i]))| == 7 * i
      invariant Run(cb.View(), blocks) == ReceiveAll(start, Packets(Join(ds[..i])), envs[..7 * i])
    {
      ghost var mid := cb.View();
      var sent := InputUdpRecv(cb, ds[i], envs[7 * i..7 * i + 7]);
      OneMoreDatagram(start, mid, blocks, ds[..i], ds[i], envs[..7 * i], envs[7 * i..7 * i + 7]);
      assert ds[..i + 1] == ds[..i] + [ds[i]];
      assert envs[..7 * (i + 1)] == envs[..7 * i] + envs[7 * i..7 * i + 7];
      blocks := blocks + sent;
    }
    assert ds[..|ds|] == ds && envs[..7 * |ds|] == envs;
  }

  // The two programs back to back over a lossless network: every datagram the multiplexer has sent is
  // delivered, so the blocks handed on are the third to the last whose marker is in those datagrams.
  method LosslessLink(mx: Multiplexer, cb: Callback, ps: seq<Payload>, envs: seq<Env>)
    returns (blocks: seq<seq<RtpPayload>>)
    requires GoodSource(ps) && Connected(envs) && |envs| == 7 * ((|ps| * 7 + |ps| / 5) / 7)
    requires mx.Valid() && mx.state == INITIAL_MUX && mx.Output() == []
    requires cb.Valid() && cb.View() == INITIAL_SESSION
    requires {cb, cb.blockBuffer, cb.validationFailureTimestamps}
          !! {mx, mx.udpBuffer, mx.crcTable, mx.crcTable.table}
    modifies mx, mx.udpBuffer, mx.crcTable, mx.crcTable.table
    modifies cb, cb.blockBuffer, cb.validationFailureTimestamps
    ensures 5 * (|envs| / 36) <= |ps|
    ensures |mx.datagrams| == |envs| / 7
    ensures blocks == BlocksFromThird(ps, |envs| / 36)
    ensures cb.breaker.circuit.Normal? && cb.breaker.trips == 0
  {
    hide GoodSource, MuxAfter, Invariant, BlocksFromThird, CLEARED, INITIAL_MUX, Receive, ReceiveAll, Packets, Join,
      Flatten;
    Multiplex(mx, ps);
    SentSoFar(mx, ps, |envs|);
    blocks := Deliver(cb, mx.datagrams, envs);
    EveryClosedBlockIsSent(ps, envs);
  }

  // The datagrams carry the output up to the last whole seven packets.
  lemma SentSoFar(mx: Multiplexer, ps: seq<Payload>, n: nat)
    requires GoodSource(ps) && n == 7 * ((|ps| * 7 + |ps| / 5) / 7)
    requires mx.Valid() && mx.Output() == Flatten(MuxAfter(ps).1)
    ensures n <= |MuxAfter(ps).1| && |mx.datagrams| == n / 7 && AllFull(mx.datagrams)
    ensures Packets(Join(mx.datagrams)) == MuxAfter(ps).1[..n]
  {
    hide GoodSource, MuxAfter, Wire, Packets, Join, Flatten, Source;
    var w := MuxAfter(ps).1;
    MuxProducesWire(ps, |ps| / 5, |ps| % 5);
    DatagramsCarryWire(mx.datagrams, mx.udpBuffer[..mx.udpBufferFill], w);
    PendingIsShort(mx, w);
  }

  lemma PendingIsShort(mx: Multiplexer, w: seq<TsPacket>)
    requires mx.Valid() && mx.Output() == Flatten(w)
    ensures |mx.datagrams| == |w| / 7
  {
    DatagramsLength(mx.datagrams);
    assert TS_PACKET_SIZE * |w| == UDP_PAYLOAD_SIZE * |mx.datagrams| + mx.udpBufferFill;
  }
}
