// Which blocks get through a Part 7 link that loses packets.
module MarkerLoss {
  import opened Bytes
  import opened TransportStream
  import opened MarkerCodec
  import opened FailureWindow
  import opened MarkerMultiplexer
  import opened MarkerWire
  import opened MarkerSession
  import opened MarkerLink

  // Packets a to b-1 of the wire all arrived.
  ghost predicate AllDelivered(fates: seq<Fate>, a: nat, b: nat)
    requires a <= b <= |fates|
  {
    forall i :: a <= i < b ==> fates[i].Delivered?
  }

  // Block j, with its closing marker, and the two markers before it arrived.
  ghost predicate Whole(fates: seq<Fate>, j: nat)
    requires 36 * j + 36 <= |fates|
  {
    && j >= 2 && fates[36 * j - 37].Delivered? && fates[36 * j - 1].Delivered?
    && AllDelivered(fates, 36 * j, 36 * j + 36)
  }

  // What a sender still in the Normal circuit knows of the wire, o packets into block j: the marker that opened the
  // block exactly when that marker arrived; and then it is synchronised exactly when the marker before arrived too,
  // and it has all of the block exactly when nothing of it was lost.
  ghost predicate Tracked(fates: seq<Fate>, j: nat, o: nat, s: Session)
    requires |fates| == 36 * j + o
  {
    s.circuit.Normal? ==>
      && (s.firstMarkerSeen && s.lastSequence == j) == (j > 0 && fates[36 * j - 1].Delivered?)
      && (s.firstMarkerSeen && s.lastSequence == j ==>
            && s.synchronized == (j >= 2 && fates[36 * j - 37].Delivered?)
            && (|s.block| == o) == AllDelivered(fates, 36 * j, 36 * j + o))
  }

  ghost predicate TrackedNext(fates: seq<Fate>, j: nat, o: nat, s: Session)
    requires |fates| == 36 * j + o + 1 && o <= 35
  {
    if o < 35 then Tracked(fates, j, o + 1, s) else Tracked(fates, j + 1, 0, s)
  }

  lemma LossTracked(ps: seq<Payload>, j: nat, o: nat, r: Run, ks: seq<nat>, fates: seq<Fate>, f: Fate)
    requires Linked(ps, j, o, r, ks) && |fates| == 36 * j + o && Tracked(fates, j, o, r.session) && !f.Delivered?
    ensures TrackedNext(fates + [f], j, o, r.session)
  {
    hide Invariant, SentBlocks, NullCount, Source;
    assert (fates + [f])[36 * j + o] == f;
  }

  // A packet that is not a marker changes the buffer only.
  lemma SourceTracked(ps: seq<Payload>, j: nat, o: nat, r: Run, ks: seq<nat>, fates: seq<Fate>, env: Env)
    requires Linked(ps, j, o, r, ks) && |fates| == 36 * j + o && Tracked(fates, j, o, r.session)
    requires OnWire(ps, j, o) && o < 35 && GoodSource(ps)
    ensures var r' := Receive(r, WirePacket(ps, j, o), env);
      TrackedNext(fates + [Delivered], j, o, r'.session) && r'.blocks == r.blocks
  {
    hide Invariant, SentBlocks, NullCount, GoodSource, Parse, OnMarker, SourcePacket, IsNull;
    SourceLength(ps);
    SourcePacketIsOrdinary(WirePacket(ps, j, o));
    InvariantFacts(r.session);
    DeliveredSnoc(fates, 36 * j);
  }

  lemma DeliveredSnoc(fates: seq<Fate>, a: nat)
    requires a <= |fates|
    ensures AllDelivered(fates + [Delivered], a, |fates| + 1) == AllDelivered(fates, a, |fates|)
  {
    assert forall i :: a <= i < |fates| ==> (fates + [Delivered])[i] == fates[i];
  }

  // A session in the Normal circuit is synchronised after a marker exactly when the marker was the next in sequence.
  lemma MarkerSynchronises(s: Session, m: Marker, env: Env)
    requires Invariant(s)
    ensures var t := OnMarker(s, m, env).session;
      t.circuit.Normal? ==>
        && t.firstMarkerSeen && t.lastSequence == m.sequence && t.block == []
        && t.synchronized == (s.firstMarkerSeen && m.sequence == Wrap32(s.lastSequence + 1))
        && s.circuit.Normal?
  {
    hide Payloads, ThresholdReached, Record, CLEARED, Ring.Valid;
  }

  // A marker sends a block exactly under these conditions.
  lemma MarkerSends(s: Session, m: Marker, env: Env)
    requires Invariant(s)
    ensures OnMarker(s, m, env).sent.Some? <==>
      (s.circuit.Normal? && s.firstMarkerSeen && m.sequence == Wrap32(s.lastSequence + 1)
       && s.synchronized && s.count > 0 && BlockMatches(s, m) && env.connected)
  {
    hide Payloads, ThresholdReached, Record, CLEARED, Ring.Valid;
  }

  lemma WholeBlockMatches(ps: seq<Payload>, j: nat, s: Session)
    requires GoodSource(ps) && OnWire(ps, j, 35) && j > 0 && Invariant(s) && s.circuit.Normal? && s.firstMarkerSeen
    requires |s.block| == 35 && Buffer(ps, j, 35, s) && s.lastSequence == j
    ensures BlockMatches(s, BlockMarker(ps, j)) && s.count == 35
  {
    hide GoodSource, Invariant, NullCount, NonNullCount, SourcePacket;
    InvariantFacts(s);
    SourceLength(ps);
    CountsOfSource(Block(ps, j));
    assert s.block == Block(ps, j);
  }

  lemma MatchingBlockIsWhole(ps: seq<Payload>, j: nat, s: Session)
    requires GoodSource(ps) && OnWire(ps, j, 35) && Invariant(s) && s.circuit.Normal? && s.firstMarkerSeen
    requires BlockMatches(s, BlockMarker(ps, j))
    ensures j > 0 && |s.block| == 35
  {
    hide GoodSource, Invariant, NullCount, NonNullCount, SourcePacket;
    InvariantFacts(s);
    SourceLength(ps);
    CountsOfSource(Block(ps, j));
  }

  // A marker that arrives sends the block it closes exactly when that block got through whole, after two intact
  // markers, in the Normal circuit and with a peer connected.
  lemma MarkerClosesWhole(ps: seq<Payload>, j: nat, r: Run, ks: seq<nat>, fates: seq<Fate>, env: Env)
    requires Linked(ps, j, 35, r, ks) && GoodSource(ps) && OnWire(ps, j, 35) && j + 1 < 0x1_0000_0000
    requires |fates| == 36 * j + 35 && Tracked(fates, j, 35, r.session)
    ensures OnMarker(r.session, BlockMarker(ps, j), env).sent.Some? ==
      (Whole(fates + [Delivered], j) && r.session.circuit.Normal? && env.connected)
  {
    hide SourceBlock, GoodSource, Invariant, NullCount, OnMarker, BlockMarker, SentBlocks, BlockMatches, Source;
    var s, m := r.session, BlockMarker(ps, j);
    MarkerSends(s, m, env);
    BlockMarkerSequence(ps, j);
    DeliveredSnoc(fates, 36 * j);
    if s.circuit.Normal? && s.firstMarkerSeen {
      if BlockMatches(s, m) { MatchingBlockIsWhole(ps, j, s); }
      if j > 0 && |s.block| == 35 && s.lastSequence == j { WholeBlockMatches(ps, j, s); }
    }
  }

  lemma MarkerTracked(ps: seq<Payload>, j: nat, r: Run, ks: seq<nat>, fates: seq<Fate>, env: Env)
    requires Linked(ps, j, 35, r, ks) && GoodSource(ps) && OnWire(ps, j, 35) && j + 1 < 0x1_0000_0000
    requires |fates| == 36 * j + 35 && Tracked(fates, j, 35, r.session)
    ensures var r' := Receive(r, WirePacket(ps, j, 35), env);
      && TrackedNext(fates + [Delivered], j, 35, r'.session)
      && r'.blocks == r.blocks + (if Whole(fates + [Delivered], j) && r.session.circuit.Normal? && env.connected
                                  then [SourceBlock(ps, j)] else [])
  {
    hide SourceBlock, GoodSource, Invariant, NullCount, OnMarker, OnPacket, BlockMarker, MarkerPacket, SentBlocks,
         Source, Whole, AllDelivered;
    var s, m := r.session, BlockMarker(ps, j);
    InvariantFacts(s);
    MarkerArrival(s, m, ContinuityCounter(j), env);
    MarkerClosesWhole(ps, j, r, ks, fates, env);
    MarkerSynchronises(s, m, env);
    BlockMarkerSequence(ps, j);
    NothingOpen(fates + [Delivered], 36 * (j + 1));
    if OnMarker(s, m, env).sent.Some? { SentIsBlock(ps, j, r, ks, env); }
  }

  lemma NothingOpen(fates: seq<Fate>, a: nat)
    requires a <= |fates|
    ensures AllDelivered(fates, a, a)
  {
  }

  // What the next packet of the wire adds to the blocks sent.
  ghost function Added(ps: seq<Payload>, fates: seq<Fate>, j: nat, o: nat, before: Session,
                       connected: bool): seq<seq<RtpPayload>>
    requires |fates| == 36 * j + o + 1 && o <= 35 && (o == 35 ==> 5 * j + 4 < |ps|)
  {
    if o == 35 && Whole(fates, j) && before.circuit.Normal? && connected then [SourceBlock(ps, j)] else []
  }

  lemma NextTracked(ps: seq<Payload>, j: nat, o: nat, r: Run, ks: seq<nat>, fates: seq<Fate>, f: Fate, env: Env)
    requires Linked(ps, j, o, r, ks) && GoodSource(ps) && OnWire(ps, j, o) && |ps| / 5 < 0x1_0000_0000
    requires |fates| == 36 * j + o && Tracked(fates, j, o, r.session) && r.session.failures.Valid()
    requires f.Damaged? ==> Unusable(f.packet)
    ensures var r' := Next(r, WirePacket(ps, j, o), f, env);
      && TrackedNext(fates + [f], j, o, r'.session)
      && r'.blocks == r.blocks + Added(ps, fates + [f], j, o, r.session, env.connected)
  {
    hide Receive, Unusable, WirePacket, SentBlocks, Buffer, Invariant, Tracked, TrackedNext, GoodSource;
    assert (fates + [f])[36 * j + o] == f;
    match f
    case Delivered =>
      MarkersFit(ps, j, o);
      if o < 35 { SourceTracked(ps, j, o, r, ks, fates, env); } else { MarkerTracked(ps, j, r, ks, fates, env); }
    case Lost => LossTracked(ps, j, o, r, ks, fates, f);
    case Damaged(q) =>
      DamagedIsLost(r, q, env);
      LossTracked(ps, j, o, r, ks, fates, f);
  }

  // ---- every run over a lossy channel ----

  // The sender's run over what the channel lets through of the first |fates| packets of the output.
  ghost function Received(ps: seq<Payload>, fates: seq<Fate>, envs: seq<Env>): Run
    requires |fates| <= |MuxAfter(ps).1| && |envs| == |Arrivals(MuxAfter(ps).1[..|fates|], fates)|
  {
    FromStart(Arrivals(MuxAfter(ps).1[..|fates|], fates), envs)
  }

  ghost predicate RunOk(ps: seq<Payload>, fates: seq<Fate>, envs: seq<Env>) {
    && GoodSource(ps) && |ps| / 5 < 0x1_0000_0000 && |fates| <= |MuxAfter(ps).1| && Fair(fates)
    && |envs| == |Arrivals(MuxAfter(ps).1[..|fates|], fates)|
  }

  // The environments met before the last packet of the output.
  ghost function Earlier(ps: seq<Payload>, fates: seq<Fate>, envs: seq<Env>): (es: seq<Env>)
    requires RunOk(ps, fates, envs) && fates != []
    ensures RunOk(ps, fates[..|fates| - 1], es)
  {
    hide GoodSource, MuxAfter, Unusable;
    var w, n := MuxAfter(ps).1[..|fates|], |fates| - 1;
    assert w[..n] == MuxAfter(ps).1[..n];
    envs[..|Arrivals(w[..n], fates[..n])|]
  }

  lemma PacketReceived(ps: seq<Payload>, j: nat, o: nat, fates: seq<Fate>, envs: seq<Env>) returns (env: Env)
    requires RunOk(ps, fates, envs) && |fates| == 36 * j + o + 1 && o <= 35
    ensures OnWire(ps, j, o)
    ensures fates[36 * j + o].Delivered? ==> envs != [] && env == envs[|envs| - 1]
    ensures var before := Received(ps, fates[..36 * j + o], Earlier(ps, fates, envs));
      && before.session.failures.Valid()
      && Received(ps, fates, envs) == Next(before, WirePacket(ps, j, o), fates[36 * j + o], env)
  {
    hide GoodSource, MuxAfter, Unusable, WirePacket, Next, OnWire, Arrivals;
    var w, n := MuxAfter(ps).1[..|fates|], |fates| - 1;
    OutputAt(ps, j, o);
    assert w[..n] == MuxAfter(ps).1[..n];
    env := LastArrival(w, fates, envs, Env(false, false, 0, 0));
  }

  lemma BeforeIsLinked(ps: seq<Payload>, j: nat, o: nat, fates: seq<Fate>, envs: seq<Env>) returns (ks: seq<nat>)
    requires RunOk(ps, fates, envs) && |fates| == 36 * j + o && o <= 35
    ensures Linked(ps, j, o, Received(ps, fates, envs), ks)
  {
    hide GoodSource, MuxAfter, Unusable, Linked, Arrivals;
    ks := LinkInvariant(ps, j, o, fates, envs, Env(false, false, 0, 0));
  }

  // One more packet: the blocks sent grow by what Added says, at every point of every run.
  lemma PacketAdds(ps: seq<Payload>, j: nat, o: nat, fates: seq<Fate>, envs: seq<Env>)
    requires RunOk(ps, fates, envs) && |fates| == 36 * j + o + 1 && o <= 35
    requires Tracked(fates[..36 * j + o], j, o, Received(ps, fates[..36 * j + o], Earlier(ps, fates, envs)).session)
    ensures TrackedNext(fates, j, o, Received(ps, fates, envs).session)
    ensures o == 35 ==> 5 * j + 4 < |ps|
    ensures var before := Received(ps, fates[..36 * j + o], Earlier(ps, fates, envs));
      Received(ps, fates, envs).blocks == before.blocks
        + Added(ps, fates, j, o, before.session, envs != [] && envs[|envs| - 1].connected)
  {
    hide GoodSource, MuxAfter, Unusable, Linked, Tracked, TrackedNext, WirePacket, Next, Received, AllDelivered,
         Arrivals;
    var n := 36 * j + o;
    assert fates == fates[..n] + [fates[n]];
    var env := PacketReceived(ps, j, o, fates, envs);
    var ks := BeforeIsLinked(ps, j, o, fates[..n], Earlier(ps, fates, envs));
    NextTracked(ps, j, o, Received(ps, fates[..n], Earlier(ps, fates, envs)), ks, fates[..n], fates[n], env);
    if o == 35 && Whole(fates, j) { LastIsDelivered(fates, j); }
  }

  lemma LastIsDelivered(fates: seq<Fate>, j: nat)
    requires |fates| == 36 * j + 36 && Whole(fates, j)
    ensures fates[36 * j + 35].Delivered?
  {
  }

  lemma {:induction false} AlwaysTracked(ps: seq<Payload>, j: nat, o: nat, fates: seq<Fate>, envs: seq<Env>)
    requires RunOk(ps, fates, envs) && |fates| == 36 * j + o && o <= 35
    ensures Tracked(fates, j, o, Received(ps, fates, envs).session)
    decreases |fates|
  {
    hide RunOk, Tracked, Received, Added;
    if fates == [] {
      NothingReceived(ps, envs);
    } else {
      var j0, o0 := if o > 0 then j else j - 1, if o > 0 then o - 1 else 35;
      AlwaysTracked(ps, j0, o0, fates[..|fates| - 1], Earlier(ps, fates, envs));
      PacketAdds(ps, j0, o0, fates, envs);
    }
  }

  lemma NothingReceived(ps: seq<Payload>, envs: seq<Env>)
    requires RunOk(ps, [], envs)
    ensures Tracked([], 0, 0, Received(ps, [], envs).session)
  {
    assert MuxAfter(ps).1[..0] == [];
    NothingArrived();
  }

  // Which blocks get through. Over every fair run, whatever was lost or damaged, a packet of the output that is not a
  // closing marker sends nothing, and the packet that closes block j sends it, exactly as it was in the source, if and
  // only if all of block j and its closing marker arrived, the two markers before it did, a peer is connected and the
  // circuit breaker has not tripped. So after any loss the circuit survives, two markers in sequence suffice.
  lemma WholeBlocksGetThrough(ps: seq<Payload>, j: nat, o: nat, fates: seq<Fate>, envs: seq<Env>)
    requires RunOk(ps, fates, envs) && |fates| == 36 * j + o + 1 && o <= 35
    ensures o == 35 ==> 5 * j + 4 < |ps|
    ensures var before := Received(ps, fates[..36 * j + o], Earlier(ps, fates, envs));
      Received(ps, fates, envs).blocks == before.blocks
        + if o == 35 && Whole(fates, j) && before.session.circuit.Normal? && envs != [] && envs[|envs| - 1].connected
          then [SourceBlock(ps, j)] else []
  {
    hide RunOk, Tracked, Received, Whole;
    AlwaysTracked(ps, j, o, fates[..|fates| - 1], Earlier(ps, fates, envs));
    PacketAdds(ps, j, o, fates, envs);
  }

  // ---- how a loss is survived ----

  // How many markers a marker out of sequence shows to be lost.
  function LostBefore(s: Session, m: Marker): U32 { Wrap32(m.sequence - Wrap32(s.lastSequence + 1)) }

  // The circuit survives a gap in the sequence exactly when fewer than ten markers are missing since the last two that
  // arrived in sequence; the sender then waits for the next marker.
  lemma LossSurvivedExactly(s: Session, m: Marker, env: Env)
    requires Invariant(s) && s.circuit.Normal? && s.firstMarkerSeen && LostBefore(s, m) != 0
    ensures var t := OnMarker(s, m, env).session;
      && t.circuit.Normal? == (Wrap32(s.losses + LostBefore(s, m)) < CONSECUTIVE_MARKER_LOSS_THRESHOLD)
      && (t.circuit.Normal? ==> t.firstMarkerSeen && !t.synchronized && t.lastSequence == m.sequence
                                && t.losses == Wrap32(s.losses + LostBefore(s, m)))
  {
    hide Payloads, ThresholdReached, Record, CLEARED, Ring.Valid;
  }

  // Packets other than markers, whether usable or not.
  ghost predicate Plain(ps: seq<TsPacket>) { forall i :: 0 <= i < |ps| ==> !IsMarker(ps[i]) }

  lemma PlainPacket(s: Session, p: TsPacket, env: Env)
    requires Invariant(s) && !IsMarker(p)
    ensures var t := OnPacket(s, p, env).session;
      t == s.(block := t.block, count := t.count, nonNull := t.nonNull, nulls := t.nulls)
  {
    hide IsNull, OnMarker;
  }

  lemma {:induction false} PlainPackets(r: Run, ps: seq<TsPacket>, envs: seq<Env>)
    requires Invariant(r.session) && |ps| == |envs| && Plain(ps)
    ensures var t := ReceiveAll(r, ps, envs).session;
      t == r.session.(block := t.block, count := t.count, nonNull := t.nonNull, nulls := t.nulls)
  {
    hide OnPacket, Invariant;
    if ps != [] {
      var n := |ps| - 1;
      PlainPackets(r, ps[..n], envs[..n]);
      PlainPacket(ReceiveAll(r, ps[..n], envs[..n]).session, ps[n], envs[n]);
    }
  }

  // After a gap that the circuit survives, the second of two consecutive markers synchronises the sender again and
  // clears the count of the lost, whatever is left of the block between them.
  lemma TwoMarkersResynchronise(s: Session, m: Marker, e: Env, ps: seq<TsPacket>, envs: seq<Env>, m': Marker, e': Env)
    requires Invariant(s) && s.circuit.Normal? && s.firstMarkerSeen && LostBefore(s, m) != 0
    requires Wrap32(s.losses + LostBefore(s, m)) < CONSECUTIVE_MARKER_LOSS_THRESHOLD
    requires |ps| == |envs| && Plain(ps) && m'.sequence == Wrap32(m.sequence + 1)
    ensures Invariant(OnMarker(s, m, e).session)
    ensures var t := ReceiveAll(Run(OnMarker(s, m, e).session, []), ps, envs).session;
      && t.failures.Valid() && !t.synchronized
      && var u := OnMarker(t, m', e').session;
        u.circuit.Normal? && u.synchronized && u.losses == 0 && u.lastSequence == m'.sequence && u.block == []
  {
    hide Invariant, OnMarker, ReceiveAll, Plain, LostBefore;
    InvariantFacts(s);
    LossSurvivedExactly(s, m, e);
    MarkerKeepsInvariant(s, m, e);
    var start := Run(OnMarker(s, m, e).session, []);
    PlainPackets(start, ps, envs);
    InvariantFacts(ReceiveAll(start, ps, envs).session);
    SecondMarker(ReceiveAll(start, ps, envs).session, m', e');
  }

  lemma SecondMarker(s: Session, m: Marker, env: Env)
    requires Invariant(s) && s.circuit.Normal? && s.firstMarkerSeen && !s.synchronized
    requires m.sequence == Wrap32(s.lastSequence + 1)
    ensures var u := OnMarker(s, m, env).session;
      u.circuit.Normal? && u.synchronized && u.losses == 0 && u.lastSequence == m.sequence && u.block == []
  {
    hide Payloads, ThresholdReached, Record, CLEARED, Ring.Valid;
  }
}
