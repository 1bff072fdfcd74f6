// The Part 7 link end to end: the multiplexer's output, a channel that loses packets, the sender.
module MarkerLink {
  import opened Bytes
  import opened TransportStream
  import opened MarkerCodec
  import opened FailureWindow
  import opened MarkerMultiplexer
  import opened MarkerWire
  import opened MarkerSession

  // ---- a block as the sender hands it on ----

  // Source block j: its five payloads under their own RTP sequence numbers. The flow is that of the
  // payload that closed the block.
  function SourceBlock(ps: seq<Payload>, j: nat): seq<RtpPayload>
    requires 5 * j + 4 < |ps|
  {
    seq(5, i requires 0 <= i < 5 => RtpPayload(
      Wrap16(ps[5 * j + i].seqNo), ps[5 * j + 4].flowId, Packets(ps[5 * j + i].data)))
  }

  lemma {:induction false} PayloadsAt(block: seq<TsPacket>, seqNo: U16, ssrc: U32, i: nat)
    requires i < |block| / 7
    ensures Payloads(block, seqNo, ssrc)[i]
         == RtpPayload(Wrap16(seqNo + i), ssrc, block[7 * i..7 * i + 7])
  {
    if i > 0 {
      PayloadsAt(block[7..], Wrap16(seqNo + 1), ssrc, i - 1);
      hide Wrap16;
      AddWraps(seqNo + 1, i - 1);
      TailSlice(block, 7 * (i - 1));
    }
  }

  lemma TailSlice(block: seq<TsPacket>, at: nat)
    requires at + 14 <= |block|
    ensures block[7..][at..at + 7] == block[at + 7..at + 14]
  {
  }

  lemma AddWraps(n: int, k: int)
    ensures Wrap16(n + k) == Wrap16(Wrap16(n) + k)
  {
  }

  lemma {:induction false} SequenceInBlock(ps: seq<Payload>, j: nat, i: nat)
    requires GoodSource(ps) && i < 5 && 5 * j + 4 < |ps|
    ensures Wrap16(ps[5 * j + i].seqNo) == Wrap16(Wrap16(ps[5 * j].seqNo) + i)
  {
    if i > 0 {
      SequenceInBlock(ps, j, i - 1);
      NextInBlock(ps, 5 * j + i);
      hide GoodSource, Wrap16;
      AddWraps(ps[5 * j + i - 1].seqNo, 1);
      AddWraps(Wrap16(ps[5 * j].seqNo) + i - 1, 1);
    } else {
      hide GoodSource;
    }
  }

  lemma NextInBlock(ps: seq<Payload>, k: nat)
    requires GoodSource(ps) && k < |ps| && k % 5 != 0
    ensures Wrap16(ps[k].seqNo) == Wrap16(ps[k - 1].seqNo + 1)
  {
    hide Wrap16, SourcePacket, Packets;
  }

  lemma SliceOfSlice(w: seq<TsPacket>, a: nat, b: nat)
    requires a + 35 <= |w| && b + 7 <= 35
    ensures w[a..a + 35][b..b + 7] == w[a + b..a + b + 7]
  {
    var x, y := w[a..a + 35][b..b + 7], w[a + b..a + b + 7];
    assert forall k :: 0 <= k < 7 ==> x[k] == y[k];
  }

  lemma PayloadsOfBlock(ps: seq<Payload>, j: nat)
    requires GoodSource(ps) && 5 * j + 4 < |ps| && |Source(ps)| == 7 * |ps|
    ensures Payloads(Block(ps, j), Wrap16(ps[5 * j].seqNo), ps[5 * j + 4].flowId) == SourceBlock(ps, j)
  {
    hide GoodSource, Payloads, Source;
    var b, seqNo, ssrc := Block(ps, j), Wrap16(ps[5 * j].seqNo), ps[5 * j + 4].flowId;
    var sent, source := Payloads(b, seqNo, ssrc), SourceBlock(ps, j);
    assert |sent| == 5 == |source|;
    forall i | 0 <= i < 5
      ensures sent[i] == source[i]
    {
      PayloadsAt(b, seqNo, ssrc, i);
      SequenceInBlock(ps, j, i);
      SourceAt(ps, 5 * j + i);
      SliceOfSlice(Source(ps), 35 * j, 7 * i);
      assert b[7 * i..7 * i + 7] == Packets(ps[5 * j + i].data);
    }
    assert sent == source;
  }

  // ---- the wire, packet by packet ----

  ghost predicate OnWire(ps: seq<Payload>, j: nat, o: nat) {
    && |Source(ps)| == 7 * |ps| && o < 36
    && (o < 35 ==> 35 * j + o < 7 * |ps|)
    && (o == 35 ==> 5 * j + 4 < |ps|)
  }

  // Packet o of block j; packet 35 is the marker that closes the block.
  function WirePacket(ps: seq<Payload>, j: nat, o: nat): TsPacket
    requires OnWire(ps, j, o)
  {
    if o < 35 then Source(ps)[35 * j + o] else MarkerPacket(BlockMarker(ps, j), ContinuityCounter(j))
  }

  lemma {:induction false} WireAt(ps: seq<Payload>, m: nat, j: nat, o: nat)
    requires GoodSource(ps) && 5 * m <= |ps| && j < m && o < 36
    ensures OnWire(ps, j, o) && Wire(ps, m)[36 * j + o] == WirePacket(ps, j, o)
  {
    hide GoodSource, BlockMarker, MarkerPacket;
    SourceLength(ps);
    if j < m - 1 {
      WireAt(ps, m - 1, j, o);
    }
  }

  // Everything the multiplexer puts out, packet by packet.
  lemma OutputAt(ps: seq<Payload>, j: nat, o: nat)
    requires GoodSource(ps) && o < 36 && 36 * j + o < |MuxAfter(ps).1|
    ensures OnWire(ps, j, o) && MuxAfter(ps).1[36 * j + o] == WirePacket(ps, j, o)
  {
    hide GoodSource, BlockMarker, MarkerPacket, MuxAfter, Wire;
    var m := |ps| / 5;
    MuxProducesWire(ps, m, |ps| % 5);
    if j < m {
      WireAt(ps, m, j, o);
    } else {
      assert j == m;
    }
  }

  // ---- the channel ----

  // What becomes of one packet: it arrives, it is lost, or something unusable arrives in its place
  // (no sync byte, or a marker that fails its checks).
  datatype Fate = Delivered | Lost | Damaged(packet: TsPacket)

  ghost predicate Fair(fates: seq<Fate>) {
    forall i :: 0 <= i < |fates| && fates[i].Damaged? ==> Unusable(fates[i].packet)
  }

  function Arrival(p: TsPacket, f: Fate): seq<TsPacket> {
    match f
    case Delivered => [p]
    case Lost => []
    case Damaged(q) => [q]
  }

  function Arrivals(w: seq<TsPacket>, fates: seq<Fate>): seq<TsPacket>
    requires |w| == |fates|
  {
    if w == [] then []
    else Arrivals(w[..|w| - 1], fates[..|w| - 1]) + Arrival(w[|w| - 1], fates[|w| - 1])
  }

  const START: Run := Run(INITIAL_SESSION, [])

  // The run of a freshly started sender over the packets that reach it.
  function FromStart(ps: seq<TsPacket>, envs: seq<Env>): (r: Run)
    requires |ps| == |envs|
    ensures Invariant(r.session)
  {
    InitialInvariant();
    ReceiveAll(START, ps, envs)
  }

  // ---- soundness under loss ----

  ghost predicate Increasing(ks: seq<nat>) {
    forall a, b :: 0 <= a < b < |ks| ==> ks[a] < ks[b]
  }

  // The blocks sent are the source blocks ks, all of them before block j.
  ghost predicate SentBlocks(ps: seq<Payload>, j: nat, blocks: seq<seq<RtpPayload>>, ks: seq<nat>) {
    && GoodSource(ps) && 5 * j <= |ps|
    && |ks| == |blocks| && Increasing(ks)
    && forall i :: 0 <= i < |ks| ==> ks[i] < j && blocks[i] == SourceBlock(ps, ks[i])
  }

  // What the sender's buffer can hold when o packets of block j have been put on the wire: if the last
  // marker it accepted opened block j, then no more than those o packets, and if as many, then exactly them.
  ghost predicate Buffer(ps: seq<Payload>, j: nat, o: nat, s: Session)
    requires |Source(ps)| == 7 * |ps| && 35 * j + o <= 7 * |ps|
  {
    s.circuit.Normal? && s.firstMarkerSeen ==>
      && 1 <= s.lastSequence <= j
      && s.nulls == NullCount(s.block)
      && (s.lastSequence == j ==>
            |s.block| <= o && (|s.block| == o ==> s.block == Source(ps)[35 * j..35 * j + o]))
  }

  ghost predicate Linked(ps: seq<Payload>, j: nat, o: nat, r: Run, ks: seq<nat>) {
    && |Source(ps)| == 7 * |ps| && o <= 35 && 35 * j + o <= 7 * |ps|
    && Invariant(r.session)
    && SentBlocks(ps, j, r.blocks, ks)
    && Buffer(ps, j, o, r.session)
  }

  // Losing a packet changes nothing.
  lemma PacketLost(ps: seq<Payload>, j: nat, o: nat, r: Run, ks: seq<nat>)
    requires Linked(ps, j, o, r, ks) && OnWire(ps, j, o)
    ensures o < 35 ==> Linked(ps, j, o + 1, r, ks)
    ensures o == 35 ==> Linked(ps, j + 1, 0, r, ks)
  {
    hide SourceBlock, Invariant, GoodSource, NullCount;
  }

  lemma NullCountSnoc(a: seq<TsPacket>, p: TsPacket)
    ensures NullCount(a + [p]) == NullCount(a) + if IsNull(p) then 1 else 0
  {
    assert (a + [p])[..|a|] == a;
  }

  lemma SourcePacketArrives(ps: seq<Payload>, j: nat, o: nat, r: Run, ks: seq<nat>, env: Env)
    requires Linked(ps, j, o, r, ks) && OnWire(ps, j, o) && o < 35
    ensures Linked(ps, j, o + 1, Receive(r, WirePacket(ps, j, o), env), ks)
  {
    hide SourceBlock, GoodSource, NullCount, IsNull, Parse, OnMarker, SourcePacket, Invariant;
    var p, s := WirePacket(ps, j, o), r.session;
    SourceLength(ps);
    SourcePacketIsOrdinary(p);
    PacketKeepsInvariant(s, p, env);
    NullCountSnoc(s.block, p);
    InvariantFacts(s);
    assert Source(ps)[35 * j..35 * j + o + 1] == Source(ps)[35 * j..35 * j + o] + [p];
  }

  lemma SourcePacketIsOrdinary(p: TsPacket)
    requires SourcePacket(p)
    ensures HasSync(p) && !IsMarker(p)
  {
  }

  lemma InvariantFacts(s: Session)
    requires Invariant(s)
    ensures s.failures.Valid()
    ensures s.circuit.Normal? ==> s.count == |s.block| <= MAX_BLOCK_TS_PACKETS
    ensures s.circuit.Normal? && s.firstMarkerSeen ==> s.nonNull + s.nulls == s.count + 1
    ensures s.circuit.Normal? && !s.firstMarkerSeen ==> s.count == 0 && s.nonNull == 0 && s.nulls == 0
  {
  }

  // ---- a marker arrives ----

  lemma MarkerArrival(s: Session, m: Marker, cc: Byte, env: Env)
    requires s.failures.Valid()
    ensures OnPacket(s, MarkerPacket(m, cc), env) == OnMarker(s, m, env)
  {
    hide MarkerPacket, OnMarker, Parse, IsMarker, HasSync;
    MarkerPacketIsMarker(m, cc);
    ParseMarkerPacket(m, cc);
    MarkerHasSync(MarkerPacket(m, cc));
  }

  // What a marker does to a session in the Normal circuit, as far as blocks are concerned: it opens one.
  lemma MarkerOpens(s: Session, m: Marker, env: Env)
    requires Invariant(s)
    ensures var o := OnMarker(s, m, env);
      o.session.circuit.Normal? && o.session.firstMarkerSeen ==>
        o.session.lastSequence == m.sequence && o.session.block == [] && o.session.nulls == 0
  {
    hide Payloads, ThresholdReached, Record, CLEARED, Ring.Valid;
  }

  // And it sends one only when it is next in sequence and the counts agree.
  lemma MarkerEffect(s: Session, m: Marker, env: Env)
    requires Invariant(s)
    ensures var o := OnMarker(s, m, env);
      o.sent.Some? ==>
        && s.circuit.Normal? && s.firstMarkerSeen && m.sequence == Wrap32(s.lastSequence + 1)
        && s.nonNull == m.nonNull && s.nulls == m.nulls && s.count + 1 == m.nonNull + m.nulls
        && o.sent.value == Payloads(s.block, m.rtpStart, m.ssrc)
  {
    hide Payloads, ThresholdReached, Record, CLEARED, Ring.Valid;
  }

  // A marker that sends a block sends exactly the block it closes.
  lemma SentIsBlock(ps: seq<Payload>, j: nat, r: Run, ks: seq<nat>, env: Env)
    requires Linked(ps, j, 35, r, ks) && OnWire(ps, j, 35) && j + 1 < 0x1_0000_0000
    requires OnMarker(r.session, BlockMarker(ps, j), env).sent.Some?
    ensures OnMarker(r.session, BlockMarker(ps, j), env).sent.value == SourceBlock(ps, j)
  {
    hide SourceBlock, GoodSource, Invariant, NullCount, NonNullCount, Payloads, OnMarker, SourcePacket;
    var s, m := r.session, BlockMarker(ps, j);
    MarkerEffect(s, m, env);
    InvariantFacts(s);
    SourceLength(ps);
    CountsOfSource(Block(ps, j));
    assert s.lastSequence == j;
    assert s.block == Block(ps, j);
    PayloadsOfBlock(ps, j);
  }

  lemma MarkerArrives(ps: seq<Payload>, j: nat, r: Run, ks: seq<nat>, env: Env) returns (ks': seq<nat>)
    requires Linked(ps, j, 35, r, ks) && OnWire(ps, j, 35) && j + 1 < 0x1_0000_0000
    ensures Linked(ps, j + 1, 0, Receive(r, WirePacket(ps, j, 35), env), ks')
    ensures ks <= ks'
  {
    hide SourceBlock, GoodSource, Invariant, NonNullCount, Payloads, OnMarker, OnPacket, BlockMarker, MarkerPacket;
    var s, m := r.session, BlockMarker(ps, j);
    InvariantFacts(s);
    MarkerArrival(s, m, ContinuityCounter(j), env);
    PacketKeepsInvariant(s, WirePacket(ps, j, 35), env);
    MarkerOpens(s, m, env);
    MarkerEffect(s, m, env);
    BlockMarkerSequence(ps, j);
    ks' := ks;
    if OnMarker(s, m, env).sent.Some? {
      SentIsBlock(ps, j, r, ks, env);
      ks' := ks + [j];
    }
  }

  lemma BlockMarkerSequence(ps: seq<Payload>, j: nat)
    requires 35 * (j + 1) <= |Source(ps)| && 5 * j + 4 < |ps|
    ensures BlockMarker(ps, j).sequence == Wrap32(1 + j)
  {
  }

  // ---- every run over a lossy channel ----

  lemma ReceiveOne(ps: seq<TsPacket>, envs: seq<Env>, p: TsPacket, env: Env)
    requires |ps| == |envs|
    ensures FromStart(ps, envs).session.failures.Valid()
    ensures FromStart(ps + [p], envs + [env]) == Receive(FromStart(ps, envs), p, env)
  {
    hide Receive;
    assert (ps + [p])[..|ps|] == ps && (envs + [env])[..|envs|] == envs;
  }

  // The run after one more packet of the wire has met its fate.
  function Next(r: Run, p: TsPacket, f: Fate, env: Env): Run
    requires r.session.failures.Valid()
  {
    match f
    case Delivered => Receive(r, p, env)
    case Lost => r
    case Damaged(q) => Receive(r, q, env)
  }

  lemma LinkStep(ps: seq<Payload>, j: nat, o: nat, r: Run, ks: seq<nat>, f: Fate, env: Env) returns (ks': seq<nat>)
    requires Linked(ps, j, o, r, ks) && OnWire(ps, j, o) && |ps| / 5 < 0x1_0000_0000
    requires f.Damaged? ==> Unusable(f.packet)
    requires r.session.failures.Valid()
    ensures o < 35 ==> Linked(ps, j, o + 1, Next(r, WirePacket(ps, j, o), f, env), ks')
    ensures o == 35 ==> Linked(ps, j + 1, 0, Next(r, WirePacket(ps, j, o), f, env), ks')
  {
    hide Receive, Unusable, WirePacket, SentBlocks, Buffer, Invariant;
    ks' := ks;
    match f
    case Delivered =>
      MarkersFit(ps, j, o);
      if o < 35 { SourcePacketArrives(ps, j, o, r, ks, env); } else { ks' := MarkerArrives(ps, j, r, ks, env); }
    case Lost => PacketLost(ps, j, o, r, ks);
    case Damaged(q) =>
      DamagedIsLost(r, q, env);
      PacketLost(ps, j, o, r, ks);
  }

  // Splitting the last packet, its fate and the environment it met off a run.
  lemma LastArrival(w: seq<TsPacket>, fates: seq<Fate>, envs: seq<Env>, any: Env) returns (env: Env)
    requires |w| == |fates| > 0 && |envs| == |Arrivals(w, fates)|
    ensures
      var n := |w| - 1;
      var before := Arrivals(w[..n], fates[..n]);
      && |before| <= |envs|
      && var r := FromStart(before, envs[..|before|]);
      && r.session.failures.Valid()
      && FromStart(Arrivals(w, fates), envs) == Next(r, w[n], fates[n], env)
    ensures fates[|w| - 1].Delivered? ==> envs != [] && env == envs[|envs| - 1]
  {
    hide Receive;
    var n := |w| - 1;
    var before := Arrivals(w[..n], fates[..n]);
    var k := |before|;
    var arrival := Arrival(w[n], fates[n]);
    env := if arrival == [] then any else envs[k];
    if arrival == [] {
      assert envs[..k] == envs && before + arrival == before;
    } else {
      assert envs == envs[..k] + [env];
      ReceiveOne(before, envs[..k], arrival[0], env);
    }
  }

  // The link invariant holds at every point of every run: o packets into block j, whatever the channel
  // did so far.
  lemma {:induction false} LinkInvariant(ps: seq<Payload>, j: nat, o: nat, fates: seq<Fate>, envs: seq<Env>, any: Env)
    returns (ks: seq<nat>)
    requires GoodSource(ps) && |ps| / 5 < 0x1_0000_0000
    requires o <= 35 && 36 * j + o == |fates| <= |MuxAfter(ps).1| && Fair(fates)
    requires |envs| == |Arrivals(MuxAfter(ps).1[..|fates|], fates)|
    ensures Linked(ps, j, o, FromStart(Arrivals(MuxAfter(ps).1[..|fates|], fates), envs), ks)
    decreases |fates|
  {
    hide GoodSource, Invariant, Linked, OnWire, MuxAfter, WirePacket, Next, Unusable, Arrivals;
    if fates == [] {
      assert MuxAfter(ps).1[..0] == [];
      LinkStart(ps);
      NothingArrived();
      ks := [];
    } else {
      var n := |fates| - 1;
      var j0, o0 := if o > 0 then j else j - 1, if o > 0 then o - 1 else 35;
      var w := MuxAfter(ps).1[..|fates|];
      OutputAt(ps, j0, o0);
      assert 36 * j0 + o0 == n && w[..n] == MuxAfter(ps).1[..n];
      var env := LastArrival(w, fates, envs, any);
      var before := Arrivals(w[..n], fates[..n]);
      ks := LinkInvariant(ps, j0, o0, fates[..n], envs[..|before|], any);
      ks := LinkStep(ps, j0, o0, FromStart(before, envs[..|before|]), ks, fates[n], env);
    }
  }

  lemma NothingArrived()
    ensures Arrivals([], []) == []
  {
  }

  lemma LinkStart(ps: seq<Payload>)
    requires GoodSource(ps)
    ensures Linked(ps, 0, 0, START, [])
  {
    SourceLength(ps);
    InitialInvariant();
  }

  lemma MarkersFit(ps: seq<Payload>, j: nat, o: nat)
    requires OnWire(ps, j, o) && |ps| / 5 < 0x1_0000_0000
    ensures o == 35 ==> j + 1 < 0x1_0000_0000
  {
  }

  lemma DamagedIsLost(r: Run, q: TsPacket, env: Env)
    requires Invariant(r.session) && Unusable(q)
    ensures Receive(r, q, env) == r
  {
    hide OnPacket, Unusable;
    UnusableIsLost(r.session, q, env);
  }

  // Soundness. A well-formed source with fewer than 2^32 markers is multiplexed and any part of the
  // output, taken up to any packet, reaches the sender. Then every block the sender hands on is a block
  // of the source, byte for byte, under its original RTP sequence numbers, and the blocks come in source
  // order, none of them twice.
  lemma SentBlocksAreSourceBlocks(ps: seq<Payload>, fates: seq<Fate>, envs: seq<Env>) returns (ks: seq<nat>)
    requires GoodSource(ps) && |ps| / 5 < 0x1_0000_0000
    requires |fates| <= |MuxAfter(ps).1| && Fair(fates)
    requires |envs| == |Arrivals(MuxAfter(ps).1[..|fates|], fates)|
    ensures
      var sent := FromStart(Arrivals(MuxAfter(ps).1[..|fates|], fates), envs).blocks;
      && |ks| == |sent| && Increasing(ks)
      && forall i :: 0 <= i < |sent| ==> 5 * ks[i] + 4 < |ps| && sent[i] == SourceBlock(ps, ks[i])
  {
    hide MuxAfter, Invariant, Buffer, SourceBlock;
    ks := LinkInvariant(ps, |fates| / 36, |fates| % 36, fates, envs, Env(false, false, 0, 0));
  }
}
