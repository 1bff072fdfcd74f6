// The marker-aware sender: what one received transport stream packet does to the session.
module MarkerSession {
  import opened Bytes
  import opened TransportStream
  import opened MarkerCodec
  import opened FailureWindow

  const TS_PACKETS_PER_RTP: nat := 7
  const MAX_BLOCK_TS_PACKETS: nat := 37600
  const CONSECUTIVE_MARKER_LOSS_THRESHOLD: U32 := 10
  const RECOVERY_GOOD_BLOCKS_REQUIRED: U32 := 10
  const RECOVERY_TIME_REQUIRED_US: U64 := 10_000_000
  const RESTART_MESSAGE_INTERVAL_US: U64 := 5_000_000

  datatype Circuit = Normal | Shutdown | Recovery

  // The protocol fields of the callback object. `block` is the buffered packets; the buffer is
  // written and read in the Normal circuit only, and counts as empty in the other two.
  datatype Session = Session(
    circuit: Circuit,
    senderLive: bool,
    senderStarted: bool,
    firstMarkerSeen: bool,
    synchronized: bool,
    block: seq<TsPacket>,
    count: nat,
    nonNull: U16,
    nulls: U16,
    lastSequence: U32,
    rtpStart: U16,
    ssrc: U32,
    savedSsrc: U32,
    losses: U32,
    failures: Ring,
    trips: U32,
    goodBlocks: U32,
    recoveryStart: U64,
    lastRestart: U64)

  const INITIAL_SESSION: Session := Session(
    Normal, true, false, false, false, [], 0, 0, 0, 0, 0, 0, 0, 0, CLEARED, 0, 0, 0, 0)

  // What the environment decides while a packet is handled: whether a peer is connected, whether
  // starting the sender succeeds, and two successive readings of the monotonic clock.
  datatype Env = Env(connected: bool, startOk: bool, now: U64, later: U64)

  datatype RtpPayload = RtpPayload(seqNo: U16, ssrc: U32, packets: seq<TsPacket>)

  datatype Verdict =
    | Buffered | Ignored
    | RecoveryEntered | Opened
    | LossTrip | LossInRecovery | Resynced
    | Validated | FailureTrip | FailureInRecovery | Failed
    | Synchronized | Empty

  // sent: the payloads handed to the RIST sender, if a block was sent.
  datatype Outcome = Outcome(session: Session, sent: Option<seq<RtpPayload>>, verdict: Verdict, restart: bool)

  function Quiet(s: Session, v: Verdict): Outcome { Outcome(s, None, v, false) }

  // The counters as they stand when a marker has just opened a block.
  function BlockOpened(s: Session): Session {
    s.(block := [], count := 0, nonNull := 1, nulls := 0)
  }

  function Trip(s: Session): Session {
    s.(senderLive := false, senderStarted := false, firstMarkerSeen := false, synchronized := false,
       block := [], count := 0, nonNull := 0, nulls := 0, losses := 0,
       circuit := Shutdown, trips := Wrap32(s.trips + 1), failures := CLEARED)
  }

  function BackToShutdown(s: Session): Session {
    s.(circuit := Shutdown, firstMarkerSeen := false, synchronized := false)
  }

  function EnterRecovery(s: Session, m: Marker, now: U64): Session {
    BlockOpened(s.(circuit := Recovery, goodBlocks := 0, recoveryStart := now, lastRestart := 0,
                   synchronized := false, firstMarkerSeen := true, lastSequence := m.sequence,
                   savedSsrc := m.ssrc, losses := 0))
  }

  function OpenSession(s: Session, m: Marker, startOk: bool): Session {
    BlockOpened(s.(firstMarkerSeen := true, synchronized := false, ssrc := m.ssrc,
                   lastSequence := m.sequence, savedSsrc := m.ssrc,
                   senderStarted := s.senderStarted || (s.circuit.Normal? && startOk)))
  }

  // Consecutive groups of seven packets, numbered upwards from the block's first sequence number.
  function Payloads(block: seq<TsPacket>, seqNo: U16, ssrc: U32): (ps: seq<RtpPayload>)
    ensures |ps| == |block| / TS_PACKETS_PER_RTP
  {
    if |block| < TS_PACKETS_PER_RTP then []
    else [RtpPayload(seqNo, ssrc, block[..TS_PACKETS_PER_RTP])]
         + Payloads(block[TS_PACKETS_PER_RTP..], Wrap16(seqNo + 1), ssrc)
  }

  predicate BlockMatches(s: Session, m: Marker) {
    && s.nonNull == m.nonNull && s.nulls == m.nulls
    && s.count % TS_PACKETS_PER_RTP == 0
    && s.count + 1 == m.nonNull + m.nulls
  }

  function OnGoodBlock(s: Session, m: Marker, env: Env): Outcome {
    match s.circuit
    case Normal =>
      var s' := s.(rtpStart := m.rtpStart, ssrc := m.ssrc);
      Outcome(BlockOpened(s'),
              if env.connected && s.count != 0 then Some(Payloads(s.block, m.rtpStart, m.ssrc)) else None,
              Validated, false)
    case Shutdown =>
      Quiet(BlockOpened(s), Validated)
    case Recovery =>
      var s' := s.(goodBlocks := Wrap32(s.goodBlocks + 1));
      var complete := s'.goodBlocks >= RECOVERY_GOOD_BLOCKS_REQUIRED
                      && Wrap64(env.now - s.recoveryStart) >= RECOVERY_TIME_REQUIRED_US;
      var restart := complete &&
        (s.lastRestart == 0 || Wrap64(env.later - s.lastRestart) >= RESTART_MESSAGE_INTERVAL_US);
      Outcome(BlockOpened(if restart then s'.(lastRestart := env.later) else s'), None, Validated, restart)
  }

  function OnBadBlock(s: Session, env: Env): Outcome
    requires s.failures.Valid()
  {
    var s' := s.(failures := Record(s.failures, env.now));
    if ThresholdReached(s'.failures, env.later) then Quiet(Trip(s'), FailureTrip)
    else if s.circuit.Recovery? then Quiet(BackToShutdown(s'), FailureInRecovery)
    else Quiet(BlockOpened(s'), Failed)
  }

  function OnLoss(s: Session, m: Marker, lost: U32): Outcome {
    var s' := s.(losses := Wrap32(s.losses + lost));
    if s'.losses >= CONSECUTIVE_MARKER_LOSS_THRESHOLD then Quiet(Trip(s'), LossTrip)
    else if s.circuit.Recovery? then Quiet(BackToShutdown(s'), LossInRecovery)
    else Quiet(BlockOpened(s'.(synchronized := false, lastSequence := m.sequence)), Resynced)
  }

  function OnMarker(s: Session, m: Marker, env: Env): Outcome
    requires s.failures.Valid()
  {
    var expected := Wrap32(s.lastSequence + 1);
    if s.circuit.Shutdown? then Quiet(EnterRecovery(s, m, env.now), RecoveryEntered)
    else if !s.firstMarkerSeen then Quiet(OpenSession(s, m, env.startOk), Opened)
    else if m.sequence != expected then OnLoss(s, m, Wrap32(m.sequence - expected))
    else
      var s' := s.(lastSequence := m.sequence, losses := 0);
      if s.synchronized && s.count > 0 then
        if BlockMatches(s, m) then OnGoodBlock(s', m, env) else OnBadBlock(s', env)
      else if !s.synchronized then Quiet(BlockOpened(s'.(synchronized := true)), Synchronized)
      else Quiet(BlockOpened(s'), Empty)
  }

  function CountPacket(s: Session, p: TsPacket): Session {
    if IsNull(p) then s.(count := s.count + 1, nulls := Wrap16(s.nulls + 1))
    else s.(count := s.count + 1, nonNull := Wrap16(s.nonNull + 1))
  }

  function BufferPacket(s: Session, p: TsPacket): Session {
    if s.circuit.Recovery? then CountPacket(s, p)
    else if s.count >= MAX_BLOCK_TS_PACKETS then s
    else CountPacket(s.(block := if s.circuit.Normal? then s.block + [p] else []), p)
  }

  // One packet of a received datagram.
  function OnPacket(s: Session, p: TsPacket, env: Env): Outcome
    requires s.failures.Valid()
  {
    if !HasSync(p) then Quiet(s, Ignored)
    else if IsMarker(p) then
      match Parse(p)
      case None => Quiet(s, Ignored)
      case Some(m) => OnMarker(s, m, env)
    else if s.circuit.Shutdown? || !s.firstMarkerSeen then Quiet(s, Ignored)
    else Quiet(BufferPacket(s, p), Buffered)
  }

  // ---- invariants of every run, whatever packets arrive ----

  ghost predicate Invariant(s: Session) {
    && s.failures.Valid()
    && (s.circuit.Normal? <==> s.senderLive)
    && (s.circuit.Normal? ==> s.count == |s.block| <= MAX_BLOCK_TS_PACKETS)
    && (s.circuit.Normal? && s.firstMarkerSeen ==> s.nonNull + s.nulls == s.count + 1)
    && (s.circuit.Normal? && !s.firstMarkerSeen ==> s.count == 0 && s.nonNull == 0 && s.nulls == 0)
    && (!s.circuit.Normal? ==> s.block == [])
    && (s.circuit.Recovery? ==> s.firstMarkerSeen)
    && (s.circuit.Shutdown? ==> !s.firstMarkerSeen && !s.synchronized)
    && s.losses < CONSECUTIVE_MARKER_LOSS_THRESHOLD
  }

  lemma InitialInvariant()
    ensures Invariant(INITIAL_SESSION)
  {
  }

  lemma ClearedValid()
    ensures CLEARED.Valid()
  {
  }

  lemma MarkerKeepsInvariant(s: Session, m: Marker, env: Env)
    requires Invariant(s)
    ensures var o := OnMarker(s, m, env);
      && Invariant(o.session)
      && (o.session.circuit.Normal? ==> s.circuit.Normal?)
      && (o.sent.Some? ==> s.circuit.Normal? && o.session.circuit.Normal? && s.senderLive && s.synchronized)
      && (o.restart ==> s.circuit.Recovery?)
  {
    hide Payloads, ThresholdReached, Record, CLEARED, Ring.Valid, Wrap16, Wrap32, Wrap64, BlockMatches;
    ClearedValid();
    RecordValid(s.failures, env.now);
  }

  lemma RecordValid(r: Ring, now: U64)
    requires r.Valid()
    ensures Record(r, now).Valid()
  {
  }

  lemma BufferKeepsInvariant(s: Session, p: TsPacket)
    requires Invariant(s) && s.firstMarkerSeen && !s.circuit.Shutdown?
    ensures Invariant(BufferPacket(s, p)) && BufferPacket(s, p).circuit == s.circuit
  {
    hide IsNull;
  }

  // Every packet keeps the invariant; once the circuit has left Normal it never returns there, and
  // a block is sent in Normal only.
  lemma PacketKeepsInvariant(s: Session, p: TsPacket, env: Env)
    requires Invariant(s)
    ensures var o := OnPacket(s, p, env);
      && Invariant(o.session)
      && (o.session.circuit.Normal? ==> s.circuit.Normal?)
      && (o.sent.Some? ==> s.circuit.Normal? && o.session.circuit.Normal? && s.senderLive && s.synchronized)
      && (o.restart ==> s.circuit.Recovery?)
  {
    hide Parse, IsMarker, HasSync, OnMarker, BufferPacket;
    if Parse(p).Some? { MarkerKeepsInvariant(s, Parse(p).value, env); }
    if !s.circuit.Shutdown? && s.firstMarkerSeen { BufferKeepsInvariant(s, p); }
  }

  // A packet that is not synchronised, or is on the marker PID without being a valid marker,
  // is as good as lost.
  predicate Unusable(p: TsPacket) {
    !HasSync(p) || (IsMarker(p) && Parse(p).None?)
  }

  lemma UnusableIsLost(s: Session, p: TsPacket, env: Env)
    requires s.failures.Valid() && Unusable(p)
    ensures OnPacket(s, p, env) == Quiet(s, Ignored)
  {
  }

  // ---- runs ----

  // A session and the blocks it has sent so far, oldest first.
  datatype Run = Run(session: Session, blocks: seq<seq<RtpPayload>>)

  function Receive(r: Run, p: TsPacket, env: Env): Run
    requires r.session.failures.Valid()
  {
    var o := OnPacket(r.session, p, env);
    Run(o.session, if o.sent.Some? then r.blocks + [o.sent.value] else r.blocks)
  }

  function ReceiveAll(r: Run, ps: seq<TsPacket>, envs: seq<Env>): (r': Run)
    requires Invariant(r.session) && |ps| == |envs|
    ensures Invariant(r'.session)
  {
    if ps == [] then r
    else
      var n := |ps| - 1;
      var before := ReceiveAll(r, ps[..n], envs[..n]);
      PacketKeepsInvariant(before.session, ps[n], envs[n]);
      Receive(before, ps[n], envs[n])
  }

  lemma {:induction false} ReceiveAllConcat(r: Run, ps: seq<TsPacket>, es: seq<Env>, qs: seq<TsPacket>, fs: seq<Env>)
    requires Invariant(r.session) && |ps| == |es| && |qs| == |fs|
    ensures ReceiveAll(r, ps + qs, es + fs) == ReceiveAll(ReceiveAll(r, ps, es), qs, fs)
  {
    hide Receive, Invariant;
    if qs == [] {
      assert ps + qs == ps && es + fs == es;
    } else {
      var n := |qs| - 1;
      assert (ps + qs)[..|ps| + n] == ps + qs[..n] && (es + fs)[..|ps| + n] == es + fs[..n];
      ReceiveAllConcat(r, ps, es, qs[..n], fs[..n]);
    }
  }

  // ---- the callback object itself ----

  // The field groups of the callback object.
  datatype BlockCounters = BlockCounters(tsCount: nat, nonNull: U16, nulls: U16)

  datatype MarkerTracking = MarkerTracking(
    firstMarkerSeen: bool,
    synchronized: bool,
    senderStarted: bool,
    rtpStart: U16,
    ssrc: U32,
    lastSequence: U32,
    savedSsrc: U32)

  datatype Breaker = Breaker(circuit: Circuit, senderLive: bool, losses: U32, trips: U32)

  datatype RecoveryTracking = RecoveryTracking(goodBlocks: U32, startTime: U64, lastRestartMessage: U64)

  const BLOCK_OPENED: BlockCounters := BlockCounters(0, 1, 0)

  class Callback {
    const blockBuffer: array<TsPacket>
    var counters: BlockCounters
    var tracking: MarkerTracking
    var breaker: Breaker
    const validationFailureTimestamps: array<U64>
    var validationFailureIndex: nat
    var recovery: RecoveryTracking

    ghost predicate Allocated() {
      && blockBuffer.Length == MAX_BLOCK_TS_PACKETS
      && validationFailureTimestamps.Length == VALIDATION_FAILURE_THRESHOLD
    }

    ghost predicate Valid()
      reads this, blockBuffer, validationFailureTimestamps
    {
      Allocated() && Invariant(View())
    }

    ghost function View(): Session
      reads this, blockBuffer, validationFailureTimestamps
    {
      var buffered := breaker.circuit.Normal? && counters.tsCount <= blockBuffer.Length;
      Assemble(
        if buffered then blockBuffer[..counters.tsCount] else [],
        counters, tracking, breaker, Ring(validationFailureTimestamps[..], validationFailureIndex), recovery)
    }

    static ghost function Assemble(block: seq<TsPacket>, c: BlockCounters, t: MarkerTracking, b: Breaker,
                                   failures: Ring, r: RecoveryTracking): Session {
      Session(b.circuit, b.senderLive, t.senderStarted, t.firstMarkerSeen, t.synchronized,
              block, c.tsCount, c.nonNull, c.nulls, t.lastSequence, t.rtpStart, t.ssrc, t.savedSsrc,
              b.losses, failures, b.trips, r.goodBlocks, r.startTime, r.lastRestartMessage)
    }

    constructor ()
      ensures Valid() && View() == INITIAL_SESSION
      ensures fresh(blockBuffer) && fresh(validationFailureTimestamps)
    {
      counters := BlockCounters(0, 0, 0);
      tracking := MarkerTracking(false, false, false, 0, 0, 0, 0);
      breaker := Breaker(Normal, true, 0, 0);
      validationFailureIndex := 0;
      recovery := RecoveryTracking(0, 0, 0);
      var zero: TsPacket := seq(TS_PACKET_SIZE, i => 0);
      blockBuffer := new TsPacket[MAX_BLOCK_TS_PACKETS](_ => zero);
      validationFailureTimestamps := new U64[VALIDATION_FAILURE_THRESHOLD](_ => 0);
      new;
      assert validationFailureTimestamps[..] == CLEARED.times;
    }

    method RecordValidationFailure(now: U64)
      requires Allocated() && validationFailureIndex < VALIDATION_FAILURE_THRESHOLD
      modifies this`validationFailureIndex, validationFailureTimestamps
      ensures View() == old(View()).(failures := Record(old(View()).failures, now))
    {
      validationFailureTimestamps[validationFailureIndex] := now;
      validationFailureIndex := (validationFailureIndex + 1) % VALIDATION_FAILURE_THRESHOLD;
    }

    method CheckValidationFailureThreshold(now: U64) returns (reached: bool)
      requires Allocated()
      ensures reached == ThresholdReached(View().failures, now)
    {
      var thresholdTime := Wrap64(now - VALIDATION_FAILURE_WINDOW_US);
      var count := 0;
      ghost var times := validationFailureTimestamps[..];
      for i := 0 to VALIDATION_FAILURE_THRESHOLD
        invariant count == CountFrom(times[..i], thresholdTime)
      {
        assert times[..i + 1][..i] == times[..i];
        if validationFailureTimestamps[i] >= thresholdTime {
          count := count + 1;
        }
      }
      assert times[..VALIDATION_FAILURE_THRESHOLD] == times;
      reached := count >= VALIDATION_FAILURE_THRESHOLD;
    }

    method ClearValidationFailures()
      requires Allocated()
      modifies this`validationFailureIndex, validationFailureTimestamps
      ensures View() == old(View()).(failures := CLEARED)
    {
      for i := 0 to VALIDATION_FAILURE_THRESHOLD
        invariant forall k :: 0 <= k < i ==> validationFailureTimestamps[k] == 0
      {
        validationFailureTimestamps[i] := 0;
      }
      validationFailureIndex := 0;
      assert validationFailureTimestamps[..] == CLEARED.times;
    }

    method TriggerCircuitBreaker()
      requires Allocated()
      modifies this, validationFailureTimestamps
      ensures View() == Trip(old(View()))
    {
      if breaker.senderLive {
        breaker := breaker.(senderLive := false);
      }
      tracking := tracking.(senderStarted := false, firstMarkerSeen := false, synchronized := false);
      counters := BlockCounters(0, 0, 0);
      breaker := breaker.(losses := 0, circuit := Shutdown, trips := Wrap32(breaker.trips + 1));
      assert View() == Trip(old(View())).(failures := old(View()).failures);
      ClearValidationFailures();
    }

    method SendBlockToRist(connected: bool) returns (sent: Option<seq<RtpPayload>>)
      requires Allocated() && breaker.circuit.Normal? && counters.tsCount <= MAX_BLOCK_TS_PACKETS
      requires counters.tsCount % TS_PACKETS_PER_RTP == 0
      ensures sent == if connected && counters.tsCount != 0
                      then Some(Payloads(View().block, tracking.rtpStart, tracking.ssrc)) else None
    {
      if !connected { return None; }
      var totalPackets := counters.tsCount;
      if totalPackets == 0 { return None; }
      var numRtpPayloads := totalPackets / TS_PACKETS_PER_RTP;
      var currentRtpSeq: U16 := tracking.rtpStart;
      var written: seq<RtpPayload> := [];
      ghost var block := blockBuffer[..totalPackets];
      for i := 0 to numRtpPayloads
        invariant Payloads(block, tracking.rtpStart, tracking.ssrc)
               == written + Payloads(block[7 * i..], currentRtpSeq, tracking.ssrc)
      {
        var payload := blockBuffer[i * TS_PACKETS_PER_RTP..(i + 1) * TS_PACKETS_PER_RTP];
        assert payload == block[7 * i..][..7] && block[7 * i..][7..] == block[7 * (i + 1)..];
        written := written + [RtpPayload(currentRtpSeq, tracking.ssrc, payload)];
        currentRtpSeq := Wrap16(currentRtpSeq + 1);
      }
      assert block[7 * numRtpPayloads..] == [];
      assert written == Payloads(block, tracking.rtpStart, tracking.ssrc);
      sent := Some(written);
    }

    method PrintRestartMessage(now: U64) returns (printed: bool)
      requires Allocated()
      modifies this`recovery
      ensures printed == (old(recovery).lastRestartMessage == 0
                          || Wrap64(now - old(recovery).lastRestartMessage) >= RESTART_MESSAGE_INTERVAL_US)
      ensures recovery == if printed then old(recovery).(lastRestartMessage := now) else old(recovery)
    {
      printed := recovery.lastRestartMessage == 0
                 || Wrap64(now - recovery.lastRestartMessage) >= RESTART_MESSAGE_INTERVAL_US;
      if printed {
        recovery := recovery.(lastRestartMessage := now);
      }
    }

    method HandleLoss(m: Marker, lost: U32) returns (verdict: Verdict)
      requires Valid()
      modifies this, validationFailureTimestamps
      ensures Quiet(View(), verdict) == OnLoss(old(View()), m, lost)
    {
      hide Trip;
      breaker := breaker.(losses := Wrap32(breaker.losses + lost));
      if breaker.losses >= CONSECUTIVE_MARKER_LOSS_THRESHOLD {
        assert View() == old(View()).(losses := breaker.losses);
        TriggerCircuitBreaker();
        return LossTrip;
      }
      if breaker.circuit.Recovery? {
        breaker := breaker.(circuit := Shutdown);
        tracking := tracking.(firstMarkerSeen := false, synchronized := false);
        return LossInRecovery;
      }
      tracking := tracking.(synchronized := false, lastSequence := m.sequence);
      counters := BLOCK_OPENED;
      verdict := Resynced;
    }

    method HandleFailedBlock(env: Env) returns (verdict: Verdict)
      requires Valid()
      modifies this, validationFailureTimestamps
      ensures Quiet(View(), verdict) == OnBadBlock(old(View()), env)
    {
      hide Trip, ThresholdReached, Record;
      assert View().failures.Valid();
      RecordValidationFailure(env.now);
      var reached := CheckValidationFailureThreshold(env.later);
      if reached {
        TriggerCircuitBreaker();
        return FailureTrip;
      }
      if breaker.circuit.Recovery? {
        breaker := breaker.(circuit := Shutdown);
        tracking := tracking.(firstMarkerSeen := false, synchronized := false);
        return FailureInRecovery;
      }
      counters := BLOCK_OPENED;
      verdict := Failed;
    }

    method HandleGoodBlock(m: Marker, env: Env) returns (sent: Option<seq<RtpPayload>>, restart: bool)
      requires Valid() && counters.tsCount % TS_PACKETS_PER_RTP == 0
      modifies this
      ensures Outcome(View(), sent, Validated, restart) == OnGoodBlock(old(View()), m, env)
    {
      hide Payloads;
      sent, restart := None, false;
      if breaker.circuit.Normal? {
        assert View().count <= MAX_BLOCK_TS_PACKETS;
        tracking := tracking.(rtpStart := m.rtpStart, ssrc := m.ssrc);
        sent := SendBlockToRist(env.connected);
      }
      if breaker.circuit.Recovery? {
        recovery := recovery.(goodBlocks := Wrap32(recovery.goodBlocks + 1));
        var elapsed := Wrap64(env.now - recovery.startTime);
        if recovery.goodBlocks >= RECOVERY_GOOD_BLOCKS_REQUIRED && elapsed >= RECOVERY_TIME_REQUIRED_US {
          restart := PrintRestartMessage(env.later);
        }
      }
      counters := BLOCK_OPENED;
    }

    method ProcessMarker(packet: TsPacket, env: Env)
      returns (sent: Option<seq<RtpPayload>>, verdict: Verdict, restart: bool)
      requires Valid() && IsMarker(packet)
      modifies this, validationFailureTimestamps
      ensures Valid()
      ensures Outcome(View(), sent, verdict, restart) == OnPacket(old(View()), packet, env)
    {
      hide Parse, IsMarker, HasSync;
      MarkerHasSync(packet);
      PacketKeepsInvariant(View(), packet, env);
      sent, restart := None, false;
      var parsed := Parse(packet);
      if parsed.None? { return None, Ignored, false; }
      var marker := parsed.value;
      verdict, sent, restart := ProcessFields(marker, env);
    }

    // The part of ProcessMarker after the CRC check.
    method ProcessFields(m: Marker, env: Env)
      returns (verdict: Verdict, sent: Option<seq<RtpPayload>>, restart: bool)
      requires Valid()
      modifies this, validationFailureTimestamps
      ensures Outcome(View(), sent, verdict, restart) == OnMarker(old(View()), m, env)
    {
      hide OnLoss, OnBadBlock, OnGoodBlock;
      sent, restart := None, false;
      if breaker.circuit.Shutdown? {
        breaker := breaker.(circuit := Recovery, losses := 0);
        recovery := RecoveryTracking(0, env.now, 0);
        tracking := tracking.(synchronized := false, firstMarkerSeen := true,
                              lastSequence := m.sequence, savedSsrc := m.ssrc);
        counters := BLOCK_OPENED;
        return RecoveryEntered, None, false;
      }
      if !tracking.firstMarkerSeen {
        tracking := tracking.(firstMarkerSeen := true, synchronized := false, ssrc := m.ssrc,
                              lastSequence := m.sequence, savedSsrc := m.ssrc,
                              senderStarted := tracking.senderStarted || (breaker.circuit.Normal? && env.startOk));
        counters := BLOCK_OPENED;
        return Opened, None, false;
      }
      var expected := Wrap32(tracking.lastSequence + 1);
      if m.sequence != expected {
        verdict := HandleLoss(m, Wrap32(m.sequence - expected));
        return;
      }
      var before := tracking.synchronized;
      tracking := tracking.(lastSequence := m.sequence);
      breaker := breaker.(losses := 0);
      if tracking.synchronized && counters.tsCount > 0 {
        var countsMatch := counters.nonNull == m.nonNull && counters.nulls == m.nulls;
        var aligned := counters.tsCount % TS_PACKETS_PER_RTP == 0;
        var bufferMatch := counters.tsCount + 1 == m.nonNull + m.nulls;
        if countsMatch && aligned && bufferMatch {
          sent, restart := HandleGoodBlock(m, env);
          return Validated, sent, restart;
        }
        verdict := HandleFailedBlock(env);
        return;
      }
      counters := BLOCK_OPENED;
      if !tracking.synchronized {
        tracking := tracking.(synchronized := true);
        return Synchronized, None, false;
      }
      verdict := Empty;
    }

    method BufferTsPacket(packet: TsPacket)
      requires Valid() && !breaker.circuit.Shutdown? && tracking.firstMarkerSeen
      modifies this`counters, blockBuffer
      ensures Valid() && View() == BufferPacket(old(View()), packet)
    {
      hide IsNull;
      BufferKeepsInvariant(View(), packet);
      if !breaker.circuit.Recovery? {
        if counters.tsCount >= MAX_BLOCK_TS_PACKETS { return; }
        blockBuffer[counters.tsCount] := packet;
        assert blockBuffer[..counters.tsCount + 1] == old(blockBuffer[..counters.tsCount]) + [packet];
      }
      if IsNull(packet) {
        counters := counters.(tsCount := counters.tsCount + 1, nulls := Wrap16(counters.nulls + 1));
      } else {
        counters := counters.(tsCount := counters.tsCount + 1, nonNull := Wrap16(counters.nonNull + 1));
      }
    }
  }

  // The packet loop over one received datagram; envs holds the environment at each packet.
  method InputUdpRecv(cb: Callback, recvBuf: seq<Byte>, envs: seq<Env>) returns (blocks: seq<seq<RtpPayload>>)
    requires cb.Valid() && |envs| == |recvBuf| / TS_PACKET_SIZE
    modifies cb, cb.blockBuffer, cb.validationFailureTimestamps
    ensures cb.Valid()
    ensures Run(cb.View(), blocks) == ReceiveAll(Run(old(cb.View()), []), Packets(recvBuf), envs)
  {
    hide OnMarker, IsMarker, HasSync, Parse, BufferPacket, Invariant;
    blocks := [];
    var offset, i := 0, 0;
    ghost var start, packets := Run(cb.View(), []), Packets(recvBuf);
    while offset + TS_PACKET_SIZE <= |recvBuf|
      invariant offset == i * TS_PACKET_SIZE && i <= |packets|
      invariant cb.Valid()
      invariant Run(cb.View(), blocks) == ReceiveAll(start, packets[..i], envs[..i])
    {
      var packet: TsPacket := recvBuf[offset..offset + TS_PACKET_SIZE];
      PacketsAt(recvBuf, i);
      assert packets[..i + 1][..i] == packets[..i] && envs[..i + 1][..i] == envs[..i];
      ghost var before := cb.View();
      if !HasSync(packet) {
        offset, i := offset + TS_PACKET_SIZE, i + 1;
        continue;
      }
      if IsMarker(packet) {
        var sent, verdict, restart := cb.ProcessMarker(packet, envs[i]);
        if sent.Some? { blocks := blocks + [sent.value]; }
      } else {
        if cb.breaker.circuit.Shutdown? {
          offset, i := offset + TS_PACKET_SIZE, i + 1;
          continue;
        }
        if cb.tracking.firstMarkerSeen {
          cb.BufferTsPacket(packet);
        }
      }
      offset, i := offset + TS_PACKET_SIZE, i + 1;
    }
    assert packets[..i] == packets && envs[..i] == envs;
  }

  lemma MarkerHasSync(p: TsPacket)
    requires IsMarker(p)
    ensures HasSync(p)
  {
  }
}
