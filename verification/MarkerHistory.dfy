// The sender's decisions in terms of the packets received: which block a marker closes, whether it is good, and what
// that does to the circuit, without looking at the session.
module MarkerHistory {
  import opened Bytes
  import opened TransportStream
  import opened MarkerCodec
  import opened FailureWindow
  import opened MarkerMultiplexer
  import opened MarkerWire
  import opened MarkerSession
  import opened MarkerRuns

  // ---- what a stretch of packets says ----

  predicate ValidMarker(p: TsPacket) { IsMarker(p) && Parse(p).Some? }

  function MarkerOf(p: TsPacket): Marker
    requires ValidMarker(p)
  {
    Parse(p).value
  }

  // The last valid marker.
  function LastMarker(w: seq<TsPacket>): Option<Marker> {
    if w == [] then None
    else if ValidMarker(w[|w| - 1]) then Some(MarkerOf(w[|w| - 1]))
    else LastMarker(w[..|w| - 1])
  }

  // The source packets since the last valid marker.
  function Since(w: seq<TsPacket>): seq<TsPacket> {
    if w == [] || ValidMarker(w[|w| - 1]) then []
    else if SourcePacket(w[|w| - 1]) && LastMarker(w).Some? then Since(w[..|w| - 1]) + [w[|w| - 1]]
    else Since(w[..|w| - 1])
  }

  // Marker p is the one after the last.
  predicate InSequence(w: seq<TsPacket>, p: TsPacket) {
    && ValidMarker(p) && LastMarker(w).Some?
    && MarkerOf(p).sequence == Wrap32(LastMarker(w).value.sequence + 1)
  }

  // Marker p shows that others are missing,
  predicate Gap(w: seq<TsPacket>, p: TsPacket) { ValidMarker(p) && LastMarker(w).Some? && !InSequence(w, p) }

  // this many.
  function Lost(w: seq<TsPacket>, p: TsPacket): U32
    requires Gap(w, p)
  {
    Wrap32(MarkerOf(p).sequence - LastMarker(w).value.sequence - 1)
  }

  // The last marker came in sequence.
  predicate Synced(w: seq<TsPacket>) {
    w != [] &&
    if ValidMarker(w[|w| - 1]) then InSequence(w[..|w| - 1], w[|w| - 1]) else Synced(w[..|w| - 1])
  }

  // The markers missing since one last came in sequence, or since the first.
  function Missing(w: seq<TsPacket>): U32 {
    if w == [] then 0
    else
      var before, p := w[..|w| - 1], w[|w| - 1];
      if Gap(before, p) then Wrap32(Missing(before) + Lost(before, p))
      else if ValidMarker(p) then 0
      else Missing(before)
  }

  // Marker p closes a block that has packets and both of whose ends can be trusted.
  predicate Closes(w: seq<TsPacket>, p: TsPacket) { InSequence(w, p) && Synced(w) && Since(w) != [] }

  // The marker counts the block exactly, itself included, and the block is whole groups of seven.
  predicate Counts(m: Marker, block: seq<TsPacket>) {
    m.nonNull == 1 + NonNullCount(block) && m.nulls == NullCount(block) && |block| % TS_PACKETS_PER_RTP == 0
  }

  // The Normal circuit keeps a block in a buffer, the Recovery circuit only counts it.
  predicate Good(w: seq<TsPacket>, p: TsPacket, buffered: bool) {
    Closes(w, p) && Counts(MarkerOf(p), Since(w)) && (buffered ==> |Since(w)| <= MAX_BLOCK_TS_PACKETS)
  }

  predicate Bad(w: seq<TsPacket>, p: TsPacket, buffered: bool) { Closes(w, p) && !Good(w, p, buffered) }

  // ---- a session that has seen such a stretch ----

  // The packets counted.
  function Counted(w: seq<TsPacket>, buffered: bool): (c: seq<TsPacket>)
    ensures |c| <= |Since(w)|
  {
    if buffered && |Since(w)| > MAX_BLOCK_TS_PACKETS then Since(w)[..MAX_BLOCK_TS_PACKETS] else Since(w)
  }

  // The counters stand at these packets, and at one more for the marker before them.
  ghost predicate Holds(s: Session, c: seq<TsPacket>) {
    && s.count == |c| && (s.circuit.Normal? ==> s.block == c)
    && (s.firstMarkerSeen ==> s.nonNull == Wrap16(1 + NonNullCount(c)) && s.nulls == Wrap16(NullCount(c)))
  }

  ghost predicate Tracks(s: Session, w: seq<TsPacket>) {
    && !s.circuit.Shutdown? && s.firstMarkerSeen == LastMarker(w).Some? && s.synchronized == Synced(w)
    && s.losses == Missing(w) && Holds(s, Counted(w, s.circuit.Normal?))
    && (s.firstMarkerSeen ==> s.lastSequence == LastMarker(w).value.sequence)
  }

  lemma SnocParts(w: seq<TsPacket>, p: TsPacket)
    ensures (w + [p])[..|w|] == w && (w + [p])[|w|] == p
  {
  }

  // A packet that is no valid marker changes at most the open block.
  lemma PlainSnoc(w: seq<TsPacket>, p: TsPacket)
    requires !ValidMarker(p)
    ensures LastMarker(w + [p]) == LastMarker(w) && Synced(w + [p]) == Synced(w) && Missing(w + [p]) == Missing(w)
    ensures Since(w + [p]) == Since(w) + if SourcePacket(p) && LastMarker(w).Some? then [p] else []
  {
    hide ValidMarker, SourcePacket;
    SnocParts(w, p);
  }

  // A packet that is neither a valid marker nor a source packet leaves no trace.
  lemma UselessTracked(s: Session, w: seq<TsPacket>, p: TsPacket)
    requires Tracks(s, w) && !ValidMarker(p) && !SourcePacket(p)
    ensures Tracks(s, w + [p])
  {
    hide ValidMarker, SourcePacket, LastMarker, Since, Missing, Synced, Holds;
    PlainSnoc(w, p);
    assert Since(w) + [] == Since(w);
  }

  lemma SourceIsNoMarker(p: TsPacket)
    requires SourcePacket(p)
    ensures !ValidMarker(p)
  {
  }

  // One more packet of the open block: counted and kept, while there is room for it.
  lemma CountedSnoc(w: seq<TsPacket>, p: TsPacket, buffered: bool)
    requires SourcePacket(p) && LastMarker(w).Some?
    ensures var c := Counted(w, buffered);
      Counted(w + [p], buffered) == if buffered && |c| >= MAX_BLOCK_TS_PACKETS then c else c + [p]
  {
    hide ValidMarker, SourcePacket, LastMarker, Since, Missing, Synced;
    SourceIsNoMarker(p);
    PlainSnoc(w, p);
  }

  lemma CountsSnoc(c: seq<TsPacket>, p: TsPacket)
    requires SourcePacket(p)
    ensures NullCount(c + [p]) == NullCount(c) + if IsNull(p) then 1 else 0
    ensures NonNullCount(c + [p]) == NonNullCount(c) + if IsNull(p) then 0 else 1
  {
    hide IsNull;
    SnocParts(c, p);
  }

  lemma WrapNext(n: nat)
    ensures Wrap16(Wrap16(n) + 1) == Wrap16(n + 1)
  {
  }

  lemma BufferHolds(s: Session, c: seq<TsPacket>, p: TsPacket)
    requires Holds(s, c) && s.firstMarkerSeen && !s.circuit.Shutdown? && SourcePacket(p)
    ensures Holds(BufferPacket(s, p), if s.circuit.Normal? && |c| >= MAX_BLOCK_TS_PACKETS then c else c + [p])
  {
    hide IsNull, SourcePacket, NullCount, NonNullCount, Wrap16;
    CountsSnoc(c, p);
    WrapNext(NullCount(c));
    WrapNext(1 + NonNullCount(c));
  }

  lemma BufferKeeps(s: Session, p: TsPacket)
    ensures var t := BufferPacket(s, p);
      t == s.(block := t.block, count := t.count, nonNull := t.nonNull, nulls := t.nulls)
  {
    hide IsNull;
  }

  lemma SourceTracked(s: Session, w: seq<TsPacket>, p: TsPacket)
    requires Tracks(s, w) && SourcePacket(p)
    ensures Tracks(if s.firstMarkerSeen then BufferPacket(s, p) else s, w + [p])
  {
    hide IsNull, SourcePacket, ValidMarker, LastMarker, Since, Missing, Synced, Counted, Holds, BufferPacket;
    SourceIsNoMarker(p);
    PlainSnoc(w, p);
    if s.firstMarkerSeen {
      CountedSnoc(w, p, s.circuit.Normal?);
      BufferHolds(s, Counted(w, s.circuit.Normal?), p);
      BufferKeeps(s, p);
    } else {
      NothingOpen(w, p, s.circuit.Normal?);
    }
  }

  lemma NothingOpen(w: seq<TsPacket>, p: TsPacket, buffered: bool)
    requires LastMarker(w).None? && !ValidMarker(p)
    ensures Counted(w + [p], buffered) == Counted(w, buffered)
  {
    hide ValidMarker, SourcePacket, LastMarker, Missing, Synced;
    PlainSnoc(w, p);
    assert Since(w) + [] == Since(w);
  }

  // ---- a valid marker arrives ----

  lemma MarkerSnoc(w: seq<TsPacket>, p: TsPacket)
    requires ValidMarker(p)
    ensures LastMarker(w + [p]) == Some(MarkerOf(p)) && Synced(w + [p]) == InSequence(w, p) && Since(w + [p]) == []
    ensures Missing(w + [p]) == if Gap(w, p) then Wrap32(Missing(w) + Lost(w, p)) else 0
  {
    hide ValidMarker, SourcePacket, InSequence;
    SnocParts(w, p);
  }

  // The counters agree with the marker exactly when it counts the packets right.
  lemma MatchesIsCounts(s: Session, c: seq<TsPacket>, m: Marker)
    requires Holds(s, c) && s.firstMarkerSeen && NullCount(c) + NonNullCount(c) == |c|
    ensures BlockMatches(s, m) == Counts(m, c)
  {
    hide NullCount, NonNullCount;
  }

  lemma {:induction false} SinceIsSource(w: seq<TsPacket>)
    ensures forall i :: 0 <= i < |Since(w)| ==> SourcePacket(Since(w)[i])
  {
    hide SourcePacket, ValidMarker, LastMarker;
    if w != [] { SinceIsSource(w[..|w| - 1]); }
  }

  lemma {:induction false} SourceCounts(c: seq<TsPacket>)
    requires forall i :: 0 <= i < |c| ==> SourcePacket(c[i])
    ensures NullCount(c) + NonNullCount(c) == |c|
  {
    hide IsNull;
    if c != [] { SourceCounts(c[..|c| - 1]); }
  }

  // The session finds a block good exactly when it is.
  lemma MatchesIsGood(s: Session, w: seq<TsPacket>, p: TsPacket)
    requires Tracks(s, w) && Closes(w, p)
    ensures BlockMatches(s, MarkerOf(p)) == Good(w, p, s.circuit.Normal?)
  {
    hide ValidMarker, SourcePacket, LastMarker, Synced, Missing, Since, BlockMatches;
    var c := Counted(w, s.circuit.Normal?);
    SinceIsSource(w);
    SourceCounts(c);
    MatchesIsCounts(s, c, MarkerOf(p));
  }

  // What a packet does to a session that is not shut down, told by the packets alone.
  ghost predicate Step(s: Session, w: seq<TsPacket>, p: TsPacket, env: Env, o: Outcome) {
    var normal := s.circuit.Normal?;
    var lossTrip := Gap(w, p) && Missing(w + [p]) >= CONSECUTIVE_MARKER_LOSS_THRESHOLD;
    && (o.verdict.Validated? <==> Good(w, p, normal))
    && (FailedNow(o.verdict) <==> Bad(w, p, normal))
    && (o.verdict.LossTrip? <==> lossTrip)
    && !o.verdict.RecoveryEntered?
    && o.sent == (if normal && Good(w, p, normal) && env.connected
                  then Some(Payloads(Since(w), MarkerOf(p).rtpStart, MarkerOf(p).ssrc)) else None)
    && (o.session.circuit.Shutdown? <==>
          lossTrip || o.verdict.FailureTrip? || (!normal && (Gap(w, p) || Bad(w, p, normal))))
    && (!o.session.circuit.Shutdown? ==> o.session.circuit == s.circuit && Tracks(o.session, w + [p]))
  }

  // What it does to the counters of Recovery.
  ghost predicate Progress(s: Session, w: seq<TsPacket>, p: TsPacket, env: Env, o: Outcome) {
    var t := o.session;
    var good := Good(w, p, false);
    && (o.restart <==>
          && s.circuit.Recovery? && good && Wrap32(s.goodBlocks + 1) >= RECOVERY_GOOD_BLOCKS_REQUIRED
          && Wrap64(env.now - s.recoveryStart) >= RECOVERY_TIME_REQUIRED_US
          && (s.lastRestart == 0 || Wrap64(env.later - s.lastRestart) >= RESTART_MESSAGE_INTERVAL_US))
    && (s.circuit.Recovery? && t.circuit.Recovery? ==>
          && t.goodBlocks == (if good then Wrap32(s.goodBlocks + 1) else s.goodBlocks)
          && t.recoveryStart == s.recoveryStart && t.lastRestart == (if o.restart then env.later else s.lastRestart))
  }

  lemma MarkerIs(s: Session, p: TsPacket, env: Env)
    requires s.failures.Valid() && ValidMarker(p)
    ensures OnPacket(s, p, env) == OnMarker(s, MarkerOf(p), env)
  {
    hide OnMarker, Parse;
    MarkerHasSync(p);
  }

  // Where the session turns, in terms of its fields and of the packets.
  lemma Turns(s: Session, w: seq<TsPacket>, p: TsPacket)
    requires Tracks(s, w) && ValidMarker(p)
    ensures s.firstMarkerSeen == LastMarker(w).Some?
    ensures s.firstMarkerSeen ==>
      && InSequence(w, p) == (MarkerOf(p).sequence == Wrap32(s.lastSequence + 1))
      && (Gap(w, p) ==> Lost(w, p) == Wrap32(MarkerOf(p).sequence - Wrap32(s.lastSequence + 1)))
      && Closes(w, p) == (InSequence(w, p) && s.synchronized && s.count > 0)
  {
    hide Parse, LastMarker, SourcePacket, Synced, Since, NullCount, NonNullCount;
  }

  // A block has just been opened.
  lemma OpenedTracks(t: Session, w: seq<TsPacket>, p: TsPacket)
    requires ValidMarker(p) && !t.circuit.Shutdown? && t.firstMarkerSeen && t.block == [] && t.count == 0
    requires t.nonNull == 1 && t.nulls == 0 && t.lastSequence == MarkerOf(p).sequence
    requires t.synchronized == InSequence(w, p)
    requires t.losses == if Gap(w, p) then Wrap32(Missing(w) + Lost(w, p)) else 0
    ensures Tracks(t, w + [p])
  {
    hide ValidMarker, LastMarker, Synced, Missing, Since, InSequence, Gap, Lost;
    MarkerSnoc(w, p);
  }

  lemma {:induction false} NothingMissing(w: seq<TsPacket>)
    requires LastMarker(w).None?
    ensures Missing(w) == 0 && Since(w) == []
  {
    hide ValidMarker, SourcePacket;
    if w != [] { NothingMissing(w[..|w| - 1]); }
  }

  lemma FirstStep(s: Session, w: seq<TsPacket>, p: TsPacket, env: Env)
    requires Invariant(s) && Tracks(s, w) && ValidMarker(p) && LastMarker(w).None?
    ensures Step(s, w, p, env, OnPacket(s, p, env))
  {
    hide ValidMarker, SourcePacket, LastMarker, Synced, Missing, Since, BlockMatches, Payloads, Wrap32, Wrap64, OnLoss,
      OnGoodBlock, OnBadBlock, OnPacket, Counts, Holds, Counted, ThresholdReached, Record;
    MarkerIs(s, p, env);
    NothingMissing(w);
    MarkerSnoc(w, p);
    OpenedTracks(OnMarker(s, MarkerOf(p), env).session, w, p);
  }

  lemma GapStep(s: Session, w: seq<TsPacket>, p: TsPacket, env: Env)
    requires Invariant(s) && Tracks(s, w) && Gap(w, p)
    ensures Step(s, w, p, env, OnPacket(s, p, env))
  {
    hide ValidMarker, SourcePacket, LastMarker, Synced, Missing, Since, BlockMatches, Payloads, Wrap32, Wrap64,
      OnGoodBlock, OnBadBlock, OnPacket, Counts, Holds, Counted, ThresholdReached, Record;
    MarkerIs(s, p, env);
    Turns(s, w, p);
    MarkerSnoc(w, p);
    var t := OnMarker(s, MarkerOf(p), env).session;
    if !t.circuit.Shutdown? { OpenedTracks(t, w, p); }
  }

  lemma IdleStep(s: Session, w: seq<TsPacket>, p: TsPacket, env: Env)
    requires Invariant(s) && Tracks(s, w) && InSequence(w, p) && !Closes(w, p)
    ensures Step(s, w, p, env, OnPacket(s, p, env))
  {
    hide ValidMarker, SourcePacket, LastMarker, Synced, Missing, Since, BlockMatches, Payloads, Wrap32, Wrap64, OnLoss,
      OnGoodBlock, OnBadBlock, OnPacket, Counts, Holds, Counted, ThresholdReached, Record;
    MarkerIs(s, p, env);
    Turns(s, w, p);
    MarkerSnoc(w, p);
    OpenedTracks(OnMarker(s, MarkerOf(p), env).session, w, p);
  }

  lemma GoodStep(s: Session, w: seq<TsPacket>, p: TsPacket, env: Env)
    requires Invariant(s) && Tracks(s, w) && Good(w, p, s.circuit.Normal?)
    ensures Step(s, w, p, env, OnPacket(s, p, env))
  {
    hide ValidMarker, SourcePacket, LastMarker, Synced, Missing, Since, BlockMatches, Payloads, Wrap32, Wrap64, OnLoss,
      OnBadBlock, OnPacket, Counts, ThresholdReached, Record;
    MarkerIs(s, p, env);
    Turns(s, w, p);
    MatchesIsGood(s, w, p);
    MarkerSnoc(w, p);
    OpenedTracks(OnMarker(s, MarkerOf(p), env).session, w, p);
  }

  lemma BadStep(s: Session, w: seq<TsPacket>, p: TsPacket, env: Env)
    requires Invariant(s) && Tracks(s, w) && Bad(w, p, s.circuit.Normal?)
    ensures Step(s, w, p, env, OnPacket(s, p, env))
  {
    hide ValidMarker, SourcePacket, LastMarker, Synced, Missing, Since, BlockMatches, Payloads, Wrap32, Wrap64, OnLoss,
      OnGoodBlock, OnPacket, Counts, ThresholdReached, Record;
    MarkerIs(s, p, env);
    Turns(s, w, p);
    MatchesIsGood(s, w, p);
    MarkerSnoc(w, p);
    var t := OnMarker(s, MarkerOf(p), env).session;
    if !t.circuit.Shutdown? { OpenedTracks(t, w, p); }
  }

  lemma NoMarkerStep(s: Session, w: seq<TsPacket>, p: TsPacket, env: Env)
    requires Invariant(s) && Tracks(s, w) && !ValidMarker(p)
    ensures Step(s, w, p, env, OnPacket(s, p, env)) && Progress(s, w, p, env, OnPacket(s, p, env))
  {
    hide LastMarker, Synced, Missing, Since, Payloads, Parse, Counts, Holds, Counted, IsNull, BufferPacket;
    PlainSnoc(w, p);
    BufferKeeps(s, p);
    if SourcePacket(p) { SourceTracked(s, w, p); } else { UselessTracked(s, w, p); }
  }

  // The counters of Recovery follow the good blocks.
  lemma ProgressStep(s: Session, w: seq<TsPacket>, p: TsPacket, env: Env)
    requires Invariant(s) && Tracks(s, w) && ValidMarker(p)
    ensures Progress(s, w, p, env, OnPacket(s, p, env))
  {
    hide ValidMarker, SourcePacket, LastMarker, Synced, Missing, Since, BlockMatches, Payloads, Wrap32, Wrap64,
      OnPacket, Counts, Holds, Counted, ThresholdReached, Record, Tracks;
    MarkerIs(s, p, env);
    Turns(s, w, p);
    if Closes(w, p) { MatchesIsGood(s, w, p); }
  }

  lemma PacketStep(s: Session, w: seq<TsPacket>, p: TsPacket, env: Env)
    requires Invariant(s) && Tracks(s, w)
    ensures Step(s, w, p, env, OnPacket(s, p, env)) && Progress(s, w, p, env, OnPacket(s, p, env))
  {
    hide OnPacket, Step, Progress, ValidMarker, Invariant, Tracks, Counts, Since, LastMarker, Synced, Missing;
    if !ValidMarker(p) {
      NoMarkerStep(s, w, p, env);
    } else {
      ProgressStep(s, w, p, env);
      if LastMarker(w).None? { FirstStep(s, w, p, env); }
      else if Gap(w, p) { GapStep(s, w, p, env); }
      else if !Closes(w, p) { IdleStep(s, w, p, env); }
      else if Good(w, p, s.circuit.Normal?) { GoodStep(s, w, p, env); }
      else { BadStep(s, w, p, env); }
    }
  }

  // ---- runs in the Normal circuit ----

  lemma StartTracks()
    ensures Tracks(INITIAL_SESSION, [])
  {
  }

  // Until the circuit first trips the session is what the packets received so far say.
  lemma {:induction false} NormalTracked(ps: seq<TsPacket>, envs: seq<Env>)
    requires |ps| == |envs| && After(ps, envs).circuit.Normal?
    ensures Tracks(After(ps, envs), ps)
  {
    hide Invariant, Tracks, OnPacket, Good, Bad, Gap, INITIAL_SESSION;
    if ps == [] {
      StartTracks();
    } else {
      var n := |ps| - 1;
      PacketKeepsInvariant(After(ps[..n], envs[..n]), ps[n], envs[n]);
      NormalTracked(ps[..n], envs[..n]);
      PacketStep(After(ps[..n], envs[..n]), ps[..n], ps[n], envs[n]);
      assert ps == ps[..n] + [ps[n]];
    }
  }

  // What a packet does in the Normal circuit. It sends exactly if it is a marker that closes a good block and a peer
  // is connected, and then that block. It trips the circuit exactly if it shows that ten or more markers are missing,
  // or closes a bad block whose time reaches the threshold on the failure times.
  lemma NormalDecides(ps: seq<TsPacket>, envs: seq<Env>)
    requires |ps| == |envs| > 0 && After(ps[..|ps| - 1], envs[..|ps| - 1]).circuit.Normal?
    ensures
      var n := |ps| - 1;
      var w, p, o := ps[..n], ps[n], LastOutcome(ps, envs);
      && o.sent == (if Good(w, p, true) && envs[n].connected
                    then Some(Payloads(Since(w), MarkerOf(p).rtpStart, MarkerOf(p).ssrc)) else None)
      && o.session.circuit == (
           if (Gap(w, p) && Missing(ps) >= CONSECUTIVE_MARKER_LOSS_THRESHOLD)
              || (Bad(w, p, true) && ThresholdReached(Record(After(w, envs[..n]).failures, envs[n].now), envs[n].later))
           then Shutdown else Normal)
      && (FailedNow(o.verdict) <==> Bad(w, p, true))
  {
    hide Invariant, Tracks, OnPacket, Good, Bad, Gap, ThresholdReached, Record, Payloads, After;
    var n := |ps| - 1;
    var s := After(ps[..n], envs[..n]);
    NormalTracked(ps[..n], envs[..n]);
    PacketStep(s, ps[..n], ps[n], envs[n]);
    FailureStep(s, ps[n], envs[n]);
    assert ps == ps[..n] + [ps[n]];
  }

  // ---- runs after a trip ----

  // Recovery was entered with packet e and has lasted since.
  ghost predicate Entered(ps: seq<TsPacket>, envs: seq<Env>, e: nat)
    requires |ps| == |envs|
  {
    && e < |ps| && After(ps[..e], envs[..e]).circuit.Shutdown? && ValidMarker(ps[e])
    && forall k :: e < k <= |ps| ==> InRecovery(ps, envs, k)
  }

  ghost predicate InRecovery(ps: seq<TsPacket>, envs: seq<Env>, k: nat)
    requires |ps| == |envs| && k <= |ps|
  {
    After(ps[..k], envs[..k]).circuit.Recovery?
  }

  // The session as a marker that ends a shutdown leaves it.
  predicate JustEntered(t: Session, m: Marker, env: Env) {
    && t.circuit.Recovery? && t.firstMarkerSeen && !t.synchronized && t.lastSequence == m.sequence
    && t.count == 0 && t.nonNull == 1 && t.nulls == 0 && t.losses == 0
    && t.goodBlocks == 0 && t.recoveryStart == env.now && t.lastRestart == 0
  }

  lemma ShutdownStep(s: Session, p: TsPacket, env: Env)
    requires Invariant(s) && s.circuit.Shutdown?
    ensures var o := OnPacket(s, p, env);
      && o.sent.None? && !o.restart
      && if ValidMarker(p) then JustEntered(o.session, MarkerOf(p), env) else o.session == s
  {
    hide Parse;
  }

  // A tripped circuit stays as it is until the first valid marker, and that puts it in Recovery.
  lemma {:induction false} FirstMarkerRecovers(ps: seq<TsPacket>, envs: seq<Env>, k: nat)
    requires |ps| == |envs| && k <= |ps| && After(ps[..k], envs[..k]).circuit.Shutdown?
    requires forall i :: k <= i < |ps| - 1 ==> !ValidMarker(ps[i])
    ensures
      if k < |ps| && ValidMarker(ps[|ps| - 1])
      then JustEntered(After(ps, envs), MarkerOf(ps[|ps| - 1]), envs[|ps| - 1])
      else After(ps, envs) == After(ps[..k], envs[..k])
  {
    hide OnPacket, Invariant, ValidMarker, JustEntered;
    if k == |ps| {
      assert ps[..k] == ps && envs[..k] == envs;
    } else {
      var n := |ps| - 1;
      assert ps[..n][..k] == ps[..k] && envs[..n][..k] == envs[..k];
      FirstMarkerRecovers(ps[..n], envs[..n], k);
      ShutdownStep(After(ps[..n], envs[..n]), ps[n], envs[n]);
    }
  }

  // The good blocks closed by the packets of w.
  function GoodCount(w: seq<TsPacket>): (n: nat)
    ensures n <= |w|
  {
    if w == [] then 0
    else GoodCount(w[..|w| - 1]) + if Good(w[..|w| - 1], w[|w| - 1], false) then 1 else 0
  }

  lemma OnlyMarker(p: TsPacket)
    requires ValidMarker(p)
    ensures LastMarker([p]) == Some(MarkerOf(p)) && !Synced([p]) && Since([p]) == [] && Missing([p]) == 0
    ensures GoodCount([p]) == 0
  {
    hide ValidMarker;
    assert [p] == [] + [p];
    MarkerSnoc([], p);
    assert [p][..0] == [];
  }

  lemma EntryTracks(t: Session, p: TsPacket, env: Env)
    requires ValidMarker(p) && JustEntered(t, MarkerOf(p), env)
    ensures Tracks(t, [p])
  {
    hide ValidMarker, LastMarker, Synced, Missing, Since;
    OnlyMarker(p);
  }

  lemma EnteredEarlier(ps: seq<TsPacket>, envs: seq<Env>, e: nat)
    requires |ps| == |envs| && Entered(ps, envs, e) && e + 1 < |ps|
    ensures Entered(ps[..|ps| - 1], envs[..|ps| - 1], e)
  {
    hide After, ValidMarker;
    var n := |ps| - 1;
    assert ps[..n][..e] == ps[..e] && envs[..n][..e] == envs[..e];
    forall k | e < k <= n
      ensures InRecovery(ps[..n], envs[..n], k)
    {
      assert InRecovery(ps, envs, k) && ps[..n][..k] == ps[..k] && envs[..n][..k] == envs[..k];
    }
  }

  lemma NowInRecovery(ps: seq<TsPacket>, envs: seq<Env>, e: nat)
    requires |ps| == |envs| && Entered(ps, envs, e)
    ensures After(ps, envs).circuit.Recovery?
  {
    assert InRecovery(ps, envs, |ps|) && ps[..|ps|] == ps && envs[..|ps|] == envs;
  }

  // While it lasts, the session is what the packets from the entry on say, and counts the good blocks among them.
  lemma {:induction false} RecoveryTracked(ps: seq<TsPacket>, envs: seq<Env>, e: nat)
    requires |ps| == |envs| && Entered(ps, envs, e)
    ensures var s := After(ps, envs);
      && Tracks(s, ps[e..]) && s.goodBlocks == Wrap32(GoodCount(ps[e..])) && s.recoveryStart == envs[e].now
  {
    hide Invariant, Tracks, OnPacket, Good, Bad, Gap, ValidMarker, Entered, After, GoodCount, JustEntered, Wrap32;
    var n := |ps| - 1;
    EntryBefore(ps, envs, e);
    NowInRecovery(ps, envs, e);
    if e == n {
      EnteredHere(ps, envs);
      assert ps[e..] == [ps[e]];
      TrackedFromEntry(After(ps, envs), ps[e], envs[e]);
    } else {
      EnteredEarlier(ps, envs, e);
      RecoveryTracked(ps[..n], envs[..n], e);
      NowInRecovery(ps[..n], envs[..n], e);
      LastIs(ps, envs);
      StretchSnoc(ps, e);
      TrackedOn(After(ps[..n], envs[..n]), ps[e..n], ps[n], envs[n]);
    }
  }

  lemma TrackedFromEntry(t: Session, p: TsPacket, env: Env)
    requires ValidMarker(p) && JustEntered(t, MarkerOf(p), env)
    ensures Tracks(t, [p]) && t.goodBlocks == Wrap32(GoodCount([p])) && t.recoveryStart == env.now
  {
    hide ValidMarker, Tracks;
    EntryTracks(t, p, env);
    OnlyMarker(p);
  }

  lemma TrackedOn(s: Session, w: seq<TsPacket>, p: TsPacket, env: Env)
    requires Invariant(s) && Tracks(s, w) && s.circuit.Recovery? && s.goodBlocks == Wrap32(GoodCount(w))
    requires OnPacket(s, p, env).session.circuit.Recovery?
    ensures var t := OnPacket(s, p, env).session;
      Tracks(t, w + [p]) && t.goodBlocks == Wrap32(GoodCount(w + [p])) && t.recoveryStart == s.recoveryStart
  {
    hide Invariant, Tracks, OnPacket, Good, Bad, Gap, Wrap32;
    PacketStep(s, w, p, env);
    SnocParts(w, p);
    WrapsNext(GoodCount(w));
  }

  lemma WrapsNext(n: nat)
    ensures Wrap32(Wrap32(n) + 1) == Wrap32(n + 1)
  {
  }

  lemma StretchSnoc(ps: seq<TsPacket>, e: nat)
    requires e < |ps| - 1
    ensures ps[..|ps| - 1][e..] == ps[e..|ps| - 1] && ps[e..] == ps[e..|ps| - 1] + [ps[|ps| - 1]]
  {
  }

  lemma EntryBefore(ps: seq<TsPacket>, envs: seq<Env>, e: nat)
    requires |ps| == |envs| && Entered(ps, envs, e)
    ensures e < |ps| && ValidMarker(ps[e])
  {
  }

  lemma EnteredHere(ps: seq<TsPacket>, envs: seq<Env>)
    requires |ps| == |envs| > 0 && Entered(ps, envs, |ps| - 1)
    ensures ValidMarker(ps[|ps| - 1]) && JustEntered(After(ps, envs), MarkerOf(ps[|ps| - 1]), envs[|ps| - 1])
  {
    hide OnPacket, Invariant, ValidMarker, JustEntered, InRecovery;
    ShutdownStep(After(ps[..|ps| - 1], envs[..|ps| - 1]), ps[|ps| - 1], envs[|ps| - 1]);
  }

  lemma LastIs(ps: seq<TsPacket>, envs: seq<Env>)
    requires |ps| == |envs| > 0
    ensures var n := |ps| - 1;
      && Invariant(After(ps[..n], envs[..n]))
      && LastOutcome(ps, envs) == OnPacket(After(ps[..n], envs[..n]), ps[n], envs[n])
      && After(ps, envs) == LastOutcome(ps, envs).session
  {
    hide Invariant, OnPacket;
  }

  // A packet ends Recovery exactly if it shows a gap or closes a bad block.
  lemma RecoveryEnds(ps: seq<TsPacket>, envs: seq<Env>, e: nat)
    requires |ps| == |envs| > 0 && Entered(ps[..|ps| - 1], envs[..|ps| - 1], e)
    ensures
      var n := |ps| - 1;
      After(ps, envs).circuit == if Gap(ps[e..n], ps[n]) || Bad(ps[e..n], ps[n], false) then Shutdown else Recovery
  {
    hide Invariant, Tracks, OnPacket, Good, Gap, Entered, After, LastOutcome;
    var n := |ps| - 1;
    EntryBefore(ps[..n], envs[..n], e);
    RecoveryTracked(ps[..n], envs[..n], e);
    NowInRecovery(ps[..n], envs[..n], e);
    LastIs(ps, envs);
    assert ps[..n][e..] == ps[e..n];
    PacketStep(After(ps[..n], envs[..n]), ps[e..n], ps[n], envs[n]);
    FailureStep(After(ps[..n], envs[..n]), ps[n], envs[n]);
  }

  // The packet shows a gap or closes a bad block.
  predicate Setback(w: seq<TsPacket>, p: TsPacket) { Gap(w, p) || Bad(w, p, false) }

  ghost predicate Clean(w: seq<TsPacket>) { forall k :: 0 < k < |w| ==> !Setback(w[..k], w[k]) }

  // Recovery lasts exactly as long as the packets since the entry bring no setback.
  lemma {:induction false} RecoveryLasts(ps: seq<TsPacket>, envs: seq<Env>, e: nat)
    requires |ps| == |envs| && e < |ps| && After(ps[..e], envs[..e]).circuit.Shutdown? && ValidMarker(ps[e])
    ensures Entered(ps, envs, e) <==> Clean(ps[e..])
  {
    hide Invariant, OnPacket, ValidMarker, After, Setback, JustEntered;
    var n := |ps| - 1;
    if e == n {
      EntryOnly(ps, envs);
    } else {
      assert ps[..n][..e] == ps[..e] && envs[..n][..e] == envs[..e];
      RecoveryLasts(ps[..n], envs[..n], e);
      CleanSnoc(ps, e);
      EnteredSnoc(ps, envs, e);
      if Entered(ps[..n], envs[..n], e) { SetbackEnds(ps, envs, e); }
    }
  }

  lemma EntryOnly(ps: seq<TsPacket>, envs: seq<Env>)
    requires |ps| == |envs| > 0
    requires After(ps[..|ps| - 1], envs[..|ps| - 1]).circuit.Shutdown? && ValidMarker(ps[|ps| - 1])
    ensures Entered(ps, envs, |ps| - 1)
  {
    hide OnPacket, Invariant, ValidMarker;
    ShutdownStep(After(ps[..|ps| - 1], envs[..|ps| - 1]), ps[|ps| - 1], envs[|ps| - 1]);
    assert ps[..|ps|] == ps && envs[..|ps|] == envs;
  }

  lemma CleanSnoc(ps: seq<TsPacket>, e: nat)
    requires e < |ps| - 1
    ensures Clean(ps[e..]) == (Clean(ps[..|ps| - 1][e..]) && !Setback(ps[e..|ps| - 1], ps[|ps| - 1]))
  {
    hide Setback;
    var n := |ps| - 1;
    var w, v := ps[e..], ps[..n][e..];
    assert forall k :: 0 < k < |v| ==> v[..k] == w[..k] && v[k] == w[k];
    assert w[..n - e] == ps[e..n] && w[n - e] == ps[n];
  }

  lemma EnteredSnoc(ps: seq<TsPacket>, envs: seq<Env>, e: nat)
    requires |ps| == |envs| && e < |ps| - 1
    ensures Entered(ps, envs, e) ==
      (Entered(ps[..|ps| - 1], envs[..|ps| - 1], e) && After(ps, envs).circuit.Recovery?)
  {
    hide After, ValidMarker;
    var n := |ps| - 1;
    assert ps[..n][..e] == ps[..e] && envs[..n][..e] == envs[..e];
    assert ps[..|ps|] == ps && envs[..|ps|] == envs;
    hide InRecovery;
    if Entered(ps, envs, e) {
      EnteredEarlier(ps, envs, e);
      NowInRecovery(ps, envs, e);
    }
    if Entered(ps[..n], envs[..n], e) && After(ps, envs).circuit.Recovery? {
      forall k | e < k <= |ps|
        ensures InRecovery(ps, envs, k)
      {
        if k <= n { StillInRecovery(ps, envs, k); } else { AtTheEnd(ps, envs); }
      }
    }
  }

  lemma StillInRecovery(ps: seq<TsPacket>, envs: seq<Env>, k: nat)
    requires |ps| == |envs| && k < |ps| && InRecovery(ps[..|ps| - 1], envs[..|ps| - 1], k)
    ensures InRecovery(ps, envs, k)
  {
    hide After;
    var n := |ps| - 1;
    assert ps[..n][..k] == ps[..k] && envs[..n][..k] == envs[..k];
  }

  lemma AtTheEnd(ps: seq<TsPacket>, envs: seq<Env>)
    requires |ps| == |envs| && After(ps, envs).circuit.Recovery?
    ensures InRecovery(ps, envs, |ps|)
  {
    hide After;
    assert ps[..|ps|] == ps && envs[..|ps|] == envs;
  }

  lemma SetbackEnds(ps: seq<TsPacket>, envs: seq<Env>, e: nat)
    requires |ps| == |envs| > 0 && Entered(ps[..|ps| - 1], envs[..|ps| - 1], e)
    ensures After(ps, envs).circuit.Recovery? <==> !Setback(ps[e..|ps| - 1], ps[|ps| - 1])
  {
    hide Entered, After, Gap, Bad;
    RecoveryEnds(ps, envs, e);
  }

  // ---- the announcement ----

  ghost predicate Announces(ps: seq<TsPacket>, envs: seq<Env>, k: nat)
    requires |ps| == |envs| && k < |ps|
  {
    LastOutcome(ps[..k + 1], envs[..k + 1]).restart
  }

  // The time remembered is that of the last announcement since the entry, or zero.
  ghost predicate Remembers(t: U64, ps: seq<TsPacket>, envs: seq<Env>, e: nat)
    requires |ps| == |envs|
  {
    && (forall k :: e < k < |ps| && Announces(ps, envs, k) ==> 0 < envs[k].later <= t)
    && (t == 0 || exists k :: e < k < |ps| && Announces(ps, envs, k) && t == envs[k].later)
  }

  lemma AnnouncesEarlier(ps: seq<TsPacket>, envs: seq<Env>, k: nat)
    requires |ps| == |envs| && k < |ps| - 1
    ensures Announces(ps[..|ps| - 1], envs[..|ps| - 1], k) == Announces(ps, envs, k)
  {
    hide LastOutcome;
    var n := |ps| - 1;
    assert ps[..n][..k + 1] == ps[..k + 1] && envs[..n][..k + 1] == envs[..k + 1];
  }

  lemma LastAnnounces(ps: seq<TsPacket>, envs: seq<Env>)
    requires |ps| == |envs| > 0
    ensures Announces(ps, envs, |ps| - 1) == LastOutcome(ps, envs).restart
  {
    hide LastOutcome;
    assert ps[..|ps|] == ps && envs[..|ps|] == envs;
  }

  lemma RemembersSnoc(t: U64, t': U64, ps: seq<TsPacket>, envs: seq<Env>, e: nat)
    requires |ps| == |envs| && e < |ps| - 1 && Remembers(t, ps[..|ps| - 1], envs[..|ps| - 1], e)
    requires t' == if Announces(ps, envs, |ps| - 1) then envs[|ps| - 1].later else t
    requires Announces(ps, envs, |ps| - 1) ==> envs[|ps| - 1].later > 0
    requires ClockForward(envs)
    ensures Remembers(t', ps, envs, e)
  {
    hide Announces;
    var n := |ps| - 1;
    forall k | e < k < n
      ensures Announces(ps[..n], envs[..n], k) == Announces(ps, envs, k) && envs[..n][k] == envs[k]
      ensures envs[k].later <= envs[n].now <= envs[n].later
    {
      AnnouncesEarlier(ps, envs, k);
    }
  }

  // What a packet in Recovery announces, given the session,
  lemma SessionAnnounces(s: Session, w: seq<TsPacket>, p: TsPacket, env: Env)
    requires Invariant(s) && Tracks(s, w) && s.circuit.Recovery? && s.goodBlocks == Wrap32(GoodCount(w))
    ensures
      var o := OnPacket(s, p, env);
      && (o.restart <==>
            && Good(w, p, false) && Wrap32(GoodCount(w + [p])) >= RECOVERY_GOOD_BLOCKS_REQUIRED
            && Wrap64(env.now - s.recoveryStart) >= RECOVERY_TIME_REQUIRED_US
            && (s.lastRestart == 0 || Wrap64(env.later - s.lastRestart) >= RESTART_MESSAGE_INTERVAL_US))
      && (o.session.circuit.Recovery? ==> o.session.lastRestart == if o.restart then env.later else s.lastRestart)
  {
    hide Invariant, Tracks, OnPacket, Good, Step, Wrap64, Wrap32;
    PacketStep(s, w, p, env);
    SnocParts(w, p);
    WrapsNext(GoodCount(w));
  }

  // and what of it the packets since the entry say.
  lemma AnnouncementStep(ps: seq<TsPacket>, envs: seq<Env>, e: nat)
    requires |ps| == |envs| > 0 && Entered(ps[..|ps| - 1], envs[..|ps| - 1], e)
    ensures
      var n := |ps| - 1;
      var s, o := After(ps[..n], envs[..n]), LastOutcome(ps, envs);
      && e < n && o.session == After(ps, envs)
      && (o.restart <==>
            && Good(ps[e..n], ps[n], false) && Wrap32(GoodCount(ps[e..])) >= RECOVERY_GOOD_BLOCKS_REQUIRED
            && Wrap64(envs[n].now - envs[e].now) >= RECOVERY_TIME_REQUIRED_US
            && (s.lastRestart == 0 || Wrap64(envs[n].later - s.lastRestart) >= RESTART_MESSAGE_INTERVAL_US))
      && (o.session.circuit.Recovery? ==> o.session.lastRestart == if o.restart then envs[n].later else s.lastRestart)
  {
    hide Invariant, Tracks, OnPacket, Good, Entered, After, LastOutcome, Wrap64, Wrap32, GoodCount, ValidMarker;
    var n := |ps| - 1;
    EntryBefore(ps[..n], envs[..n], e);
    RecoveryTracked(ps[..n], envs[..n], e);
    NowInRecovery(ps[..n], envs[..n], e);
    LastIs(ps, envs);
    StretchSnoc(ps, e);
    SessionAnnounces(After(ps[..n], envs[..n]), ps[e..n], ps[n], envs[n]);
  }

  lemma {:induction false} RestartRemembered(ps: seq<TsPacket>, envs: seq<Env>, e: nat)
    requires |ps| == |envs| && Entered(ps, envs, e) && ClockForward(envs)
    ensures Remembers(After(ps, envs).lastRestart, ps, envs, e)
  {
    hide Invariant, Entered, After, LastOutcome, ClockForward, Good, GoodCount, ValidMarker;
    var n := |ps| - 1;
    EntryBefore(ps, envs, e);
    if e == n {
      EnteredHere(ps, envs);
    } else {
      EnteredEarlier(ps, envs, e);
      ForwardPrefix(envs);
      RestartRemembered(ps[..n], envs[..n], e);
      NowInRecovery(ps, envs, e);
      AnnouncementStep(ps, envs, e);
      LastAnnounces(ps, envs);
      ForwardAt(envs, e, n);
      RemembersSnoc(After(ps[..n], envs[..n]).lastRestart, After(ps, envs).lastRestart, ps, envs, e);
    }
  }

  lemma ForwardPrefix(envs: seq<Env>)
    requires ClockForward(envs) && envs != []
    ensures ClockForward(envs[..|envs| - 1])
  {
  }

  // With a clock that does not go back, a packet in Recovery announces RESTART exactly if it closes a good block, at
  // least ten good blocks were closed since the entry, ten seconds have passed since, and every announcement since is
  // at least five seconds old. The count of good blocks wraps at 2^32.
  lemma RestartExactly(ps: seq<TsPacket>, envs: seq<Env>, e: nat)
    requires |ps| == |envs| > 0 && Entered(ps[..|ps| - 1], envs[..|ps| - 1], e) && ClockForward(envs)
    ensures
      var n := |ps| - 1;
      && e < n
      && (LastOutcome(ps, envs).restart <==>
            && Good(ps[e..n], ps[n], false) && Wrap32(GoodCount(ps[e..])) >= 10
            && envs[n].now - envs[e].now >= 10_000_000
            && forall k :: e < k < n && Announces(ps, envs, k) ==> envs[n].later - envs[k].later >= 5_000_000)
  {
    hide Invariant, Entered, After, LastOutcome, Good, GoodCount, Announces;
    var n := |ps| - 1;
    var t := After(ps[..n], envs[..n]).lastRestart;
    AnnouncementStep(ps, envs, e);
    ForwardPrefix(envs);
    RestartRemembered(ps[..n], envs[..n], e);
    forall k | e < k < n
      ensures Announces(ps[..n], envs[..n], k) == Announces(ps, envs, k) && envs[..n][k] == envs[k]
      ensures envs[k].later <= envs[n].now <= envs[n].later
    {
      AnnouncesEarlier(ps, envs, k);
    }
  }

  // Whenever the circuit is in Recovery there is such an entry.
  lemma {:induction false} RecoveryHasEntry(ps: seq<TsPacket>, envs: seq<Env>) returns (e: nat)
    requires |ps| == |envs| && After(ps, envs).circuit.Recovery?
    ensures Entered(ps, envs, e)
  {
    hide Invariant, OnPacket, ValidMarker, INITIAL_SESSION, Entered;
    e := 0;
    if ps == [] {
      InitialNotRecovery();
      assert false;
    } else {
      var n := |ps| - 1;
      var s := After(ps[..n], envs[..n]);
      if s.circuit.Shutdown? {
        ShutdownStep(s, ps[n], envs[n]);
        EntryOnly(ps, envs);
        e := n;
      } else {
        PacketKeepsCircuit(ps, envs);
        e := RecoveryHasEntry(ps[..n], envs[..n]);
        EntryBefore(ps[..n], envs[..n], e);
        EnteredSnoc(ps, envs, e);
      }
    }
  }

  lemma PacketKeepsCircuit(ps: seq<TsPacket>, envs: seq<Env>)
    requires |ps| == |envs| > 0 && After(ps, envs).circuit.Recovery?
    requires !After(ps[..|ps| - 1], envs[..|ps| - 1]).circuit.Shutdown?
    ensures After(ps[..|ps| - 1], envs[..|ps| - 1]).circuit.Recovery?
  {
    hide OnPacket, Invariant, Tracks, Gap, Good, Bad, Progress, ThresholdReached, INITIAL_SESSION;
    var n := |ps| - 1;
    if After(ps[..n], envs[..n]).circuit.Normal? {
      NormalTracked(ps[..n], envs[..n]);
      PacketStep(After(ps[..n], envs[..n]), ps[..n], ps[n], envs[n]);
    }
  }
}
