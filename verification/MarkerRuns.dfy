// What the circuit breaker guarantees over every run, for any packets and any connection state,
// as long as the clock does not go back.
module MarkerRuns {
  import opened Bytes
  import opened TransportStream
  import opened MarkerCodec
  import opened FailureWindow
  import opened MarkerSession

  datatype Event = Event(verdict: Verdict, restart: bool, env: Env)

  function EventOf(o: Outcome, env: Env): Event { Event(o.verdict, o.restart, env) }

  ghost predicate ClockForward(envs: seq<Env>) {
    && (forall i :: 0 <= i < |envs| ==> envs[i].now <= envs[i].later)
    && (forall i, j :: 0 <= i < j < |envs| ==> envs[i].later <= envs[j].now)
  }

  // The session after a run from the start of the program, and what happened at each packet.
  function After(ps: seq<TsPacket>, envs: seq<Env>): (s: Session)
    requires |ps| == |envs|
    ensures Invariant(s)
  {
    if ps == [] then InitialInvariant(); INITIAL_SESSION
    else
      var n := |ps| - 1;
      var s := After(ps[..n], envs[..n]);
      PacketKeepsInvariant(s, ps[n], envs[n]);
      OnPacket(s, ps[n], envs[n]).session
  }

  // What the last packet of a run did.
  function LastOutcome(ps: seq<TsPacket>, envs: seq<Env>): Outcome
    requires |ps| == |envs| > 0
  {
    var n := |ps| - 1;
    OnPacket(After(ps[..n], envs[..n]), ps[n], envs[n])
  }

  function Events(ps: seq<TsPacket>, envs: seq<Env>): (es: seq<Event>)
    requires |ps| == |envs|
    ensures |es| == |ps|
    ensures forall i :: 0 <= i < |es| ==> es[i].env == envs[i]
  {
    if ps == [] then []
    else
      var n := |ps| - 1;
      Events(ps[..n], envs[..n]) + [EventOf(LastOutcome(ps, envs), envs[n])]
  }

  // ---- once tripped, never normal again, and silent ----

  lemma {:induction false} NeverNormalAgain(ps: seq<TsPacket>, envs: seq<Env>, k: nat)
    requires |ps| == |envs| && k <= |ps|
    requires !After(ps[..k], envs[..k]).circuit.Normal?
    ensures !After(ps, envs).circuit.Normal?
    ensures k < |ps| ==> LastOutcome(ps, envs).sent.None?
  {
    hide OnPacket, Invariant;
    if k == |ps| {
      assert ps[..k] == ps && envs[..k] == envs;
    } else {
      var n := |ps| - 1;
      assert ps[..n][..k] == ps[..k] && envs[..n][..k] == envs[..k];
      NeverNormalAgain(ps[..n], envs[..n], k);
      PacketKeepsInvariant(After(ps[..n], envs[..n]), ps[n], envs[n]);
    }
  }

  // ---- the restart announcement ----

  predicate IsSetback(v: Verdict) {
    v.LossTrip? || v.LossInRecovery? || v.Resynced? || v.FailureTrip? || v.FailureInRecovery? || v.Failed?
  }

  function GoodBlocks(es: seq<Event>): (n: nat)
    ensures n <= |es|
  {
    if es == [] then 0
    else GoodBlocks(es[..|es| - 1]) + if es[|es| - 1].verdict.Validated? then 1 else 0
  }

  // Recovery was entered at event e, and since then no marker was lost and no block failed.
  ghost predicate CleanSince(es: seq<Event>, e: nat) {
    && e < |es| && es[e].verdict.RecoveryEntered?
    && forall i :: e < i < |es| ==> !IsSetback(es[i].verdict)
  }

  lemma GoodBlocksSnoc(es: seq<Event>, e: nat, x: Event)
    requires e < |es|
    ensures GoodBlocks((es + [x])[e + 1..]) == GoodBlocks(es[e + 1..]) + if x.verdict.Validated? then 1 else 0
  {
    assert (es + [x])[e + 1..] == es[e + 1..] + [x];
    assert (es[e + 1..] + [x])[..|es| - e - 1] == es[e + 1..];
  }

  // One step seen from the recovery counters.
  ghost predicate RecoveryLaw(s: Session, o: Outcome, env: Env) {
    var t := o.session;
    && (t.circuit.Recovery? <==> o.verdict.RecoveryEntered? || (s.circuit.Recovery? && !IsSetback(o.verdict)))
    && (o.verdict.RecoveryEntered? ==> t.goodBlocks == 0 && t.recoveryStart == env.now && !o.restart)
    && (s.circuit.Recovery? && t.circuit.Recovery? ==>
          !o.verdict.RecoveryEntered? && t.recoveryStart == s.recoveryStart &&
          t.goodBlocks == Wrap32(s.goodBlocks + if o.verdict.Validated? then 1 else 0))
    && (o.restart ==>
          s.circuit.Recovery? && t.circuit.Recovery? && t.goodBlocks >= RECOVERY_GOOD_BLOCKS_REQUIRED &&
          Wrap64(env.now - s.recoveryStart) >= RECOVERY_TIME_REQUIRED_US)
  }

  lemma RecoveryStep(s: Session, p: TsPacket, env: Env)
    requires Invariant(s)
    ensures RecoveryLaw(s, OnPacket(s, p, env), env)
  {
    hide Parse, IsMarker, HasSync, IsNull, Payloads, ThresholdReached, Record, CLEARED, Ring.Valid;
    if HasSync(p) && IsMarker(p) && Parse(p).Some? {
      RecoveryMarkerStep(s, Parse(p).value, env);
    }
  }

  lemma RecoveryMarkerStep(s: Session, m: Marker, env: Env)
    requires Invariant(s)
    ensures RecoveryLaw(s, OnMarker(s, m, env), env)
  {
    hide Payloads, ThresholdReached, Record, CLEARED, Ring.Valid;
  }

  lemma LastRecoveryStep(ps: seq<TsPacket>, envs: seq<Env>)
    requires |ps| == |envs| > 0
    ensures var n := |ps| - 1;
      && LastOutcome(ps, envs).session == After(ps, envs)
      && RecoveryLaw(After(ps[..n], envs[..n]), LastOutcome(ps, envs), envs[n])
  {
    hide OnPacket, RecoveryLaw;
    var n := |ps| - 1;
    RecoveryStep(After(ps[..n], envs[..n]), ps[n], envs[n]);
  }

  // The recovery counters of a session tell what happened since Recovery was entered at event e.
  ghost predicate Describes(s: Session, es: seq<Event>, e: nat) {
    && CleanSince(es, e)
    && s.recoveryStart == es[e].env.now
    && s.goodBlocks == Wrap32(GoodBlocks(es[e + 1..]))
  }

  lemma DescribesEntered(s: Session, o: Outcome, env: Env, es: seq<Event>)
    requires RecoveryLaw(s, o, env) && o.verdict.RecoveryEntered?
    ensures Describes(o.session, es + [EventOf(o, env)], |es|)
  {
    assert (es + [EventOf(o, env)])[|es| + 1..] == [];
  }

  lemma DescribesExtended(s: Session, o: Outcome, env: Env, es: seq<Event>, e: nat)
    requires RecoveryLaw(s, o, env) && s.circuit.Recovery? && o.session.circuit.Recovery?
    requires Describes(s, es, e)
    ensures Describes(o.session, es + [EventOf(o, env)], e)
  {
    hide GoodBlocks;
    GoodBlocksSnoc(es, e, EventOf(o, env));
  }

  lemma InitialNotRecovery()
    ensures INITIAL_SESSION.circuit.Normal?
  {
  }

  // In every run, while the circuit is in Recovery its counters describe the events.
  lemma {:induction false} RecoveryCounters(ps: seq<TsPacket>, envs: seq<Env>) returns (e: nat)
    requires |ps| == |envs| && After(ps, envs).circuit.Recovery?
    ensures Describes(After(ps, envs), Events(ps, envs), e)
  {
    hide Invariant, LastOutcome, INITIAL_SESSION, RecoveryLaw, Describes;
    e := 0;
    if ps == [] {
      InitialNotRecovery();
      assert false;
    } else {
      var n := |ps| - 1;
      var s, es, o := After(ps[..n], envs[..n]), Events(ps[..n], envs[..n]), LastOutcome(ps, envs);
      LastRecoveryStep(ps, envs);
      RecoveryOrigin(s, o, envs[n]);
      if o.verdict.RecoveryEntered? {
        e := n;
        DescribesEntered(s, o, envs[n], es);
      } else {
        e := RecoveryCounters(ps[..n], envs[..n]);
        DescribesExtended(s, o, envs[n], es, e);
      }
    }
  }

  lemma RecoveryOrigin(s: Session, o: Outcome, env: Env)
    requires RecoveryLaw(s, o, env) && o.session.circuit.Recovery?
    ensures o.verdict.RecoveryEntered? || s.circuit.Recovery?
  {
  }

  // "RESTART SENDER" is announced only when the last ten seconds or more were spent in Recovery
  // with at least ten good blocks and neither a lost marker nor a failed block since it was entered.
  lemma RestartIsEarned(ps: seq<TsPacket>, envs: seq<Env>) returns (e: nat)
    requires |ps| == |envs| > 0 && ClockForward(envs)
    requires Events(ps, envs)[|ps| - 1].restart
    ensures var es := Events(ps, envs);
      && CleanSince(es, e)
      && GoodBlocks(es[e + 1..]) >= 10
      && envs[|ps| - 1].now - envs[e].now >= 10_000_000
  {
    hide OnPacket, Invariant, GoodBlocks, LastOutcome;
    var n := |ps| - 1;
    LastRecoveryStep(ps, envs);
    e := RecoveryCounters(ps, envs);
    assert e < n;
    assert envs[e].now <= envs[n].now;
  }

  // ---- the pace of the announcements ----

  // When Recovery was last entered, and when the last announcement since then was made; zero for never.
  function EnteredAt(es: seq<Event>): U64 {
    if es == [] then 0
    else if es[|es| - 1].verdict.RecoveryEntered? then es[|es| - 1].env.now
    else EnteredAt(es[..|es| - 1])
  }

  function AnnouncedAt(es: seq<Event>): U64 {
    if es == [] || es[|es| - 1].verdict.RecoveryEntered? then 0
    else if es[|es| - 1].restart then es[|es| - 1].env.later
    else AnnouncedAt(es[..|es| - 1])
  }

  // One step seen from the two times.
  ghost predicate PaceLaw(s: Session, o: Outcome, env: Env) {
    var entered := o.verdict.RecoveryEntered?;
    && o.session.recoveryStart == (if entered then env.now else s.recoveryStart)
    && o.session.lastRestart == (if entered then 0 else if o.restart then env.later else s.lastRestart)
    && (o.restart ==>
          && !entered && Wrap64(env.now - s.recoveryStart) >= RECOVERY_TIME_REQUIRED_US
          && (s.lastRestart == 0 || Wrap64(env.later - s.lastRestart) >= RESTART_MESSAGE_INTERVAL_US))
  }

  lemma PaceStep(s: Session, p: TsPacket, env: Env)
    requires Invariant(s)
    ensures PaceLaw(s, OnPacket(s, p, env), env)
  {
    hide Parse, IsMarker, HasSync, IsNull, Payloads, ThresholdReached, Record, CLEARED, Ring.Valid, OnMarker;
    if HasSync(p) && IsMarker(p) && Parse(p).Some? {
      PaceMarkerStep(s, Parse(p).value, env);
    }
  }

  lemma PaceMarkerStep(s: Session, m: Marker, env: Env)
    requires Invariant(s)
    ensures PaceLaw(s, OnMarker(s, m, env), env)
  {
    hide Payloads, ThresholdReached, Record, CLEARED, Ring.Valid, Wrap16, Wrap32, Wrap64, BlockMatches;
  }

  // In every run the session holds the two times.
  lemma {:induction false} PaceRefinesHistory(ps: seq<TsPacket>, envs: seq<Env>)
    requires |ps| == |envs|
    ensures After(ps, envs).recoveryStart == EnteredAt(Events(ps, envs))
    ensures After(ps, envs).lastRestart == AnnouncedAt(Events(ps, envs))
  {
    hide OnPacket, Invariant;
    if ps != [] {
      var n := |ps| - 1;
      PaceRefinesHistory(ps[..n], envs[..n]);
      PaceStep(After(ps[..n], envs[..n]), ps[n], envs[n]);
      assert Events(ps, envs)[..n] == Events(ps[..n], envs[..n]);
    }
  }

  ghost predicate Forward(es: seq<Event>, limit: U64) {
    && (forall i :: 0 <= i < |es| ==> es[i].env.now <= es[i].env.later <= limit)
    && (forall i, j :: 0 <= i < j < |es| ==> es[i].env.later <= es[j].env.now)
  }

  lemma {:induction false} TimesWithin(es: seq<Event>, limit: U64)
    requires Forward(es, limit)
    ensures EnteredAt(es) <= limit && AnnouncedAt(es) <= limit
  {
    if es != [] { TimesWithin(es[..|es| - 1], limit); }
  }

  // After an announcement, one of the two times is as late as it.
  lemma {:induction false} AnnouncementRemembered(es: seq<Event>, i: nat, limit: U64)
    requires Forward(es, limit) && i < |es| && es[i].restart && !es[i].verdict.RecoveryEntered?
    ensures AnnouncedAt(es) >= es[i].env.later || EnteredAt(es) >= es[i].env.later
  {
    var n := |es| - 1;
    if i < n { AnnouncementRemembered(es[..n], i, limit); }
  }

  lemma {:induction false} EventIs(ps: seq<TsPacket>, envs: seq<Env>, k: nat)
    requires |ps| == |envs| && k < |ps|
    ensures PaceLaw(After(ps[..k], envs[..k]), OnPacket(After(ps[..k], envs[..k]), ps[k], envs[k]), envs[k])
    ensures Events(ps, envs)[..k] == Events(ps[..k], envs[..k])
    ensures Events(ps, envs)[k] == EventOf(OnPacket(After(ps[..k], envs[..k]), ps[k], envs[k]), envs[k])
  {
    hide OnPacket, Invariant, PaceLaw, After;
    var n := |ps| - 1;
    if k == n {
      PaceStep(After(ps[..n], envs[..n]), ps[n], envs[n]);
      assert Events(ps, envs)[..n] == Events(ps[..n], envs[..n]);
    } else {
      EventIs(ps[..n], envs[..n], k);
      assert ps[..n][..k] == ps[..k] && envs[..n][..k] == envs[..k];
      assert Events(ps, envs)[..k] == Events(ps[..n], envs[..n])[..k];
    }
  }

  lemma ForwardEvents(ps: seq<TsPacket>, envs: seq<Env>, k: nat)
    requires |ps| == |envs| && ClockForward(envs) && k < |ps|
    ensures Forward(Events(ps[..k], envs[..k]), envs[k].now)
  {
    hide OnPacket, Invariant, LastOutcome;
  }

  // The clock has run for ten seconds by the time of an announcement.
  lemma AnnouncedLate(ps: seq<TsPacket>, envs: seq<Env>, i: nat)
    requires |ps| == |envs| && ClockForward(envs) && i < |ps| && Events(ps, envs)[i].restart
    ensures envs[i].now - EnteredAt(Events(ps, envs)[..i]) >= RECOVERY_TIME_REQUIRED_US
    ensures !Events(ps, envs)[i].verdict.RecoveryEntered?
  {
    hide OnPacket, Invariant, Events, EnteredAt, AnnouncedAt, Forward, ClockForward;
    EventIs(ps, envs, i);
    PaceRefinesHistory(ps[..i], envs[..i]);
    ForwardEvents(ps, envs, i);
    TimesWithin(Events(ps[..i], envs[..i]), envs[i].now);
  }

  // Any two announcements of a run are at least five seconds apart, also when Recovery was left and entered
  // again between them.
  lemma AnnouncementsApart(ps: seq<TsPacket>, envs: seq<Env>, i: nat, j: nat)
    requires |ps| == |envs| && ClockForward(envs) && i < j < |ps|
    requires Events(ps, envs)[i].restart && Events(ps, envs)[j].restart
    ensures envs[j].later - envs[i].later >= 5_000_000
  {
    hide OnPacket, Invariant, Events, EnteredAt, AnnouncedAt, Forward, ClockForward, After;
    var es := Events(ps, envs)[..j];
    AnnouncedLate(ps, envs, i);
    AnnouncedLate(ps, envs, j);
    EventIs(ps, envs, j);
    PaceRefinesHistory(ps[..j], envs[..j]);
    ForwardEvents(ps, envs, j);
    TimesWithin(es, envs[j].now);
    AnnouncementRemembered(es, i, envs[j].now);
    ForwardAt(envs, i, j);
  }

  lemma ForwardAt(envs: seq<Env>, i: nat, j: nat)
    requires ClockForward(envs) && i < j < |envs|
    ensures envs[i].now <= envs[i].later <= envs[j].now <= envs[j].later
  {
  }

  // ---- the failure trip ----

  predicate FailedNow(v: Verdict) { v.Failed? || v.FailureInRecovery? || v.FailureTrip? }

  // When validation failed since the circuit last tripped.
  function FailureTimes(es: seq<Event>): seq<U64> {
    if es == [] then []
    else
      var earlier, x := FailureTimes(es[..|es| - 1]), es[|es| - 1];
      if x.verdict.LossTrip? || x.verdict.FailureTrip? then []
      else if FailedNow(x.verdict) then earlier + [x.env.now]
      else earlier
  }

  // One step seen from the failure ring.
  ghost predicate FailureLaw(s: Session, o: Outcome, env: Env)
    requires s.failures.Valid()
  {
    && (o.session.failures ==
          if o.verdict.LossTrip? || o.verdict.FailureTrip? then CLEARED
          else if FailedNow(o.verdict) then Record(s.failures, env.now)
          else s.failures)
    && (FailedNow(o.verdict) ==>
          (o.verdict.FailureTrip? <==> ThresholdReached(Record(s.failures, env.now), env.later)))
  }

  lemma FailureStep(s: Session, p: TsPacket, env: Env)
    requires Invariant(s)
    ensures FailureLaw(s, OnPacket(s, p, env), env)
  {
    hide Parse, IsMarker, HasSync, IsNull, Payloads, ThresholdReached, Record, CLEARED, Ring.Valid;
    if HasSync(p) && IsMarker(p) && Parse(p).Some? {
      FailureMarkerStep(s, Parse(p).value, env);
    }
  }

  lemma FailureMarkerStep(s: Session, m: Marker, env: Env)
    requires Invariant(s)
    ensures FailureLaw(s, OnMarker(s, m, env), env)
  {
    hide Payloads, ThresholdReached, Record, CLEARED, Ring.Valid;
  }

  lemma {:induction false} FailuresRefineHistory(ps: seq<TsPacket>, envs: seq<Env>)
    requires |ps| == |envs|
    ensures After(ps, envs).failures == Replay(FailureTimes(Events(ps, envs)))
  {
    hide OnPacket, Invariant, Record, CLEARED;
    if ps != [] {
      var n := |ps| - 1;
      FailuresRefineHistory(ps[..n], envs[..n]);
      FailureStep(After(ps[..n], envs[..n]), ps[n], envs[n]);
      var es, x := Events(ps[..n], envs[..n]), Events(ps, envs)[n];
      assert Events(ps, envs)[..n] == es;
      assert (FailureTimes(es) + [x.env.now])[..|FailureTimes(es)|] == FailureTimes(es);
    }
  }

  lemma {:induction false} FailureTimesForward(es: seq<Event>, limit: U64)
    requires forall i :: 0 <= i < |es| ==> es[i].env.now <= limit
    requires forall i, j :: 0 <= i < j < |es| ==> es[i].env.now <= es[j].env.now
    ensures Nondecreasing(FailureTimes(es))
    ensures forall i :: 0 <= i < |FailureTimes(es)| ==> FailureTimes(es)[i] <= limit
  {
    if es != [] {
      FailureTimesForward(es[..|es| - 1], es[|es| - 1].env.now);
    }
  }

  // A failed block trips the circuit exactly when it is the tenth failure within ten seconds since the
  // last trip, the ring of ten slots notwithstanding: for a clock past its first ten seconds.
  lemma FailureTripIffTenWithinWindow(ps: seq<TsPacket>, envs: seq<Env>)
    requires |ps| == |envs| > 0 && ClockForward(envs)
    requires FailedNow(Events(ps, envs)[|ps| - 1].verdict)
    requires envs[|ps| - 1].later > VALIDATION_FAILURE_WINDOW_US
    ensures
      var n := |ps| - 1;
      var failures := FailureTimes(Events(ps, envs)[..n]) + [envs[n].now];
      Events(ps, envs)[n].verdict.FailureTrip? <==>
        |failures| >= 10 && envs[n].later - failures[|failures| - 10] <= VALIDATION_FAILURE_WINDOW_US
  {
    hide OnPacket, Invariant, Record, ThresholdReached;
    var n := |ps| - 1;
    var es := Events(ps[..n], envs[..n]);
    var earlier := FailureTimes(es);
    var failures := earlier + [envs[n].now];
    assert Events(ps, envs)[..n] == es;
    FailuresRefineHistory(ps[..n], envs[..n]);
    FailureStep(After(ps[..n], envs[..n]), ps[n], envs[n]);
    FailureTimesForward(es, envs[n].now);
    assert failures[..|earlier|] == earlier;
    ThresholdOfHistory(failures, envs[n].later);
  }
}
