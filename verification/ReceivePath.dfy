// The ring and the missing queue of one flow together: a packet that jumps ahead marks the numbers it passed
// over, and a NACK pass looks the queued numbers up in the ring.
module ReceivePath {
  import opened Bytes
  import R = ReceiveRing
  import Q = MissingQueue
  import F = ReceiveFlow
  import L = MissingList

  datatype Path = Path(flow: R.Flow, missing: Q.State)

  // What marking a gap takes from the peer and the clock: lastTime is read when the slot of the last number is
  // empty.
  datatype Sender = Sender(peer: nat, rtt: U64, bloated: bool, missingMax: nat, lastTime: U64, clock: nat -> U64)

  // What a NACK pass finds besides the ring.
  datatype Round = Round(peers: nat -> Q.Peer, now: nat -> U64, recovery: U64, hasPeers: bool)

  // ---- a packet ----

  function Previous(s: U32, c: R.Config): U32 {
    if c.shortSeq then (s - 1) % 0x1_0000 else (s - 1) % 0x1_0000_0000
  }

  // The packet is the newest so far and does not follow the last one directly.
  predicate Jumps(f: R.Flow, a: R.Arrival, c: R.Config) {
    !a.retry && !a.outOfMemory && !R.Behind(f, a) && Previous(a.packet.seqNum, c) != f.queue.lastSeqFound
  }

  // Numbers as the packet header carries them, 16 bits wide: all of them have a slot of their own.
  predicate Narrow(f: R.Flow) { f.queue.lastSeqFound < 0x1_0000 }

  function TimeAt(slots: seq<R.Slot>, n: nat, otherwise: U64): U64
    requires n < |slots|
  {
    if slots[n].Held? then slots[n].packet.packetTime else otherwise
  }

  // The gap between the last number found and the packet just put into the ring.
  function GapBefore(slots: seq<R.Slot>, last: U32, a: R.Arrival, m: Sender, counter: int, c: R.Config): Q.Gap
    requires last < |slots| && a.packet.seqNum < |slots|
  {
    var current := a.packet.seqNum;
    Q.Gap(last, current, c.shortSeq, c.max, m.bloated || counter > m.missingMax, TimeAt(slots, last, m.lastTime),
          TimeAt(slots, current, 0), m.peer, m.rtt, a.recovery)
  }

  ghost predicate Ready(p: Path, a: R.Arrival, c: R.Config) {
    R.Valid(p.flow, c) && a.packet.size > 0 && Narrow(p.flow) && a.packet.seqNum < 0x1_0000
  }

  // The ring takes the packet; a stream that starts afresh drops what is missing, a jump adds to it.
  ghost function Enqueue(p: Path, a: R.Arrival, m: Sender, c: R.Config): (r: (Path, R.Verdict))
    requires Ready(p, a, c)
  {
    R.ValidShape(p.flow, c);
    var (f', v) := R.Enqueue(p.flow, a, c);
    R.EnqueueKeepsValid(p.flow, a, c);
    var gap := GapBefore(f'.queue.slots, p.flow.queue.lastSeqFound, a, m, p.missing.counter, c);
    var missing :=
      if v.Stored? && !p.flow.queue.hasItems then Q.Apply(p.missing, Q.Flush)
      else if v.Stored? && Jumps(p.flow, a, c) then Q.Apply(p.missing, Q.Mark(gap, m.clock))
      else p.missing;
    (Path(f', missing), v)
  }

  // ---- what a jump marks ----

  const SHORT := R.Config(0x1_0000, true)

  // The gap that a stored packet closes off.
  ghost function GapAt(p: Path, a: R.Arrival, m: Sender, c: R.Config): Q.Gap
    requires Ready(p, a, c)
  {
    R.ValidShape(p.flow, c);
    R.EnqueueKeepsValid(p.flow, a, c);
    GapBefore(R.Enqueue(p.flow, a, c).0.queue.slots, p.flow.queue.lastSeqFound, a, m, p.missing.counter, c)
  }

  lemma GapAtEnds(p: Path, a: R.Arrival, m: Sender, c: R.Config)
    requires Ready(p, a, c)
    ensures var g := GapAt(p, a, m, c);
      && g.last == p.flow.queue.lastSeqFound && g.current == a.packet.seqNum && g.shortSeq == c.shortSeq
      && g.max == c.max && (g.blocked <==> m.bloated || p.missing.counter > m.missingMax)
  {
    hide R.Enqueue;
  }

  lemma JumpAppends(p: Path, a: R.Arrival, m: Sender, c: R.Config)
    requires Ready(p, a, c) && p.flow.queue.hasItems && Jumps(p.flow, a, c) && Enqueue(p, a, m, c).1.Stored?
    ensures var g := GapAt(p, a, m, c);
      Enqueue(p, a, m, c).0.missing.entries == p.missing.entries + Q.GapEntries(g, Q.Marked(g), m.clock)
  {
    hide R.Enqueue;
  }

  // With 16-bit numbers a stored packet that jumps ahead queues exactly the numbers it passed over.
  lemma JumpMarksPassedOver(p: Path, a: R.Arrival, m: Sender, x: U32)
    requires Ready(p, a, SHORT) && p.flow.queue.hasItems && Jumps(p.flow, a, SHORT)
    requires Enqueue(p, a, m, SHORT).1.Stored? && x < 0x1_0000
    ensures var last, was := p.flow.queue.lastSeqFound, p.missing.entries;
      var now := Enqueue(p, a, m, SHORT).0.missing.entries;
      && was <= now
      && ((exists k :: |was| <= k < |now| && now[k].seqNum == x) <==>
            && Q.Marks(GapAt(p, a, m, SHORT)) && x != last
            && (a.packet.seqNum == last || (x - last) % 0x1_0000 < (a.packet.seqNum - last) % 0x1_0000))
  {
    GapAtEnds(p, a, m, SHORT);
    JumpAppends(p, a, m, SHORT);
    hide Enqueue, GapAt, Jumps, Q.Marked, Q.Marks, Q.GapEntries;
    var g := GapAt(p, a, m, SHORT);
    Q.ShortGapIsExact(g, m.clock, x);
    AppendedNumbers(p.missing.entries, Q.GapEntries(g, Q.Marked(g), m.clock), x);
  }

  lemma AppendedNumbers(was: seq<Q.Entry>, more: seq<Q.Entry>, x: U32)
    ensures (exists k :: |was| <= k < |was + more| && (was + more)[k].seqNum == x)
      <==> exists k :: 0 <= k < |more| && more[k].seqNum == x
  {
    if k :| 0 <= k < |more| && more[k].seqNum == x {
      assert (was + more)[|was| + k] == more[k];
    }
    if k :| |was| <= k < |was + more| && (was + more)[k].seqNum == x {
      assert more[k - |was|].seqNum == x;
    }
  }

  // A retransmission, a packet out of order, the number after the last one and a packet there is no memory for mark
  // nothing.
  lemma NothingToMark(p: Path, a: R.Arrival, m: Sender)
    requires Ready(p, a, SHORT) && p.flow.queue.hasItems
    requires a.retry || a.outOfMemory || a.packet.seqNum == (p.flow.queue.lastSeqFound + 1) % 0x1_0000
             || (a.packet.packetTime < a.lastPacketTs
                 && a.packet.seqNum != (p.flow.queue.lastSeqFound + 1) % 0x1_0000 / 2 * 2)
    ensures Enqueue(p, a, m, SHORT).0.missing == p.missing
  {
    hide R.Enqueue, R.Valid, GapBefore;
  }

  // A stored packet becomes the last one found, unless it is a retransmission or out of order.
  lemma LastFound(p: Path, a: R.Arrival, m: Sender)
    requires Ready(p, a, SHORT) && p.flow.queue.hasItems && !a.outOfMemory && Enqueue(p, a, m, SHORT).1.Stored?
    ensures var last := p.flow.queue.lastSeqFound;
      Enqueue(p, a, m, SHORT).0.flow.queue.lastSeqFound ==
        if a.retry || (a.packet.packetTime < a.lastPacketTs && a.packet.seqNum != (last + 1) % 0x1_0000 / 2 * 2)
        then last else a.packet.seqNum
  {
    hide R.OccupiedBytes, R.Announced, GapBefore;
    R.ValidShape(p.flow, SHORT);
  }

  // A packet that repeats the last number under another source time queues all 65535 others.
  lemma RepeatFloods(p: Path, a: R.Arrival, m: Sender)
    requires Ready(p, a, SHORT) && p.flow.queue.hasItems && a.packet.seqNum == p.flow.queue.lastSeqFound
    requires !a.retry && !a.outOfMemory && !R.Behind(p.flow, a) && Enqueue(p, a, m, SHORT).1.Stored?
    requires !m.bloated && p.missing.counter <= m.missingMax
    ensures |Enqueue(p, a, m, SHORT).0.missing.entries| == |p.missing.entries| + 0xFFFF
  {
    GapAtEnds(p, a, m, SHORT);
    assert Jumps(p.flow, a, SHORT);
    JumpAppends(p, a, m, SHORT);
    hide Enqueue, GapAt, Q.Marked;
    Q.RepeatMarksEverything(GapAt(p, a, m, SHORT));
  }

  // Number 0 at this source time, with a clock that agrees with the source's: the first such packet sets the
  // offset between the two to zero.
  function Packet0(sourceTime: U64): R.Arrival {
    R.Arrival(R.Packet(0, sourceTime, 1, sourceTime, sourceTime), false, sourceTime, sourceTime, 0, false, false)
  }

  // Two packets suffice: number 0 opens the stream, and number 0 comes again one tick later.
  lemma FloodReached(m: Sender)
    requires !m.bloated
    ensures Ready(Path(R.Fresh(SHORT), Q.START), Packet0(0), SHORT)
    ensures var p := Enqueue(Path(R.Fresh(SHORT), Q.START), Packet0(0), m, SHORT).0;
      Ready(p, Packet0(1), SHORT) && |Enqueue(p, Packet0(1), m, SHORT).0.missing.entries| == 0xFFFF
  {
    R.FreshIsValid(SHORT);
    var start := Path(R.Fresh(SHORT), Q.START);
    R.ValidShape(start.flow, SHORT);
    R.EnqueueKeepsValid(start.flow, Packet0(0), SHORT);
    var p := Enqueue(start, Packet0(0), m, SHORT).0;
    hide R.OccupiedBytes, R.Valid;
    assert p.flow == R.Restart(start.flow, Packet0(0), SHORT);
    assert p.flow.queue.slots[0].Held? && p.flow.queue.slots[0].packet.sourceTime == 0;
    RepeatFloods(p, Packet0(1), m);
  }

  // ---- a NACK pass ----

  // The slot a queued number shares with all numbers equal to it modulo the size of the ring.
  function RingOf(slots: seq<R.Slot>): U32 -> Q.Occupant
    requires |slots| > 0
  {
    n => if slots[n % |slots|].Held? then Q.Packet(slots[n % |slots|].packet.seqNum) else Q.Nobody
  }

  function EnvOf(slots: seq<R.Slot>, r: Round): Q.Env
    requires |slots| > 0
  {
    Q.Env(RingOf(slots), r.peers, r.now, r.recovery, r.hasPeers)
  }

  function Nack(p: Path, r: Round): Path
    requires |p.flow.queue.slots| > 0
  {
    p.(missing := Q.Apply(p.missing, Q.Pass(EnvOf(p.flow.queue.slots, r))))
  }

  predicate SlotFree(slots: seq<R.Slot>, n: U32)
    requires |slots| > 0
  {
    slots[n % |slots|].Free?
  }

  // An entry whose slot is taken is removed, and one that stays keeps its number.
  lemma TakenIsRemoved(slots: seq<R.Slot>, e: Q.Entry, i: nat, r: Round)
    requires |slots| > 0
    ensures Q.Decide(e, i, EnvOf(slots, r)).Remove? || SlotFree(slots, e.seqNum)
  {
    assert RingOf(slots)(e.seqNum).Packet? <==> slots[e.seqNum % |slots|].Held?;
  }

  lemma {:induction false} SurvivorsAreHoles(slots: seq<R.Slot>, entries: seq<Q.Entry>, i: nat, r: Round)
    requires |slots| > 0 && i <= |entries|
    ensures forall e :: e in Q.Survivors(entries, i, EnvOf(slots, r)) ==> SlotFree(slots, e.seqNum)
    decreases |entries| - i
  {
    hide Q.Decide, SlotFree, EnvOf;
    if i < |entries| {
      TakenIsRemoved(slots, entries[i], i, r);
      SurvivorsAreHoles(slots, entries, i + 1, r);
    }
  }

  lemma {:induction false} RequestsAreHoles(slots: seq<R.Slot>, entries: seq<Q.Entry>, i: nat, r: Round)
    requires |slots| > 0 && i <= |entries|
    ensures forall n :: n in Q.Requests(entries, i, EnvOf(slots, r)) ==> SlotFree(slots, n)
    decreases |entries| - i
  {
    hide Q.Decide, SlotFree, EnvOf;
    if i < |entries| {
      TakenIsRemoved(slots, entries[i], i, r);
      RequestsAreHoles(slots, entries, i + 1, r);
    }
  }

  // What a pass leaves queued, and what it asks for, are numbers whose slot in the ring is empty.
  lemma PassLeavesHoles(p: Path, r: Round)
    requires |p.flow.queue.slots| > 0
    ensures forall e :: e in Nack(p, r).missing.entries ==> SlotFree(p.flow.queue.slots, e.seqNum)
    ensures forall n :: n in Q.Requests(p.missing.entries, 0, EnvOf(p.flow.queue.slots, r)) ==>
      SlotFree(p.flow.queue.slots, n)
  {
    hide SlotFree, EnvOf;
    SurvivorsAreHoles(p.flow.queue.slots, p.missing.entries, 0, r);
    RequestsAreHoles(p.flow.queue.slots, p.missing.entries, 0, r);
  }

  // ---- runs ----

  datatype Event =
    | Arrive(arrival: R.Arrival, sender: Sender)
    | Output(clock: R.Clock)
    | Report
    | NewFlowId
    | Ask(round: Round)

  ghost predicate EventOk(e: Event, retries: nat -> nat) {
    && (e.Arrive? ==> e.arrival.packet.size > 0 && e.arrival.packet.seqNum < 0x1_0000)
    && (e.Ask? ==> forall p: nat :: e.round.peers(p).maxRetries == retries(p))
  }

  ghost predicate Sound(p: Path, c: R.Config, retries: nat -> nat) {
    R.Valid(p.flow, c) && Narrow(p.flow) && Q.Sound(p.missing, c.shortSeq, retries)
  }

  ghost function Apply(p: Path, e: Event, c: R.Config, retries: nat -> nat): Path
    requires Sound(p, c, retries) && EventOk(e, retries)
  {
    match e
    case Arrive(a, m) => Enqueue(p, a, m, c).0
    case Output(clock) => p.(flow := R.Apply(p.flow, R.Pass(clock), c))
    case Report => p.(flow := R.Apply(p.flow, R.Report, c))
    case NewFlowId => p.(flow := R.Apply(p.flow, R.NewFlowId, c))
    case Ask(r) => R.ValidShape(p.flow, c); Nack(p, r)
  }

  // The last number found is an old one or the packet's.
  lemma EnqueueKeepsNarrow(f: R.Flow, a: R.Arrival, c: R.Config)
    requires R.Valid(f, c) && a.packet.size > 0 && Narrow(f) && a.packet.seqNum < 0x1_0000
    ensures Narrow(R.Enqueue(f, a, c).0)
  {
    hide R.OccupiedBytes, R.Behind, R.TooLate;
  }

  lemma {:induction false} OutputKeepsNarrow(f: R.Flow, i: nat, now: U64, clock: R.Clock, c: R.Config)
    requires R.Valid(f, c)
    ensures R.Output(f, i, now, clock, c).queue.lastSeqFound == f.queue.lastSeqFound
    decreases f.queue.size
  {
    hide R.Valid, R.Holes, R.Decide, R.OccupiedBytes, R.OutputOnce;
    if f.queue.size > 0 {
      R.ValidShape(f, c);
      R.OutputOnceKeepsValid(f, now, clock.now(i), clock, c);
      StepKeepsNarrow(f, now, clock.now(i), clock, c);
      var (f', more) := R.OutputOnce(f, now, clock.now(i), clock, c);
      if more { OutputKeepsNarrow(f', i + 1, clock.now(i), clock, c); }
    }
  }

  lemma StepKeepsNarrow(f: R.Flow, now: U64, next: U64, clock: R.Clock, c: R.Config)
    requires R.Valid(f, c)
    ensures R.OutputOnce(f, now, next, clock, c).0.queue.lastSeqFound == f.queue.lastSeqFound
  {
    hide R.OccupiedBytes, R.Decide, R.FatesOk, R.CursorOk;
  }

  lemma EnqueueKeepsSound(p: Path, a: R.Arrival, m: Sender, c: R.Config, retries: nat -> nat)
    requires Sound(p, c, retries) && a.packet.size > 0 && a.packet.seqNum < 0x1_0000
    ensures Sound(Enqueue(p, a, m, c).0, c, retries)
  {
    hide R.Enqueue, Q.Apply, Q.Sound;
    R.EnqueueKeepsValid(p.flow, a, c);
    EnqueueKeepsNarrow(p.flow, a, c);
    var f' := R.Enqueue(p.flow, a, c).0;
    R.ValidShape(f', c);
    var g := GapBefore(f'.queue.slots, p.flow.queue.lastSeqFound, a, m, p.missing.counter, c);
    Q.ApplyKeepsSound(p.missing, Q.Mark(g, m.clock), c.shortSeq, retries);
    Q.ApplyKeepsSound(p.missing, Q.Flush, c.shortSeq, retries);
  }

  lemma ApplyKeepsSound(p: Path, e: Event, c: R.Config, retries: nat -> nat)
    requires Sound(p, c, retries) && EventOk(e, retries)
    ensures Sound(Apply(p, e, c, retries), c, retries)
  {
    hide R.Valid, Q.Apply, Q.Sound, Enqueue, R.Output;
    match e
    case Arrive(a, m) => EnqueueKeepsSound(p, a, m, c, retries);
    case Output(clock) =>
      R.ApplyKeepsValid(p.flow, R.Pass(clock), c);
      OutputKeepsNarrow(p.flow, 1, clock.now(0), clock, c);
    case Report => R.ApplyKeepsValid(p.flow, R.Report, c);
    case NewFlowId => R.ApplyKeepsValid(p.flow, R.NewFlowId, c);
    case Ask(r) =>
      R.ValidShape(p.flow, c);
      Q.ApplyKeepsSound(p.missing, Q.Pass(EnvOf(p.flow.queue.slots, r)), c.shortSeq, retries);
  }

  lemma StartIsSound(c: R.Config, retries: nat -> nat)
    requires R.ConfigOk(c)
    ensures Sound(Path(R.Fresh(c), Q.START), c, retries)
  {
    R.FreshIsValid(c);
    Q.StartIsSound(c.shortSeq, retries);
  }

  // Ring and queue keep their invariants together, and the last number found always has a slot, so the times
  // between which a gap is spread are those of slots of the ring.
  ghost function Run(events: seq<Event>, c: R.Config, retries: nat -> nat): (p: Path)
    requires R.ConfigOk(c) && forall e :: e in events ==> EventOk(e, retries)
    ensures Sound(p, c, retries) && p.flow.queue.lastSeqFound < |p.flow.queue.slots|
  {
    hide Sound, Apply;
    if events == [] then
      StartIsSound(c, retries);
      SoundShape(Path(R.Fresh(c), Q.START), c, retries);
      Path(R.Fresh(c), Q.START)
    else
      var p := Run(events[..|events| - 1], c, retries);
      ApplyKeepsSound(p, events[|events| - 1], c, retries);
      SoundShape(Apply(p, events[|events| - 1], c, retries), c, retries);
      Apply(p, events[|events| - 1], c, retries)
  }

  lemma SoundShape(p: Path, c: R.Config, retries: nat -> nat)
    requires Sound(p, c, retries)
    ensures p.flow.queue.lastSeqFound < |p.flow.queue.slots| == c.max
  {
    hide R.OccupiedBytes;
  }

  // ---- the flow as the library keeps it ----

  ghost predicate InWidth(entries: seq<Q.Entry>, c: R.Config) {
    forall i :: 0 <= i < |entries| ==> entries[i].seqNum < Q.Modulus(c.shortSeq)
  }

  lemma MarkedInWidth(s: Q.State, g: Q.Gap, clock: nat -> U64, c: R.Config)
    requires InWidth(s.entries, c) && g.shortSeq == c.shortSeq
    ensures InWidth(Q.Apply(s, Q.Mark(g, clock)).entries, c)
  {
    hide Q.Marked;
  }

  lemma RingHolds(f: R.Flow, c: R.Config)
    requires R.Valid(f, c)
    ensures |f.queue.slots| == c.max && c.max >= 0x1_0000
  {
    hide R.OccupiedBytes;
  }

  // With 16-bit numbers or a peer to send to, the pass stays inside the array of requests.
  lemma PassIsSafe(n: Q.Nacks, entries: seq<Q.Entry>, env: Q.Env, c: R.Config)
    requires InWidth(entries, c) && |n.pending| <= Q.MAX_NACKS && (c.shortSeq || env.hasPeers)
    ensures Q.PassFits(n, entries, 0, env) && InWidth(Q.Survivors(entries, 0, env), c)
  {
    Q.PassFitsWhen(n, entries, env);
    Q.SurvivorsKeepNumbers(entries, 0, env, Q.Modulus(c.shortSeq));
  }

  class RistFlow {
    const ring: F.ReceiverFlow
    const missing: L.MissingFlow
    var flowIdActual: U32

    ghost predicate Ok()
      reads this, ring, ring.slots, missing, missing.spine
    {
      ring.Ok() && missing.Valid() && ring.marks.lastSeqFound < 0x1_0000 && InWidth(missing.entries, ring.config)
    }

    ghost function View(): Path
      requires missing.Valid()
      reads this, ring, ring.slots, missing, missing.spine, missing.nackArray
    {
      Path(ring.View(), missing.View())
    }

    constructor (c: R.Config, flowId: U32)
      requires R.ConfigOk(c)
      ensures Ok() && View() == Path(R.Fresh(c), Q.START) && ring.config == c && flowIdActual == flowId
      ensures fresh(ring) && fresh(ring.slots) && fresh(missing) && missing.spine == []
    {
      ring := new F.ReceiverFlow(c);
      missing := new L.MissingFlow();
      flowIdActual := flowId;
    }

    // Spreads the gap between the times of the two packets, read from the ring.
    method MarkMissing(last: U32, a: R.Arrival, m: Sender)
      requires Ok() && last < 0x1_0000 && a.packet.seqNum < 0x1_0000
      modifies missing, missing.spine
      ensures Ok() && ring.View() == old(ring.View())
      ensures last < ring.slots.Length && a.packet.seqNum < ring.slots.Length
      ensures var g := GapBefore(ring.slots[..], last, a, m, old(missing.missingCounter), ring.config);
        missing.View() == Q.Apply(old(missing.View()), Q.Mark(g, m.clock))
    {
      RingHolds(ring.View(), ring.config);
      hide R.OccupiedBytes, R.Valid, Q.Apply, Q.Nacked, L.Linked, InWidth;
      var current := a.packet.seqNum;
      var timeLast: U64 := if ring.slots[last].Held? then ring.slots[last].packet.packetTime else m.lastTime;
      var timeNow: U64 := if ring.slots[current].Held? then ring.slots[current].packet.packetTime else 0;
      var blocked := m.bloated || missing.missingCounter > m.missingMax;
      var c := ring.config;
      var g := Q.Gap(last, current, c.shortSeq, c.max, blocked, timeLast, timeNow, m.peer, m.rtt, a.recovery);
      MarkedInWidth(missing.View(), g, m.clock, c);
      missing.ReceiverMarkMissing(g, m.bloated, m.missingMax, m.clock);
    }

    method ReceiverEnqueue(a: R.Arrival, m: Sender) returns (v: R.Verdict)
      requires Ok() && a.packet.size > 0 && a.packet.seqNum < 0x1_0000
      modifies ring, ring.slots, missing, missing.spine
      ensures Ok() && (View(), v) == Enqueue(old(View()), a, m, ring.config)
    {
      hide R.OccupiedBytes, R.Valid, R.Enqueue, Q.Apply;
      ghost var before := View();
      EnqueueKeepsNarrow(before.flow, a, ring.config);
      var first, last := !ring.marks.hasItems, ring.marks.lastSeqFound;
      var behind := a.packet.packetTime < a.lastPacketTs && a.packet.seqNum != R.ExpectedSeq(last);
      v := ring.ReceiverEnqueue(a);
      if first && v.Stored? {
        missing.FlushMissing();
      } else if v.Stored? && !a.retry && !a.outOfMemory && !behind && Previous(a.packet.seqNum, ring.config) != last {
        MarkMissing(last, a, m);
      }
    }

    // A packet announcing another flow than the one in force makes the stream start afresh.
    method ReceiverRecvData(a: R.Arrival, m: Sender, flowId: U32, otherSource: bool) returns (v: R.Verdict)
      requires Ok() && a.packet.size > 0 && a.packet.seqNum < 0x1_0000
      modifies this, ring, ring.slots, missing, missing.spine
      ensures Ok() && flowIdActual == if otherSource then flowId else old(flowIdActual)
      ensures var was := old(View());
        var p := if otherSource && old(flowIdActual) != flowId then was.(flow := R.Forget(was.flow)) else was;
        Ready(p, a, ring.config) && (View(), v) == Enqueue(p, a, m, ring.config)
    {
      hide R.OccupiedBytes, R.Valid, Enqueue;
      if otherSource && flowIdActual != flowId {
        ring.ForgetStream();
        flowIdActual := flowId;
      }
      v := ReceiverEnqueue(a, m);
    }

    method ReceiverNackOutput(authenticated: bool, r: Round)
      requires Ok() && (ring.config.shortSeq || r.hasPeers)
      modifies missing, missing.spine, missing.nackArray
      ensures Ok() && ring.slots.Length > 0
      ensures View() == if authenticated then Nack(old(View()), r) else old(View())
    {
      hide R.OccupiedBytes, R.Valid, Q.Survivors, Q.NackPass, Q.Counted, Q.PassFits;
      R.ValidShape(ring.View(), ring.config);
      var env := EnvOf(ring.slots[..], r);
      PassIsSafe(missing.Waiting(), missing.entries, env, ring.config);
      missing.ReceiverNackOutput(authenticated, env);
    }
  }
}
