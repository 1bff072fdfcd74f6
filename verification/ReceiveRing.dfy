// The sequence-indexed receive ring of a flow: what enqueueing a packet and one output pass do to it.
module ReceiveRing {
  import opened Bytes

  datatype Packet = Packet(seqNum: U32, sourceTime: U64, size: nat, time: U64, packetTime: U64)

  // Arrival numbers name the packet objects: the n-th accepted packet is arrival n.
  datatype Slot = Free | Held(packet: Packet, arrival: nat, target: U64)

  datatype Block = Block(packet: Packet, arrival: nat, discontinuity: bool, flowStart: bool)

  datatype Fate = Waiting(slot: nat) | Delivered(position: nat) | Discarded

  datatype Config = Config(max: nat, shortSeq: bool)

  datatype Queue = Queue(slots: seq<Slot>, size: nat, readIdx: nat, hasItems: bool, lastSeqFound: U32)

  datatype Cursor = Cursor(lastSeqOutput: U32, flowStart: bool, lastOutputTime: U64, tooLate: nat)

  datatype Stats = Stats(droppedLate: nat, received: nat, droppedFull: nat)

  // What has happened so far: the accepted packets, what became of each, and the blocks handed to the
  // application.
  datatype Log = Log(accepted: seq<Packet>, fates: seq<Fate>, delivered: seq<Block>)

  // replaced: the bytes of replaced packets still counted in the queue size.
  datatype Flow = Flow(queue: Queue, cursor: Cursor, stats: Stats, log: Log, replaced: nat)

  predicate ConfigOk(c: Config) { c.max == 0x1_0000 || c.max == 0x8_0000 }

  function Fresh(c: Config): Flow {
    Flow(Queue(seq(c.max, i => Free), 0, 0, false, 0), Cursor(0, false, 0, 0), Stats(0, 0, 0), Log([], [], []), 0)
  }

  // ---- the log ----

  function Accept(l: Log, p: Packet, slot: nat): Log {
    l.(accepted := l.accepted + [p], fates := l.fates + [Waiting(slot)])
  }

  function Discard(l: Log, arrival: nat): Log
    requires arrival < |l.fates|
  {
    l.(fates := l.fates[arrival := Discarded])
  }

  function Deliver(l: Log, b: Block): Log
    requires b.arrival < |l.fates|
  {
    l.(fates := l.fates[b.arrival := Delivered(|l.delivered|)], delivered := l.delivered + [b])
  }

  function DiscardWaiting(l: Log): Log {
    l.(fates := seq(|l.fates|, i requires 0 <= i < |l.fates| => if l.fates[i].Waiting? then Discarded else l.fates[i]))
  }

  // ---- what every reachable state satisfies ----

  function Weight(s: Slot): nat { if s.Held? then s.packet.size else 0 }

  function OccupiedBytes(slots: seq<Slot>): nat {
    if slots == [] then 0 else OccupiedBytes(slots[..|slots| - 1]) + Weight(slots[|slots| - 1])
  }

  function Before(idx: nat, max: nat): nat
    requires idx < max
  {
    if idx == 0 then max - 1 else idx - 1
  }

  ghost predicate SlotsOk(slots: seq<Slot>, l: Log, c: Config) {
    && |slots| == c.max && |l.accepted| == |l.fates|
    && (forall i :: 0 <= i < c.max && slots[i].Held? ==>
          && slots[i].arrival < |l.fates| && l.fates[slots[i].arrival] == Waiting(i)
          && slots[i].packet == l.accepted[slots[i].arrival]
          && slots[i].packet.seqNum % c.max == i && slots[i].packet.size > 0)
  }

  ghost predicate FatesOk(slots: seq<Slot>, l: Log) {
    && |l.accepted| == |l.fates|
    && (forall n :: 0 <= n < |l.fates| && l.fates[n].Waiting? ==>
          l.fates[n].slot < |slots| && slots[l.fates[n].slot].Held? && slots[l.fates[n].slot].arrival == n)
    && (forall n :: 0 <= n < |l.fates| && l.fates[n].Delivered? ==>
          l.fates[n].position < |l.delivered| && l.delivered[l.fates[n].position].arrival == n)
    && (forall p :: 0 <= p < |l.delivered| ==>
          && l.delivered[p].arrival < |l.fates| && l.fates[l.delivered[p].arrival] == Delivered(p)
          && l.delivered[p].packet == l.accepted[l.delivered[p].arrival])
  }

  // The next sequence number after s, in the flow's width.
  function Next(s: U32, c: Config): U32 {
    if c.shortSeq then (s + 1) % 0x1_0000 else (s + 1) % 0x1_0000_0000
  }

  // Every block that opens neither the stream nor a gap follows its predecessor directly.
  ghost predicate Announced(delivered: seq<Block>, c: Config) {
    && (delivered != [] ==> delivered[0].flowStart)
    && (forall p :: 0 < p < |delivered| && !delivered[p].flowStart && !delivered[p].discontinuity ==>
          delivered[p].packet.seqNum == Next(delivered[p - 1].packet.seqNum, c))
  }

  ghost predicate CursorOk(f: Flow, c: Config) {
    && (!f.cursor.flowStart && f.log.delivered != [] ==>
          f.cursor.lastSeqOutput == f.log.delivered[|f.log.delivered| - 1].packet.seqNum)
    && (f.log.delivered == [] && f.log.accepted != [] ==> f.cursor.flowStart)
    && (f.queue.hasItems && f.log.delivered == [] ==> f.cursor.flowStart)
    && Announced(f.log.delivered, c)
  }

  ghost predicate Valid(f: Flow, c: Config) {
    && ConfigOk(c) && SlotsOk(f.queue.slots, f.log, c) && FatesOk(f.queue.slots, f.log) && CursorOk(f, c)
    && f.queue.readIdx < c.max && f.queue.slots[Before(f.queue.readIdx, c.max)].Free?
    && f.queue.size == OccupiedBytes(f.queue.slots) + f.replaced
  }

  // ---- enqueue ----

  // A packet from the network, with the clock readings and the allocator's answer it meets. lastPacketTs
  // is the newest packet time after this packet's own has been computed.
  datatype Arrival = Arrival(packet: Packet, retry: bool, now: U64, lastPacketTs: U64, recovery: U64, noOffset: bool,
                             outOfMemory: bool)

  datatype Verdict = Stored | Duplicate | Refused

  function Insert(f: Flow, a: Arrival, idx: nat): Flow
    requires idx < |f.queue.slots|
  {
    if a.outOfMemory then f.(queue := f.queue.(slots := f.queue.slots[idx := Free]))
    else
      var s := Held(a.packet, |f.log.accepted|, Wrap64(a.packet.packetTime + a.recovery));
      f.(queue := f.queue.(slots := f.queue.slots[idx := s], size := f.queue.size + a.packet.size),
         log := Accept(f.log, a.packet, idx))
  }

  // The first packet of a flow, or the first after a reset: old data goes, and the read index moves to it.
  function Restart(f: Flow, a: Arrival, c: Config): Flow
    requires c.max > 0 && f.queue.size >= OccupiedBytes(f.queue.slots)
  {
    var idx := a.packet.seqNum % c.max;
    var emptied := f.queue.(slots := seq(c.max, i => Free), size := f.queue.size - OccupiedBytes(f.queue.slots));
    var f' := Insert(f.(queue := emptied, log := DiscardWaiting(f.log)), a, idx);
    f'.(queue := f'.queue.(readIdx := idx, hasItems := true, lastSeqFound := a.packet.seqNum),
        cursor := f'.cursor.(lastSeqOutput := (a.packet.seqNum - 1) % 0x1_0000_0000, flowStart := true),
        stats := Stats(0, 0, 0))
  }

  function ExpectedSeq(lastSeqFound: U32): nat { (lastSeqFound + 1) % 0x1_0000 / 2 * 2 }

  // The mask leaves out the lowest bit, so the number after the last one found is recognised as the expected one
  // exactly when it is even.
  lemma ExpectedOnlyWhenEven(lastSeqFound: U32)
    ensures ExpectedSeq(lastSeqFound) == (lastSeqFound + 1) % 0x1_0000 <==> (lastSeqFound + 1) % 2 == 0
  {
  }

  predicate Behind(f: Flow, a: Arrival) {
    a.packet.packetTime < a.lastPacketTs && a.packet.seqNum != ExpectedSeq(f.queue.lastSeqFound)
  }

  predicate TooLate(a: Arrival) { 10 * a.now > 10 * a.packet.packetTime + 11 * a.recovery }

  function RefuseLate(f: Flow): Flow {
    var s := f.stats.(droppedLate := f.stats.droppedLate + 1);
    f.(stats := s, queue := f.queue.(hasItems := f.queue.hasItems && s.droppedLate <= 5 * s.received))
  }

  function RefuseFull(f: Flow, a: Arrival): Flow {
    var s := f.stats.(droppedFull := f.stats.droppedFull + 1);
    var last := if a.packet.packetTime > a.lastPacketTs then a.packet.seqNum else f.queue.lastSeqFound;
    f.(stats := s, queue := f.queue.(lastSeqFound := last, hasItems := f.queue.hasItems && s.droppedFull <= 100))
  }

  // A different packet in the slot is freed, but its bytes stay in the queue size.
  function Replace(f: Flow, idx: nat): Flow
    requires idx < |f.queue.slots|
    requires f.queue.slots[idx].Held? ==> f.queue.slots[idx].arrival < |f.log.fates|
  {
    var s := f.queue.slots[idx];
    if s.Free? then f
    else f.(queue := f.queue.(slots := f.queue.slots[idx := Free]),
            log := Discard(f.log, s.arrival), replaced := f.replaced + s.packet.size)
  }

  function Store(f: Flow, a: Arrival, idx: nat): Flow
    requires idx < |f.queue.slots|
    requires f.queue.slots[idx].Held? ==> f.queue.slots[idx].arrival < |f.log.fates|
  {
    var f' := Insert(Replace(f, idx), a, idx);
    if a.outOfMemory then f'
    else
      var last := if a.retry || Behind(f, a) then f'.queue.lastSeqFound else a.packet.seqNum;
      f'.(stats := f'.stats.(received := f'.stats.received + 1), queue := f'.queue.(lastSeqFound := last))
  }

  function Enqueue(f: Flow, a: Arrival, c: Config): (r: (Flow, Verdict))
    requires SlotsOk(f.queue.slots, f.log, c) && f.queue.readIdx < c.max && f.queue.size >= OccupiedBytes(f.queue.slots)
  {
    var idx := a.packet.seqNum % c.max;
    if (!f.queue.hasItems && a.retry) || a.noOffset then (f, Refused)
    else if !f.queue.hasItems then (Restart(f, a, c), Stored)
    else if Behind(f, a) && TooLate(a) then (RefuseLate(f), Refused)
    else if idx == Before(f.queue.readIdx, c.max) then (RefuseFull(f, a), Refused)
    else if f.queue.slots[idx].Held? && f.queue.slots[idx].packet.sourceTime == a.packet.sourceTime then (f, Duplicate)
    else (Store(f, a, idx), Stored)
  }

  // ---- output ----

  // Readings of the clock during one output pass, the recovery buffer, and whether it is being rescaled.
  datatype Clock = Clock(now: nat -> U64, recovery: U64, scaling: bool)

  // How many slots from readIdx on are free, at least h of them; the ring's length when all are.
  function Holes(slots: seq<Slot>, readIdx: nat, h: nat): (n: nat)
    requires readIdx < |slots| && h <= |slots|
    ensures h <= n <= |slots|
    ensures n < |slots| ==> slots[(readIdx + n) % |slots|].Held?
    decreases |slots| - h
  {
    if h == |slots| || slots[(readIdx + h) % |slots|].Held? then h else Holes(slots, readIdx, h + 1)
  }

  function Age(p: Packet, now: U64): U64 { Wrap64(now - p.time) }

  datatype Decision = Wait | Release | Drop

  // What the clock says about the first packet found: now is the reading of the previous iteration,
  // next the current one.
  function Decide(s: Slot, holes: nat, now: U64, next: U64, clock: Clock): Decision
    requires s.Held?
  {
    if holes > 0 && Age(s.packet, now) <= 2 * clock.recovery && s.target > now then Wait
    else if 10 * Age(s.packet, next) > 11 * clock.recovery then
      if Age(s.packet, next) > 2 * clock.recovery then Drop else Release
    else if s.target > next && (!clock.scaling || Wrap64(s.packet.packetTime + clock.recovery) > next) then Wait
    else Release
  }

  // A packet of ordinary age is not released before its target time unless the buffer is being rescaled, one
  // that is due is not kept waiting, and only one older than twice the buffer is dropped.
  lemma ReleasedInTime(s: Slot, holes: nat, now: U64, next: U64, clock: Clock)
    requires s.Held?
    ensures Decide(s, holes, now, next, clock).Release? && 10 * Age(s.packet, next) <= 11 * clock.recovery ==>
      s.target <= next || (clock.scaling && Wrap64(s.packet.packetTime + clock.recovery) <= next)
    ensures s.target <= now && s.target <= next ==> !Decide(s, holes, now, next, clock).Wait?
    ensures Decide(s, holes, now, next, clock).Drop? ==> Age(s.packet, next) > 2 * clock.recovery
  {
  }

  // The block handed over carries the gap flag when slots were skipped or the number is not the next one.
  function HandOver(f: Flow, s: Slot, holes: nat, next: U64, c: Config): Flow
    requires s.Held? && s.arrival < |f.log.fates|
  {
    var gap := holes > 0 || s.packet.seqNum != Next(f.cursor.lastSeqOutput, c);
    f.(log := Deliver(f.log, Block(s.packet, s.arrival, gap, f.cursor.flowStart)),
       cursor := Cursor(s.packet.seqNum, false, next, 0))
  }

  // Frees the slot and moves the read index past it; an emptied queue may end the flow.
  function Advance(f: Flow, idx: nat, next: U64, clock: Clock, c: Config): (r: (Flow, bool))
    requires idx < |f.queue.slots| == c.max && f.queue.slots[idx].Held?
    requires f.queue.slots[idx].packet.size <= f.queue.size
  {
    var size := f.queue.size - f.queue.slots[idx].packet.size;
    var q := f.queue.(slots := f.queue.slots[idx := Free], size := size, readIdx := (idx + 1) % c.max);
    var last := if size == 0 && f.cursor.lastOutputTime != 0 then f.cursor.lastOutputTime else next;
    var dead := size == 0 && Wrap64(next - last) > clock.recovery;
    (f.(queue := q.(hasItems := q.hasItems && !dead), cursor := f.cursor.(lastOutputTime := last)), size > 0)
  }

  // One iteration of the output loop; the second result says whether the loop goes on.
  function OutputOnce(f: Flow, now: U64, next: U64, clock: Clock, c: Config): (r: (Flow, bool))
    requires SlotsOk(f.queue.slots, f.log, c) && f.queue.readIdx < c.max && f.queue.size >= OccupiedBytes(f.queue.slots)
  {
    var holes := Holes(f.queue.slots, f.queue.readIdx, 0);
    if holes == c.max then
      (f.(queue := f.queue.(hasItems := false, size := 0), replaced := 0), false)
    else
      var idx := (f.queue.readIdx + holes) % c.max;
      var s := f.queue.slots[idx];
      WeightWithin(f.queue.slots, idx);
      match Decide(s, holes, now, next, clock)
      case Wait => (f, false)
      case Release => Advance(HandOver(f, s, holes, next, c), idx, next, clock, c)
      case Drop =>
        var tooLate := f.cursor.tooLate + 1;
        var f' := f.(cursor := f.cursor.(tooLate := tooLate));
        if tooLate > 100 then (f'.(queue := f'.queue.(hasItems := false)), false)
        else Advance(f'.(log := Discard(f'.log, s.arrival)), idx, next, clock, c)
  }

  function Output(f: Flow, i: nat, now: U64, clock: Clock, c: Config): Flow
    requires Valid(f, c)
    decreases f.queue.size
  {
    if f.queue.size == 0 then f
    else
      var next := clock.now(i);
      var (f', more) := OutputOnce(f, now, next, clock, c);
      OutputOnceKeepsValid(f, now, next, clock, c);
      if more then Output(f', i + 1, next, clock, c) else f'
  }

  // ---- bytes ----

  lemma {:induction false} WeightWithin(slots: seq<Slot>, i: nat)
    requires i < |slots|
    ensures Weight(slots[i]) <= OccupiedBytes(slots)
  {
    if i < |slots| - 1 { WeightWithin(slots[..|slots| - 1], i); }
  }

  // Changing one slot changes the sum by the difference of the two weights.
  lemma {:induction false} BytesOfUpdate(slots: seq<Slot>, i: nat, s: Slot)
    requires i < |slots|
    ensures OccupiedBytes(slots[i := s]) == OccupiedBytes(slots) - Weight(slots[i]) + Weight(s)
  {
    var n := |slots| - 1;
    assert slots[i := s][..n] == if i < n then slots[..n][i := s] else slots[..n];
    if i < n { BytesOfUpdate(slots[..n], i, s); }
  }

  lemma {:induction false} BytesOfFree(slots: seq<Slot>)
    requires forall i :: 0 <= i < |slots| ==> slots[i].Free?
    ensures OccupiedBytes(slots) == 0
  {
    if slots != [] { BytesOfFree(slots[..|slots| - 1]); }
  }

  // ---- every step keeps the invariant ----

  lemma FreshIsValid(c: Config)
    requires ConfigOk(c)
    ensures Valid(Fresh(c), c)
  {
    hide OccupiedBytes;
    BytesOfFree(Fresh(c).queue.slots);
  }

  lemma InsertKeepsSlots(f: Flow, a: Arrival, idx: nat, c: Config)
    requires SlotsOk(f.queue.slots, f.log, c) && FatesOk(f.queue.slots, f.log) && a.packet.size > 0
    requires idx < c.max && idx == a.packet.seqNum % c.max && f.queue.slots[idx].Free?
    ensures var f' := Insert(f, a, idx);
      && SlotsOk(f'.queue.slots, f'.log, c) && FatesOk(f'.queue.slots, f'.log)
      && OccupiedBytes(f'.queue.slots) - f'.queue.size == OccupiedBytes(f.queue.slots) - f.queue.size
  {
    hide OccupiedBytes;
    BytesOfUpdate(f.queue.slots, idx, Insert(f, a, idx).queue.slots[idx]);
  }

  lemma ReplaceKeepsSlots(f: Flow, idx: nat, c: Config)
    requires SlotsOk(f.queue.slots, f.log, c) && FatesOk(f.queue.slots, f.log) && idx < c.max
    ensures var f' := Replace(f, idx);
      && SlotsOk(f'.queue.slots, f'.log, c) && FatesOk(f'.queue.slots, f'.log) && f'.queue.slots[idx].Free?
      && OccupiedBytes(f'.queue.slots) + f'.replaced == OccupiedBytes(f.queue.slots) + f.replaced
  {
    hide OccupiedBytes;
    BytesOfUpdate(f.queue.slots, idx, Free);
  }

  lemma RestartKeepsValid(f: Flow, a: Arrival, c: Config)
    requires Valid(f, c) && a.packet.size > 0
    ensures Valid(Restart(f, a, c), c)
  {
    hide OccupiedBytes, Insert, Announced;
    var idx := a.packet.seqNum % c.max;
    var emptied := f.queue.(slots := seq(c.max, i => Free), size := f.queue.size - OccupiedBytes(f.queue.slots));
    var f' := f.(queue := emptied, log := DiscardWaiting(f.log));
    BytesOfFree(emptied.slots);
    InsertKeepsSlots(f', a, idx, c);
    InsertElsewhere(f', a, idx);
  }

  lemma InsertElsewhere(f: Flow, a: Arrival, idx: nat)
    requires idx < |f.queue.slots|
    ensures var f' := Insert(f, a, idx);
      && (forall i :: 0 <= i < |f.queue.slots| && i != idx ==> f'.queue.slots[i] == f.queue.slots[i])
      && f'.queue.readIdx == f.queue.readIdx && f'.queue.hasItems == f.queue.hasItems
      && f'.log.delivered == f.log.delivered && f'.replaced == f.replaced && f'.cursor == f.cursor
      && (f.log.accepted != [] ==> f'.log.accepted != [])
  {
  }

  lemma StoreKeepsValid(f: Flow, a: Arrival, c: Config)
    requires Valid(f, c) && a.packet.size > 0 && f.queue.hasItems
    requires a.packet.seqNum % c.max != Before(f.queue.readIdx, c.max)
    ensures Valid(Store(f, a, a.packet.seqNum % c.max), c)
  {
    hide OccupiedBytes, Insert, Announced, Behind;
    var idx := a.packet.seqNum % c.max;
    var f' := Replace(f, idx);
    ReplaceKeepsSlots(f, idx, c);
    InsertKeepsSlots(f', a, idx, c);
    InsertElsewhere(f', a, idx);
  }

  lemma EnqueueKeepsValid(f: Flow, a: Arrival, c: Config)
    requires Valid(f, c) && a.packet.size > 0
    ensures Valid(Enqueue(f, a, c).0, c)
  {
    hide OccupiedBytes, Announced, Restart, Store, Behind;
    if !f.queue.hasItems {
      RestartKeepsValid(f, a, c);
    } else if a.packet.seqNum % c.max != Before(f.queue.readIdx, c.max) {
      StoreKeepsValid(f, a, c);
    }
  }

  lemma HandOverKeepsSlots(f: Flow, idx: nat, holes: nat, next: U64, c: Config)
    requires SlotsOk(f.queue.slots, f.log, c) && FatesOk(f.queue.slots, f.log)
    requires idx < c.max && f.queue.slots[idx].Held?
    ensures var f' := HandOver(f, f.queue.slots[idx], holes, next, c);
      SlotsOk(f.queue.slots[idx := Free], f'.log, c)
  {
  }

  lemma HandOverKeepsFates(f: Flow, idx: nat, holes: nat, next: U64, c: Config)
    requires SlotsOk(f.queue.slots, f.log, c) && FatesOk(f.queue.slots, f.log)
    requires idx < c.max && f.queue.slots[idx].Held?
    ensures var f' := HandOver(f, f.queue.slots[idx], holes, next, c);
      FatesOk(f.queue.slots[idx := Free], f'.log)
  {
    HandOverKeepsSlots(f, idx, holes, next, c);
  }

  lemma HandOverKeepsCursor(f: Flow, idx: nat, holes: nat, next: U64, c: Config)
    requires SlotsOk(f.queue.slots, f.log, c) && CursorOk(f, c)
    requires idx < c.max && f.queue.slots[idx].Held?
    ensures CursorOk(HandOver(f, f.queue.slots[idx], holes, next, c), c)
  {
    HeldIsKnown(f.queue.slots, f.log, idx, c);
    hide SlotsOk;
  }

  lemma DropKeepsLog(f: Flow, idx: nat, c: Config)
    requires SlotsOk(f.queue.slots, f.log, c) && FatesOk(f.queue.slots, f.log)
    requires idx < c.max && f.queue.slots[idx].Held?
    ensures var l := Discard(f.log, f.queue.slots[idx].arrival);
      && SlotsOk(f.queue.slots[idx := Free], l, c)
      && FatesOk(f.queue.slots[idx := Free], l)
  {
  }

  lemma AdvanceKeepsValid(f: Flow, idx: nat, next: U64, clock: Clock, c: Config)
    requires ConfigOk(c) && idx < |f.queue.slots| == c.max && f.queue.slots[idx].Held?
    requires f.queue.slots[idx].packet.size > 0
    requires f.queue.size == OccupiedBytes(f.queue.slots) + f.replaced && CursorOk(f, c)
    requires SlotsOk(f.queue.slots[idx := Free], f.log, c)
    requires FatesOk(f.queue.slots[idx := Free], f.log)
    ensures f.queue.slots[idx].packet.size <= f.queue.size
    ensures var (f', more) := Advance(f, idx, next, clock, c);
      Valid(f', c) && f'.queue.size < f.queue.size
  {
    hide OccupiedBytes, Announced;
    WeightWithin(f.queue.slots, idx);
    BytesOfUpdate(f.queue.slots, idx, Free);
    assert Before((idx + 1) % c.max, c.max) == idx;
  }

  lemma HeldIsKnown(slots: seq<Slot>, l: Log, idx: nat, c: Config)
    requires SlotsOk(slots, l, c) && idx < |slots| && slots[idx].Held?
    ensures slots[idx].packet.size > 0 && slots[idx].arrival < |l.fates|
  {
  }

  lemma RingShape(slots: seq<Slot>, l: Log, c: Config)
    requires SlotsOk(slots, l, c)
    ensures |slots| == c.max
  {
  }

  lemma HandOverKeepsQueue(f: Flow, s: Slot, holes: nat, next: U64, c: Config)
    requires s.Held? && s.arrival < |f.log.fates|
    ensures var f' := HandOver(f, s, holes, next, c);
      f'.queue == f.queue && f'.replaced == f.replaced && f'.stats == f.stats
  {
  }

  // The scan of the whole ring misses no packet.
  lemma {:induction false} HolesAreFree(slots: seq<Slot>, readIdx: nat, h: nat, k: nat)
    requires readIdx < |slots| && h <= |slots| && h <= k < Holes(slots, readIdx, h)
    ensures slots[(readIdx + k) % |slots|].Free?
    decreases |slots| - h
  {
    if h < k { HolesAreFree(slots, readIdx, h + 1, k); }
  }

  lemma AllFreeSlots(f: Flow, c: Config)
    requires ConfigOk(c) && SlotsOk(f.queue.slots, f.log, c) && f.queue.readIdx < c.max
    requires Holes(f.queue.slots, f.queue.readIdx, 0) == c.max
    ensures forall i :: 0 <= i < |f.queue.slots| ==> f.queue.slots[i].Free?
  {
    hide OccupiedBytes, Holes;
    var q := f.queue;
    forall i | 0 <= i < c.max
      ensures q.slots[i].Free?
    {
      var k := if i >= q.readIdx then i - q.readIdx else i + c.max - q.readIdx;
      HolesAreFree(q.slots, q.readIdx, 0, k);
      assert (q.readIdx + k) % c.max == i;
    }
  }

  lemma AllFree(f: Flow, c: Config)
    requires ConfigOk(c) && SlotsOk(f.queue.slots, f.log, c) && f.queue.readIdx < c.max
    requires Holes(f.queue.slots, f.queue.readIdx, 0) == c.max
    ensures OccupiedBytes(f.queue.slots) == 0
  {
    hide OccupiedBytes, Holes;
    AllFreeSlots(f, c);
    BytesOfFree(f.queue.slots);
  }

  lemma OutputOnceKeepsValid(f: Flow, now: U64, next: U64, clock: Clock, c: Config)
    requires Valid(f, c)
    ensures var (f', more) := OutputOnce(f, now, next, clock, c);
      Valid(f', c) && (more ==> f'.queue.size < f.queue.size)
  {
    hide OccupiedBytes, Decide, HandOver, Advance, Announced, SlotsOk, FatesOk;
    RingShape(f.queue.slots, f.log, c);
    var holes := Holes(f.queue.slots, f.queue.readIdx, 0);
    if holes == c.max {
      AllFree(f, c);
    } else {
      var idx := (f.queue.readIdx + holes) % c.max;
      HeldIsKnown(f.queue.slots, f.log, idx, c);
      match Decide(f.queue.slots[idx], holes, now, next, clock)
      case Wait =>
      case Release =>
        HandOverKeepsSlots(f, idx, holes, next, c);
        HandOverKeepsFates(f, idx, holes, next, c);
        HandOverKeepsCursor(f, idx, holes, next, c);
        HandOverKeepsQueue(f, f.queue.slots[idx], holes, next, c);
        AdvanceKeepsValid(HandOver(f, f.queue.slots[idx], holes, next, c), idx, next, clock, c);
      case Drop =>
        DropKeepsLog(f, idx, c);
        var f' := f.(cursor := f.cursor.(tooLate := f.cursor.tooLate + 1));
        AdvanceKeepsValid(f'.(log := Discard(f.log, f.queue.slots[idx].arrival)), idx, next, clock, c);
    }
  }

  // ---- runs ----

  // What can happen to a flow: a packet, an output pass, the periodic report that zeroes the counters, and a
  // packet announcing another flow id, after which the next packet starts afresh.
  datatype Event = Arrive(arrival: Arrival) | Pass(clock: Clock) | Report | NewFlowId

  ghost predicate EventOk(e: Event) { e.Arrive? ==> e.arrival.packet.size > 0 }

  function Apply(f: Flow, e: Event, c: Config): Flow
    requires Valid(f, c)
  {
    match e
    case Arrive(a) => Enqueue(f, a, c).0
    case Pass(clock) => Output(f, 1, clock.now(0), clock, c)
    case Report => f.(stats := Stats(0, 0, 0))
    case NewFlowId => Forget(f)
  }

  function Forget(f: Flow): Flow { f.(queue := f.queue.(hasItems := false)) }

  lemma ValidShape(f: Flow, c: Config)
    requires Valid(f, c)
    ensures SlotsOk(f.queue.slots, f.log, c) && f.queue.readIdx < c.max
    ensures f.queue.size >= OccupiedBytes(f.queue.slots)
  {
  }

  lemma {:induction false} OutputKeepsValid(f: Flow, i: nat, now: U64, clock: Clock, c: Config)
    requires Valid(f, c)
    ensures Valid(Output(f, i, now, clock, c), c)
    decreases f.queue.size
  {
    hide OutputOnce, Valid;
    if f.queue.size > 0 {
      ValidShape(f, c);
      OutputOnceKeepsValid(f, now, clock.now(i), clock, c);
      var (f', more) := OutputOnce(f, now, clock.now(i), clock, c);
      if more { OutputKeepsValid(f', i + 1, clock.now(i), clock, c); }
    }
  }

  lemma ApplyKeepsValid(f: Flow, e: Event, c: Config)
    requires Valid(f, c) && EventOk(e)
    ensures Valid(Apply(f, e, c), c)
  {
    hide Output, Enqueue, OccupiedBytes, Announced;
    match e
    case Arrive(a) => EnqueueKeepsValid(f, a, c);
    case Pass(clock) => OutputKeepsValid(f, 1, clock.now(0), clock, c);
    case Report =>
    case NewFlowId =>
  }

  ghost function Run(events: seq<Event>, c: Config): (f: Flow)
    requires ConfigOk(c) && forall e :: e in events ==> EventOk(e)
    ensures Valid(f, c)
  {
    hide Valid, Apply;
    if events == [] then
      FreshIsValid(c);
      Fresh(c)
    else
      var f := Run(events[..|events| - 1], c);
      ApplyKeepsValid(f, events[|events| - 1], c);
      Apply(f, events[|events| - 1], c)
  }

  // No accepted packet is delivered twice, and what is delivered is the accepted packet.
  lemma DeliveredAtMostOnce(events: seq<Event>, c: Config, p: nat, k: nat)
    requires ConfigOk(c) && forall e :: e in events ==> EventOk(e)
    requires p < k < |Run(events, c).log.delivered|
    ensures var l := Run(events, c).log;
      && l.delivered[p].arrival != l.delivered[k].arrival
      && l.delivered[k].arrival < |l.accepted| && l.delivered[k].packet == l.accepted[l.delivered[k].arrival]
  {
    hide Run;
  }

  // Every accepted packet is waiting in the slot of its sequence number, delivered or discarded; nothing
  // waiting has been delivered.
  lemma EveryPacketAccountedFor(events: seq<Event>, c: Config, n: nat)
    requires ConfigOk(c) && forall e :: e in events ==> EventOk(e)
    requires n < |Run(events, c).log.accepted|
    ensures n < |Run(events, c).log.fates| && Accounted(Run(events, c), n, c)
  {
    hide Run, OccupiedBytes;
  }

  ghost predicate Accounted(f: Flow, n: nat, c: Config)
    requires n < |f.log.fates| && n < |f.log.accepted| && c.max > 0 && |f.queue.slots| == c.max
  {
    match f.log.fates[n]
    case Waiting(i) =>
      && i == f.log.accepted[n].seqNum % c.max && f.queue.slots[i].Held?
      && f.queue.slots[i].packet == f.log.accepted[n] && Undelivered(f, n)
    case Delivered(p) => p < |f.log.delivered| && f.log.delivered[p].arrival == n
    case Discarded => Undelivered(f, n)
  }

  ghost predicate Undelivered(f: Flow, n: nat) {
    forall p :: 0 <= p < |f.log.delivered| ==> f.log.delivered[p].arrival != n
  }

  // The byte counter never understates what is queued, and overstates it by exactly the replaced packets.
  lemma CounterCoversQueue(events: seq<Event>, c: Config)
    requires ConfigOk(c) && forall e :: e in events ==> EventOk(e)
    ensures var f := Run(events, c); f.queue.size == OccupiedBytes(f.queue.slots) + f.replaced
    ensures Run(events, c).queue.size == 0 ==> forall s :: s in Run(events, c).queue.slots ==> s.Free?
  {
    hide Run;
    var f := Run(events, c);
    forall i | 0 <= i < |f.queue.slots|
      ensures Weight(f.queue.slots[i]) <= OccupiedBytes(f.queue.slots)
    {
      WeightWithin(f.queue.slots, i);
    }
  }

  // The slot just before the read index is always free, so a full ring still tells its two ends apart.
  lemma SlotBeforeReaderFree(events: seq<Event>, c: Config)
    requires ConfigOk(c) && forall e :: e in events ==> EventOk(e)
    ensures var q := Run(events, c).queue; q.readIdx < |q.slots| && q.slots[Before(q.readIdx, |q.slots|)].Free?
  {
    hide Run, OccupiedBytes;
  }

  // A delivered block that neither opens a stream nor is marked as a gap carries the number right after
  // its predecessor's.
  lemma GapsAreAnnounced(events: seq<Event>, c: Config, p: nat)
    requires ConfigOk(c) && forall e :: e in events ==> EventOk(e)
    requires p < |Run(events, c).log.delivered|
    ensures var d := Run(events, c).log.delivered;
      d[p].flowStart || d[p].discontinuity || (p > 0 && d[p].packet.seqNum == Next(d[p - 1].packet.seqNum, c))
  {
    hide Run, OccupiedBytes;
  }

  // A second copy of a packet that has just been stored is refused and leaves everything as it is, unless it counts as
  // late by then.
  lemma SecondCopyIsRefused(f: Flow, a: Arrival, b: Arrival, c: Config)
    requires Valid(f, c) && a.packet.size > 0 && !a.outOfMemory
    requires b.packet.seqNum == a.packet.seqNum && b.packet.sourceTime == a.packet.sourceTime && !b.noOffset
    ensures SlotsOk(f.queue.slots, f.log, c) && f.queue.readIdx < c.max && f.queue.size >= OccupiedBytes(f.queue.slots)
    ensures var (f', verdict) := Enqueue(f, a, c);
      && Valid(f', c) && SlotsOk(f'.queue.slots, f'.log, c) && f'.queue.readIdx < c.max
      && f'.queue.size >= OccupiedBytes(f'.queue.slots)
      && (verdict.Stored? && !(Behind(f', b) && TooLate(b)) ==> Enqueue(f', b, c) == (f', Duplicate))
  {
    hide OccupiedBytes, Announced, Behind, TooLate, FatesOk;
    ValidShape(f, c);
    EnqueueKeepsValid(f, a, c);
    ValidShape(Enqueue(f, a, c).0, c);
  }

  // A packet out of order that is older than 1.1 times the buffer is refused: the ring, the reader and the log stay.
  lemma LatePacketIsRefused(f: Flow, a: Arrival, c: Config)
    requires Valid(f, c) && f.queue.hasItems && !a.noOffset
    requires a.packet.packetTime < a.lastPacketTs && a.packet.seqNum != (f.queue.lastSeqFound + 1) % 0x1_0000 / 2 * 2
    requires 10 * (a.now - a.packet.packetTime) > 11 * a.recovery
    ensures SlotsOk(f.queue.slots, f.log, c) && f.queue.readIdx < c.max && f.queue.size >= OccupiedBytes(f.queue.slots)
    ensures var (f', verdict) := Enqueue(f, a, c);
      && verdict.Refused? && f'.queue.slots == f.queue.slots && f'.queue.readIdx == f.queue.readIdx
      && f'.queue.size == f.queue.size && f'.log == f.log && f'.cursor == f.cursor
      && f'.queue.lastSeqFound == f.queue.lastSeqFound && f'.stats.droppedLate == f.stats.droppedLate + 1
  {
    hide OccupiedBytes, Announced;
    ValidShape(f, c);
  }

  // A packet ends a live stream exactly by being one too many of those refused: more than five late ones for every
  // packet stored since the last report, or more than a hundred that met a full ring.
  lemma EndsStreamExactly(f: Flow, a: Arrival, c: Config)
    requires Valid(f, c) && f.queue.hasItems
    ensures SlotsOk(f.queue.slots, f.log, c) && f.queue.readIdx < c.max && f.queue.size >= OccupiedBytes(f.queue.slots)
    ensures var (f', verdict) := Enqueue(f, a, c);
      !f'.queue.hasItems <==>
        && verdict.Refused?
        && ((f'.stats.droppedLate > f.stats.droppedLate && f'.stats.droppedLate > 5 * f'.stats.received)
            || (f'.stats.droppedFull > f.stats.droppedFull && f'.stats.droppedFull > 100))
  {
    hide OccupiedBytes, Announced, Behind, TooLate;
    ValidShape(f, c);
  }

  // ---- what is due is delivered ----

  // At this reading of the clock every waiting packet is due and none is too old.
  ghost predicate DueAt(slots: seq<Slot>, t: U64, clock: Clock) {
    forall i :: 0 <= i < |slots| && slots[i].Held? ==>
      slots[i].target <= t && Age(slots[i].packet, t) <= 2 * clock.recovery
  }

  // And at every later reading of a pass.
  ghost predicate DueFrom(slots: seq<Slot>, k: nat, clock: Clock) {
    forall j :: k <= j ==> DueAt(slots, clock.now(j), clock)
  }

  predicate Clear(slots: seq<Slot>) { forall i :: 0 <= i < |slots| ==> slots[i].Free? }

  ghost predicate Emptied(f: Flow, f': Flow) {
    && Clear(f'.queue.slots)
    && |f'.log.fates| == |f.log.fates|
    && forall n :: 0 <= n < |f.log.fates| ==>
         if f.log.fates[n].Waiting? then f'.log.fates[n].Delivered? else f'.log.fates[n] == f.log.fates[n]
  }

  lemma DueIsReleased(s: Slot, holes: nat, now: U64, next: U64, clock: Clock)
    requires s.Held? && s.target <= now && s.target <= next && Age(s.packet, next) <= 2 * clock.recovery
    ensures Decide(s, holes, now, next, clock).Release?
  {
  }

  // One iteration over a ring where all is due.
  lemma DueIteration(f: Flow, now: U64, next: U64, clock: Clock, c: Config)
    requires Valid(f, c) && DueAt(f.queue.slots, now, clock) && DueAt(f.queue.slots, next, clock)
    requires exists i :: 0 <= i < |f.queue.slots| && f.queue.slots[i].Held?
    ensures SlotsOk(f.queue.slots, f.log, c) && f.queue.readIdx < c.max && f.queue.size >= OccupiedBytes(f.queue.slots)
    ensures var (f', more) := OutputOnce(f, now, next, clock, c);
      exists i :: 0 <= i < |f.queue.slots| && Gone(f, f', i) && more == (f'.queue.size > 0)
  {
    hide OccupiedBytes, Decide, Announced, Holes, FatesOk, Age;
    ValidShape(f, c);
    var holes := Holes(f.queue.slots, f.queue.readIdx, 0);
    if holes == c.max { AllFreeSlots(f, c); }
    var idx := (f.queue.readIdx + holes) % c.max;
    DueIsReleased(f.queue.slots[idx], holes, now, next, clock);
    WeightWithin(f.queue.slots, idx);
    assert Gone(f, OutputOnce(f, now, next, clock, c).0, idx);
  }

  // The packet of slot i has been delivered, the others wait as before.
  ghost predicate Gone(f: Flow, f': Flow, i: nat) {
    && i < |f.queue.slots| && f.queue.slots[i].Held? && f.queue.slots[i].arrival < |f.log.fates|
    && f'.queue.slots == f.queue.slots[i := Free]
    && f'.log.fates == f.log.fates[f.queue.slots[i].arrival := Delivered(|f.log.delivered|)]
  }

  lemma StillDue(f: Flow, f': Flow, i: nat, t: U64, clock: Clock)
    requires Gone(f, f', i) && DueAt(f.queue.slots, t, clock)
    ensures DueAt(f'.queue.slots, t, clock)
  {
    hide Age;
  }

  lemma EmptyBySize(f: Flow, c: Config)
    requires Valid(f, c) && f.queue.size == 0
    ensures Clear(f.queue.slots)
  {
    hide OccupiedBytes, Announced, FatesOk;
    forall i | 0 <= i < |f.queue.slots|
      ensures f.queue.slots[i].Free?
    {
      WeightWithin(f.queue.slots, i);
    }
  }

  lemma NothingToDeliver(f: Flow, c: Config)
    requires Valid(f, c) && Clear(f.queue.slots)
    ensures Emptied(f, f)
  {
    hide OccupiedBytes, Announced, SlotsOk;
  }

  lemma EmptiedAfter(f: Flow, g: Flow, f': Flow, i: nat, c: Config)
    requires Valid(f, c) && Gone(f, g, i) && Emptied(g, f')
    ensures Emptied(f, f')
  {
    hide OccupiedBytes, Announced, FatesOk, CursorOk;
  }

  lemma {:induction false} AllHoles(slots: seq<Slot>, readIdx: nat, h: nat)
    requires Clear(slots) && readIdx < |slots| && h <= |slots|
    ensures Holes(slots, readIdx, h) == |slots|
    decreases |slots| - h
  {
    if h < |slots| { AllHoles(slots, readIdx, h + 1); }
  }

  // An iteration over an empty ring.
  lemma EmptyIteration(f: Flow, now: U64, next: U64, clock: Clock, c: Config)
    requires Valid(f, c) && Clear(f.queue.slots)
    ensures SlotsOk(f.queue.slots, f.log, c) && f.queue.readIdx < c.max && f.queue.size >= OccupiedBytes(f.queue.slots)
    ensures var (f', more) := OutputOnce(f, now, next, clock, c);
      !more && f'.queue.slots == f.queue.slots && f'.log == f.log
  {
    hide OccupiedBytes, Announced, Holes, FatesOk, Decide, HandOver, Advance;
    ValidShape(f, c);
    AllHoles(f.queue.slots, f.queue.readIdx, 0);
  }

  // A pass during which every waiting packet is due and none is too old delivers all of them and leaves the ring empty.
  lemma {:induction false} DuePassDeliversAll(f: Flow, i: nat, now: U64, clock: Clock, c: Config)
    requires Valid(f, c) && DueAt(f.queue.slots, now, clock) && DueFrom(f.queue.slots, i, clock)
    ensures Emptied(f, Output(f, i, now, clock, c))
    decreases f.queue.size
  {
    hide OutputOnce, Valid, DueAt, Emptied, Gone;
    if f.queue.size == 0 {
      EmptyBySize(f, c);
      NothingToDeliver(f, c);
    } else {
      var next := clock.now(i);
      ValidShape(f, c);
      OutputOnceKeepsValid(f, now, next, clock, c);
      var (f', more) := OutputOnce(f, now, next, clock, c);
      assert DueAt(f.queue.slots, next, clock);
      if Clear(f.queue.slots) {
        EmptyIteration(f, now, next, clock, c);
        NothingToDeliver(f, c);
        SameEmptied(f, f');
      } else {
        DueIteration(f, now, next, clock, c);
        var k :| 0 <= k < |f.queue.slots| && Gone(f, f', k) && more == (f'.queue.size > 0);
        StillDue(f, f', k, next, clock);
        forall j | i + 1 <= j
          ensures DueAt(f'.queue.slots, clock.now(j), clock)
        {
          StillDue(f, f', k, clock.now(j), clock);
        }
        if more {
          DuePassDeliversAll(f', i + 1, next, clock, c);
        } else {
          EmptyBySize(f', c);
          NothingToDeliver(f', c);
        }
        EmptiedAfter(f, f', Output(f, i, now, clock, c), k, c);
      }
    }
  }

  lemma SameEmptied(f: Flow, f': Flow)
    requires Emptied(f, f) && f'.queue.slots == f.queue.slots && f'.log == f.log
    ensures Emptied(f, f')
  {
  }

  // ---- what is not due is kept ----

  // At this reading of the clock the packet is neither due nor old, even while the buffer is being rescaled.
  predicate NotYet(s: Slot, t: U64, clock: Clock) {
    && s.Held? && s.target > t && 10 * Age(s.packet, t) <= 11 * clock.recovery
    && (clock.scaling ==> Wrap64(s.packet.packetTime + clock.recovery) > t)
  }

  lemma NotYetWaits(s: Slot, holes: nat, now: U64, next: U64, clock: Clock)
    requires NotYet(s, next, clock)
    ensures Decide(s, holes, now, next, clock).Wait?
  {
  }

  lemma IterationKeeps(f: Flow, now: U64, next: U64, clock: Clock, c: Config, k: nat)
    requires Valid(f, c) && k < |f.queue.slots| && NotYet(f.queue.slots[k], next, clock)
    ensures SlotsOk(f.queue.slots, f.log, c) && f.queue.readIdx < c.max && f.queue.size >= OccupiedBytes(f.queue.slots)
    ensures OutputOnce(f, now, next, clock, c).0.queue.slots[k] == f.queue.slots[k]
  {
    hide OccupiedBytes, Decide, Announced, Holes, FatesOk, NotYet;
    ValidShape(f, c);
    NotYetWaits(f.queue.slots[k], Holes(f.queue.slots, f.queue.readIdx, 0), now, next, clock);
  }

  lemma {:induction false} PassKeeps(f: Flow, i: nat, now: U64, clock: Clock, c: Config, k: nat)
    requires Valid(f, c) && k < c.max == |f.queue.slots|
    requires forall j :: i <= j ==> NotYet(f.queue.slots[k], clock.now(j), clock)
    ensures var f' := Output(f, i, now, clock, c); |f'.queue.slots| == c.max && f'.queue.slots[k] == f.queue.slots[k]
    decreases f.queue.size
  {
    hide OutputOnce, Valid, NotYet;
    if f.queue.size > 0 {
      var next := clock.now(i);
      ValidShape(f, c);
      OutputOnceKeepsValid(f, now, next, clock, c);
      IterationKeeps(f, now, next, clock, c, k);
      var (f', more) := OutputOnce(f, now, next, clock, c);
      ValidShape(f', c);
      if more { PassKeeps(f', i + 1, next, clock, c, k); }
    }
  }

  lemma StoredIsHeld(f: Flow, a: Arrival, c: Config)
    requires Valid(f, c) && !a.outOfMemory
    ensures SlotsOk(f.queue.slots, f.log, c) && f.queue.readIdx < c.max && f.queue.size >= OccupiedBytes(f.queue.slots)
    ensures var (f', verdict) := Enqueue(f, a, c);
      verdict.Stored? ==>
        && |f'.queue.slots| == c.max
        && f'.queue.slots[a.packet.seqNum % c.max] ==
             Held(a.packet, |f.log.accepted|, Wrap64(a.packet.packetTime + a.recovery))
  {
    hide OccupiedBytes, Announced, FatesOk, Behind, TooLate;
    ValidShape(f, c);
  }

  // The clock of a pass stays below the packet time plus the buffer, and does not find the packet old.
  ghost predicate StaysBelow(a: Arrival, i: nat, clock: Clock) {
    forall j :: i <= j ==>
      && clock.now(j) < a.packet.packetTime + a.recovery < 0x1_0000_0000_0000_0000
      && clock.now(j) < a.packet.packetTime + clock.recovery < 0x1_0000_0000_0000_0000
      && 10 * Age(a.packet, clock.now(j)) <= 11 * clock.recovery
  }

  // A packet just stored waits out the buffer: such a pass leaves it in its slot.
  lemma WaitsOutTheBuffer(f: Flow, a: Arrival, i: nat, now: U64, clock: Clock, c: Config)
    requires Valid(f, c) && a.packet.size > 0 && !a.outOfMemory && StaysBelow(a, i, clock)
    ensures SlotsOk(f.queue.slots, f.log, c) && f.queue.readIdx < c.max && f.queue.size >= OccupiedBytes(f.queue.slots)
    ensures var (f', verdict) := Enqueue(f, a, c);
      Valid(f', c) &&
      (verdict.Stored? ==>
         var k, slots := a.packet.seqNum % c.max, Output(f', i, now, clock, c).queue.slots;
         k < |slots| && slots[k].Held? && slots[k].packet == a.packet)
  {
    hide Valid, SlotsOk, OccupiedBytes, Output, Enqueue, Age;
    ValidShape(f, c);
    EnqueueKeepsValid(f, a, c);
    StoredIsHeld(f, a, c);
    var (f', verdict) := Enqueue(f, a, c);
    if verdict.Stored? {
      assert forall j :: i <= j ==> NotYet(f'.queue.slots[a.packet.seqNum % c.max], clock.now(j), clock);
      PassKeeps(f', i, now, clock, c, a.packet.seqNum % c.max);
    }
  }

  // ---- what is handed over is not old ----

  ghost predicate YoungAt(p: Packet, t: U64, clock: Clock) { Age(p, t) <= 2 * clock.recovery }

  lemma IterationHandsOverYoung(f: Flow, now: U64, next: U64, clock: Clock, c: Config)
    requires Valid(f, c)
    ensures SlotsOk(f.queue.slots, f.log, c) && f.queue.readIdx < c.max && f.queue.size >= OccupiedBytes(f.queue.slots)
    ensures var d, d' := f.log.delivered, OutputOnce(f, now, next, clock, c).0.log.delivered;
      d <= d' && |d'| <= |d| + 1 && (|d'| > |d| ==> YoungAt(d'[|d|].packet, next, clock))
  {
    hide OccupiedBytes, Announced, Holes, FatesOk;
    ValidShape(f, c);
  }

  // Whatever a pass hands over was at most twice the buffer old at some reading of its clock.
  lemma {:induction false} HandsOverYoung(f: Flow, i: nat, now: U64, clock: Clock, c: Config, p: nat)
    requires Valid(f, c) && |f.log.delivered| <= p < |Output(f, i, now, clock, c).log.delivered|
    ensures exists j :: i <= j && YoungAt(Output(f, i, now, clock, c).log.delivered[p].packet, clock.now(j), clock)
    decreases f.queue.size
  {
    hide OutputOnce, Valid, YoungAt;
    if f.queue.size > 0 {
      var next := clock.now(i);
      ValidShape(f, c);
      OutputOnceKeepsValid(f, now, next, clock, c);
      IterationHandsOverYoung(f, now, next, clock, c);
      var (f', more) := OutputOnce(f, now, next, clock, c);
      if p < |f'.log.delivered| {
        if more { PassOnlyAdds(f', i + 1, next, clock, c); }
        assert YoungAt(Output(f, i, now, clock, c).log.delivered[p].packet, clock.now(i), clock);
      } else {
        HandsOverYoung(f', i + 1, next, clock, c, p);
      }
    }
  }

  lemma {:induction false} PassOnlyAdds(f: Flow, i: nat, now: U64, clock: Clock, c: Config)
    requires Valid(f, c)
    ensures f.log.delivered <= Output(f, i, now, clock, c).log.delivered
    decreases f.queue.size
  {
    hide OutputOnce, Valid, YoungAt;
    if f.queue.size > 0 {
      var next := clock.now(i);
      ValidShape(f, c);
      OutputOnceKeepsValid(f, now, next, clock, c);
      IterationHandsOverYoung(f, now, next, clock, c);
      var (f', more) := OutputOnce(f, now, next, clock, c);
      if more { PassOnlyAdds(f', i + 1, next, clock, c); }
    }
  }

  // ---- what ends a stream ----

  lemma AdvanceEndsStream(f: Flow, idx: nat, next: U64, clock: Clock, c: Config)
    requires idx < |f.queue.slots| == c.max && f.queue.slots[idx].Held? && f.queue.hasItems
    requires f.queue.slots[idx].packet.size <= f.queue.size
    ensures var f' := Advance(f, idx, next, clock, c).0;
      && f'.cursor.tooLate == f.cursor.tooLate
      && (!f'.queue.hasItems <==>
            f'.queue.size == 0 && f.cursor.lastOutputTime != 0
            && Wrap64(next - f.cursor.lastOutputTime) > clock.recovery)
  {
  }

  lemma NothingFound(f: Flow, c: Config)
    requires Valid(f, c) && |f.queue.slots| == c.max && Holes(f.queue.slots, f.queue.readIdx, 0) == c.max
    ensures Clear(f.queue.slots)
  {
    hide OccupiedBytes, Announced, FatesOk, Holes;
    AllFreeSlots(f, c);
  }

  // What the scan stops at is a packet whose bytes are counted.
  lemma FoundSlot(f: Flow, idx: nat, c: Config)
    requires Valid(f, c) && idx < |f.queue.slots| && f.queue.slots[idx].Held?
    ensures f.queue.slots[idx].packet.size <= f.queue.size && f.queue.slots[idx].arrival < |f.log.fates|
  {
    hide OccupiedBytes, Announced;
    WeightWithin(f.queue.slots, idx);
  }

  // A hand-over leaves the ring as it is and sets the time of the last output to the reading of the clock.
  lemma HandOverKeeps(f: Flow, s: Slot, holes: nat, next: U64, c: Config)
    requires s.Held? && s.arrival < |f.log.fates|
    ensures var f' := HandOver(f, s, holes, next, c);
      f'.queue == f.queue && f'.cursor.tooLate == 0 && f'.cursor.lastOutputTime == next && Wrap64(next - next) == 0
  {
  }

  // An iteration ends a live stream exactly if it finds no packet, or drops the hundred-and-first in a row, or drops
  // the last one when nothing was handed over for longer than the buffer.
  lemma IterationEndsStream(f: Flow, now: U64, next: U64, clock: Clock, c: Config)
    requires Valid(f, c) && f.queue.hasItems
    ensures SlotsOk(f.queue.slots, f.log, c) && f.queue.readIdx < c.max && f.queue.size >= OccupiedBytes(f.queue.slots)
    ensures var f' := OutputOnce(f, now, next, clock, c).0;
      !f'.queue.hasItems <==>
        || Clear(f.queue.slots)
        || (f'.cursor.tooLate == f.cursor.tooLate + 1
            && (f'.cursor.tooLate > 100
                || (f'.queue.size == 0 && f.cursor.lastOutputTime != 0
                    && Wrap64(next - f.cursor.lastOutputTime) > clock.recovery)))
  {
    hide Valid, OccupiedBytes, Announced, Holes, FatesOk, Decide, Advance, Wrap64, HandOver, SlotsOk;
    ValidShape(f, c);
    var holes := Holes(f.queue.slots, f.queue.readIdx, 0);
    if holes == c.max {
      NothingFound(f, c);
    } else {
      var idx := (f.queue.readIdx + holes) % c.max;
      FoundSlot(f, idx, c);
      var s := f.queue.slots[idx];
      match Decide(s, holes, now, next, clock)
      case Wait =>
      case Release =>
        HandOverKeeps(f, s, holes, next, c);
        AdvanceEndsStream(HandOver(f, s, holes, next, c), idx, next, clock, c);
      case Drop =>
        var f' := f.(cursor := f.cursor.(tooLate := f.cursor.tooLate + 1), log := Discard(f.log, s.arrival));
        AdvanceEndsStream(f', idx, next, clock, c);
    }
  }
}
