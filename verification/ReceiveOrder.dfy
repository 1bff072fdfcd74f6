// The order in which a flow of 16-bit numbers hands its packets over.
module ReceiveOrder {
  import opened Bytes
  import opened ReceiveRing

  const SHORT := Config(0x1_0000, true)

  // The number lies behind the one before it: going round, more than half the circle away.
  predicate GoesBack(previous: U32, number: U32) { (number - previous) % 0x1_0000 > 0x8000 }

  // The slot k places after the read index.
  function SlotAt(slots: seq<Slot>, readIdx: nat, k: nat): Slot
    requires |slots| == 0x1_0000
  {
    slots[(readIdx + k) % 0x1_0000]
  }

  // How many places after the read index this number has its slot.
  function Distance(f: Flow, n: U32): nat { (n - f.queue.readIdx) % 0x1_0000 }

  // The half of the ring before the read index is empty.
  ghost predicate NothingBehind(slots: seq<Slot>, readIdx: nat)
    requires |slots| == 0x1_0000
  {
    forall k :: 0x8000 <= k < 0x1_0000 ==> SlotAt(slots, readIdx, k).Free?
  }

  // The half of the ring from the read index on is empty.
  ghost predicate NothingAhead(slots: seq<Slot>, readIdx: nat)
    requires |slots| == 0x1_0000
  {
    forall k :: 0 <= k < 0x8000 ==> SlotAt(slots, readIdx, k).Free?
  }

  // Unless packets were dropped since, the reader stands just after the last block handed over, or at the packet that
  // opened the stream.
  ghost predicate InStep(f: Flow) {
    (f.log.delivered != [] || f.cursor.flowStart) && f.cursor.tooLate == 0 ==>
      f.queue.readIdx == (f.cursor.lastSeqOutput + 1) % 0x1_0000
  }

  lemma ShortRing(f: Flow)
    requires Valid(f, SHORT)
    ensures |f.queue.slots| == 0x1_0000 && f.queue.readIdx < 0x1_0000 && SlotsOk(f.queue.slots, f.log, SHORT)
    ensures f.queue.size >= OccupiedBytes(f.queue.slots)
    ensures SlotAt(f.queue.slots, f.queue.readIdx, 0xFFFF).Free?
  {
    hide OccupiedBytes, Announced, FatesOk;
    assert (f.queue.readIdx + 0xFFFF) % 0x1_0000 == Before(f.queue.readIdx, 0x1_0000);
  }

  // ---- one iteration of the output loop ----

  // The slots passed over are the free ones, so what they say about a half of the ring is exact.
  lemma HalfIsEmpty(slots: seq<Slot>, readIdx: nat)
    requires |slots| == 0x1_0000 && readIdx < 0x1_0000
    ensures Holes(slots, readIdx, 0) >= 0x8000 <==> NothingAhead(slots, readIdx)
  {
    hide Holes;
    var holes := Holes(slots, readIdx, 0);
    if holes >= 0x8000 {
      forall k | 0 <= k < 0x8000
        ensures SlotAt(slots, readIdx, k).Free?
      {
        HolesAreFree(slots, readIdx, 0, k);
      }
    } else {
      assert SlotAt(slots, readIdx, holes).Held?;
    }
  }

  // What the iteration decides about the first waiting packet; Wait when nothing waits.
  ghost function Choice(f: Flow, now: U64, next: U64, clock: Clock): Decision
    requires Valid(f, SHORT)
  {
    ShortRing(f);
    var holes := Holes(f.queue.slots, f.queue.readIdx, 0);
    if holes == 0x1_0000 then Wait
    else Decide(SlotAt(f.queue.slots, f.queue.readIdx, holes), holes, now, next, clock)
  }

  // The flow after the iteration.
  ghost function After(f: Flow, now: U64, next: U64, clock: Clock): Flow
    requires Valid(f, SHORT)
  {
    ShortRing(f);
    OutputOnce(f, now, next, clock, SHORT).0
  }

  ghost predicate Released(f: Flow, f': Flow)
    requires |f.queue.slots| == 0x1_0000 && f.queue.readIdx < 0x1_0000
  {
    var holes := Holes(f.queue.slots, f.queue.readIdx, 0);
    holes < 0x1_0000 &&
    var idx := (f.queue.readIdx + holes) % 0x1_0000;
    var s := f.queue.slots[idx];
    && s.packet.seqNum % 0x1_0000 == idx
    && f'.queue.slots == f.queue.slots[idx := Free] && f'.queue.readIdx == (idx + 1) % 0x1_0000
    && f'.cursor.lastSeqOutput == s.packet.seqNum && !f'.cursor.flowStart && f'.cursor.tooLate == 0
    && |f'.log.delivered| == |f.log.delivered| + 1 && f'.log.delivered[..|f.log.delivered|] == f.log.delivered
    && var b := f'.log.delivered[|f.log.delivered|];
      && b.packet == s.packet && b.flowStart == f.cursor.flowStart
      && b.discontinuity == (holes > 0 || s.packet.seqNum != Next(f.cursor.lastSeqOutput, SHORT))
  }

  // The block handed over is the first waiting one after the read index.
  lemma ReleaseHandsOver(f: Flow, now: U64, next: U64, clock: Clock)
    requires Valid(f, SHORT) && Choice(f, now, next, clock).Release?
    ensures |f.queue.slots| == 0x1_0000 && f.queue.readIdx < 0x1_0000
    ensures Released(f, After(f, now, next, clock))
  {
    hide OccupiedBytes, Holes, Decide, Announced, FatesOk, Valid, CursorOk;
    ShortRing(f);
  }

  // Otherwise nothing is handed over: the ring stays as it is or, when a packet is dropped, the drop is counted.
  lemma NothingReleased(f: Flow, now: U64, next: U64, clock: Clock)
    requires Valid(f, SHORT) && !Choice(f, now, next, clock).Release?
    ensures |f.queue.slots| == 0x1_0000 && f.queue.readIdx < 0x1_0000
    ensures var f' := After(f, now, next, clock);
      && f'.log.delivered == f.log.delivered && f'.cursor.flowStart == f.cursor.flowStart
      && f'.cursor.lastSeqOutput == f.cursor.lastSeqOutput
      && ((f'.queue.slots == f.queue.slots && f'.queue.readIdx == f.queue.readIdx) || Moved(f, f'))
      && f'.cursor.tooLate == f.cursor.tooLate + (if Choice(f, now, next, clock).Drop? then 1 else 0)
      && (Moved(f, f') ==> f'.cursor.tooLate > 0)
  {
    hide OccupiedBytes, Holes, Decide, Announced, FatesOk, Valid, CursorOk;
    ShortRing(f);
  }

  // The first waiting packet has left the ring and the reader stands after it.
  ghost predicate Moved(f: Flow, f': Flow)
    requires |f.queue.slots| == 0x1_0000 && f.queue.readIdx < 0x1_0000
  {
    var holes := Holes(f.queue.slots, f.queue.readIdx, 0);
    holes < 0x1_0000 &&
    var idx := (f.queue.readIdx + holes) % 0x1_0000;
    f'.queue.slots == f.queue.slots[idx := Free] && f'.queue.readIdx == (idx + 1) % 0x1_0000
  }

  // ---- one block ----

  lemma PlaceAfter(previous: U32, number: U32, readIdx: nat, holes: nat)
    requires readIdx == (previous + 1) % 0x1_0000 && holes < 0xFFFF
    requires number % 0x1_0000 == (readIdx + holes) % 0x1_0000
    ensures (number - previous) % 0x1_0000 == holes + 1
  {
    assert (number - previous) % 0x1_0000 == (readIdx + holes - previous) % 0x1_0000;
    assert (readIdx - previous) % 0x1_0000 == 1;
  }

  // With the reader in step, a block is handed over out of order exactly when nothing waits in the half of the ring
  // ahead: what is found then lies behind. Such a block carries the gap flag.
  lemma GoesBackExactly(f: Flow, now: U64, next: U64, clock: Clock)
    requires Valid(f, SHORT) && f.queue.readIdx == (f.cursor.lastSeqOutput + 1) % 0x1_0000
    requires Choice(f, now, next, clock).Release?
    ensures |f.queue.slots| == 0x1_0000 && f.queue.readIdx < 0x1_0000
    ensures var d := After(f, now, next, clock).log.delivered;
      && |d| == |f.log.delivered| + 1
      && GoesBack(f.cursor.lastSeqOutput, d[|d| - 1].packet.seqNum) == NothingAhead(f.queue.slots, f.queue.readIdx)
      && (NothingAhead(f.queue.slots, f.queue.readIdx) ==> d[|d| - 1].discontinuity)
  {
    hide Valid, After, Holes, Choice, OccupiedBytes, SlotsOk, NothingAhead;
    ReleaseHandsOver(f, now, next, clock);
    ShortRing(f);
    HalfIsEmpty(f.queue.slots, f.queue.readIdx);
    var holes := Holes(f.queue.slots, f.queue.readIdx, 0);
    assert SlotAt(f.queue.slots, f.queue.readIdx, holes).Held?;
    PlaceAfter(f.cursor.lastSeqOutput, After(f, now, next, clock).cursor.lastSeqOutput,
               f.queue.readIdx, holes);
  }

  // ---- how a packet gets behind the reader ----

  // This packet is the only one waiting.
  ghost predicate Alone(f: Flow, p: Packet) {
    var idx := p.seqNum % 0x1_0000;
    && |f.queue.slots| == 0x1_0000 && f.queue.slots[idx].Held? && f.queue.slots[idx].packet == p
    && forall i :: 0 <= i < 0x1_0000 && i != idx ==> f.queue.slots[i].Free?
  }

  lemma AloneIsFirst(f: Flow, p: Packet)
    requires Alone(f, p) && f.queue.readIdx < 0x1_0000
    ensures Holes(f.queue.slots, f.queue.readIdx, 0) == Distance(f, p.seqNum)
    ensures NothingAhead(f.queue.slots, f.queue.readIdx) == (Distance(f, p.seqNum) >= 0x8000)
  {
    hide Holes, NothingAhead;
    var k := Distance(f, p.seqNum);
    assert (f.queue.readIdx + k) % 0x1_0000 == p.seqNum % 0x1_0000;
    if k < Holes(f.queue.slots, f.queue.readIdx, 0) { HolesAreFree(f.queue.slots, f.queue.readIdx, 0, k); }
    HalfIsEmpty(f.queue.slots, f.queue.readIdx);
  }

  lemma AloneIsReleased(f: Flow, p: Packet, now: U64, next: U64, clock: Clock)
    requires Valid(f, SHORT) && Alone(f, p) && Choice(f, now, next, clock).Release?
    ensures var d := After(f, now, next, clock).log.delivered;
      |d| == |f.log.delivered| + 1 && d[|d| - 1].packet == p
  {
    hide Valid, After, Holes, Choice, NothingAhead;
    ReleaseHandsOver(f, now, next, clock);
    AloneIsFirst(f, p);
  }

  lemma StoredAlone(f: Flow, a: Arrival)
    requires Valid(f, SHORT) && a.packet.size > 0 && f.queue.hasItems && !a.noOffset && !a.outOfMemory
    requires forall i :: 0 <= i < |f.queue.slots| ==> f.queue.slots[i].Free?
    ensures |f.queue.slots| == 0x1_0000 && f.queue.readIdx < 0x1_0000 && SlotsOk(f.queue.slots, f.log, SHORT)
    ensures f.queue.size >= OccupiedBytes(f.queue.slots)
    ensures var (f', verdict) := Enqueue(f, a, SHORT);
      && verdict.Stored? == (Distance(f, a.packet.seqNum) != 0xFFFF && !(Behind(f, a) && TooLate(a)))
      && (verdict.Stored? ==>
            && f'.cursor == f.cursor && f'.log.delivered == f.log.delivered && f'.queue.readIdx == f.queue.readIdx
            && Alone(f', a.packet) && f'.queue.hasItems && f'.queue.size == f.queue.size + a.packet.size
            && f'.queue.slots[a.packet.seqNum % 0x1_0000].target == Wrap64(a.packet.packetTime + a.recovery))
  {
    hide OccupiedBytes, FatesOk, Announced, CursorOk, Behind, TooLate;
    ShortRing(f);
  }

  // Only its age is held against a packet the reader has passed, and the number the reader passed last. In an emptied
  // ring it is stored otherwise, and the next block handed over is this packet, going back.
  lemma PassedPacketIsHandedOver(f: Flow, a: Arrival, now: U64, next: U64, clock: Clock)
    requires Valid(f, SHORT) && a.packet.size > 0 && f.queue.hasItems && !a.noOffset && !a.outOfMemory
    requires f.queue.readIdx == (f.cursor.lastSeqOutput + 1) % 0x1_0000
    requires forall i :: 0 <= i < |f.queue.slots| ==> f.queue.slots[i].Free?
    ensures SlotsOk(f.queue.slots, f.log, SHORT) && f.queue.readIdx < 0x1_0000
    ensures f.queue.size >= OccupiedBytes(f.queue.slots)
    ensures var (f', verdict) := Enqueue(f, a, SHORT);
      && verdict.Stored? == (Distance(f, a.packet.seqNum) != 0xFFFF && !(Behind(f, a) && TooLate(a)))
      && Valid(f', SHORT)
      && (verdict.Stored? && Choice(f', now, next, clock).Release? ==>
            var d := After(f', now, next, clock).log.delivered;
            && |d| == |f.log.delivered| + 1 && d[|d| - 1].packet == a.packet
            && GoesBack(f.cursor.lastSeqOutput, a.packet.seqNum) == (Distance(f, a.packet.seqNum) >= 0x8000)
            && (Distance(f, a.packet.seqNum) >= 0x8000 ==> d[|d| - 1].discontinuity))
  {
    hide Valid, After, Holes, Choice, OccupiedBytes, SlotsOk, NothingAhead, Enqueue, Behind, TooLate, Alone, GoesBack;
    ShortRing(f);
    EnqueueKeepsValid(f, a, SHORT);
    StoredAlone(f, a);
    var (f', verdict) := Enqueue(f, a, SHORT);
    if verdict.Stored? && Choice(f', now, next, clock).Release? {
      GoesBackExactly(f', now, next, clock);
      AloneIsReleased(f', a.packet, now, next, clock);
      AloneIsFirst(f', a.packet);
    }
  }

  // ---- the reader is in step in every run ----

  lemma IterationKeepsInStep(f: Flow, now: U64, next: U64, clock: Clock)
    requires Valid(f, SHORT) && InStep(f)
    ensures InStep(After(f, now, next, clock))
  {
    hide Valid, After, Holes, Choice;
    if Choice(f, now, next, clock).Release? {
      ReleaseHandsOver(f, now, next, clock);
    } else {
      NothingReleased(f, now, next, clock);
    }
  }

  lemma {:induction false} PassKeepsInStep(f: Flow, i: nat, now: U64, clock: Clock)
    requires Valid(f, SHORT) && InStep(f)
    ensures InStep(Output(f, i, now, clock, SHORT))
    decreases f.queue.size
  {
    hide Valid, OutputOnce, InStep;
    if f.queue.size > 0 {
      ShortRing(f);
      var (f', more) := OutputOnce(f, now, clock.now(i), clock, SHORT);
      OutputOnceKeepsValid(f, now, clock.now(i), clock, SHORT);
      IterationKeepsInStep(f, now, clock.now(i), clock);
      if more { PassKeepsInStep(f', i + 1, clock.now(i), clock); }
    }
  }

  // A packet moves the reader only when it opens a stream.
  lemma ArrivalKeepsReader(f: Flow, a: Arrival)
    requires Valid(f, SHORT)
    ensures SlotsOk(f.queue.slots, f.log, SHORT) && f.queue.readIdx < 0x1_0000
    ensures f.queue.size >= OccupiedBytes(f.queue.slots)
    ensures var f' := Enqueue(f, a, SHORT).0;
      && f'.log.delivered == f.log.delivered
      && (if !f.queue.hasItems && Enqueue(f, a, SHORT).1.Stored?
          then f'.cursor.flowStart && f'.queue.readIdx == (f'.cursor.lastSeqOutput + 1) % 0x1_0000
          else f'.cursor == f.cursor && f'.queue.readIdx == f.queue.readIdx)
  {
    hide OccupiedBytes, FatesOk, Announced, CursorOk, Behind, TooLate;
    ShortRing(f);
  }

  lemma {:induction false} ReaderInStep(events: seq<Event>)
    requires forall e :: e in events ==> EventOk(e)
    ensures InStep(Run(events, SHORT))
  {
    hide Valid, Enqueue, Output;
    if events != [] {
      var before := Run(events[..|events| - 1], SHORT);
      ReaderInStep(events[..|events| - 1]);
      match events[|events| - 1]
      case Arrive(a) => ArrivalKeepsReader(before, a);
      case Pass(clock) => PassKeepsInStep(before, 1, clock.now(0), clock);
      case Report =>
      case NewFlowId =>
    }
  }

  // ---- runs whose packets arrive ahead of the reader ----

  // A handed-over block that opens no stream does not lie behind its predecessor.
  ghost predicate InOrder(delivered: seq<Block>) {
    forall p :: 0 < p < |delivered| ==> Follows(delivered, p)
  }

  predicate Follows(delivered: seq<Block>, p: nat)
    requires 0 < p < |delivered|
  {
    delivered[p].flowStart || !GoesBack(delivered[p - 1].packet.seqNum, delivered[p].packet.seqNum)
  }

  ghost predicate Ordered(f: Flow)
    requires |f.queue.slots| == 0x1_0000
  {
    NothingBehind(f.queue.slots, f.queue.readIdx) && InStep(f) && f.cursor.tooLate == 0 && InOrder(f.log.delivered)
  }

  // Places counted from the moved reader.
  lemma PlaceFromNext(readIdx: nat, holes: nat, k: nat)
    requires readIdx < 0x1_0000 && holes < 0x1_0000 && k < 0x1_0000
    ensures var idx, j := (readIdx + holes) % 0x1_0000, holes + 1 + k;
      ((idx + 1) % 0x1_0000 + k) % 0x1_0000 == (readIdx + if j < 0x1_0000 then j else j - 0x1_0000) % 0x1_0000
  {
  }

  lemma ReaderMovesOn(slots: seq<Slot>, readIdx: nat)
    requires |slots| == 0x1_0000 && readIdx < 0x1_0000 && NothingBehind(slots, readIdx)
    requires Holes(slots, readIdx, 0) < 0x1_0000
    ensures var idx := (readIdx + Holes(slots, readIdx, 0)) % 0x1_0000;
      NothingBehind(slots[idx := Free], (idx + 1) % 0x1_0000)
    ensures !NothingAhead(slots, readIdx)
  {
    hide Holes, NothingAhead;
    var holes := Holes(slots, readIdx, 0);
    HalfIsEmpty(slots, readIdx);
    assert SlotAt(slots, readIdx, holes).Held?;
    var idx := (readIdx + holes) % 0x1_0000;
    var left, next := slots[idx := Free], (idx + 1) % 0x1_0000;
    forall k | 0x8000 <= k < 0x1_0000
      ensures SlotAt(left, next, k).Free?
    {
      hide NothingBehind;
      PlaceFromNext(readIdx, holes, k);
      var j := holes + 1 + k;
      if j < 0x1_0000 {
        PlaceIsEmpty(slots, readIdx, j);
      } else if j - 0x1_0000 < holes {
        HolesAreFree(slots, readIdx, 0, j - 0x1_0000);
      }
    }
  }

  lemma PlaceIsEmpty(slots: seq<Slot>, readIdx: nat, k: nat)
    requires |slots| == 0x1_0000 && NothingBehind(slots, readIdx) && 0x8000 <= k < 0x1_0000
    ensures slots[(readIdx + k) % 0x1_0000].Free?
  {
    assert SlotAt(slots, readIdx, k).Free?;
  }

  lemma InOrderSnoc(d: seq<Block>, d': seq<Block>)
    requires InOrder(d) && |d'| == |d| + 1 && d'[..|d|] == d
    requires d != [] ==> Follows(d', |d|)
    ensures InOrder(d')
  {
    forall p | 0 < p < |d'|
      ensures Follows(d', p)
    {
      if p < |d| { assert Follows(d, p) && d'[..|d|][p] == d'[p] && d'[..|d|][p - 1] == d'[p - 1]; }
    }
  }

  lemma IterationKeepsOrdered(f: Flow, now: U64, next: U64, clock: Clock)
    requires Valid(f, SHORT) && !Choice(f, now, next, clock).Drop?
    requires |f.queue.slots| == 0x1_0000 && Ordered(f)
    ensures var f' := After(f, now, next, clock); |f'.queue.slots| == 0x1_0000 && Ordered(f')
  {
    hide Valid, After, Holes, Choice, NothingBehind, NothingAhead;
    IterationKeepsInStep(f, now, next, clock);
    if Choice(f, now, next, clock).Release? {
      ReleaseHandsOver(f, now, next, clock);
      ReaderMovesOn(f.queue.slots, f.queue.readIdx);
      var d := f.log.delivered;
      if d != [] && !f.cursor.flowStart {
        GoesBackExactly(f, now, next, clock);
        LastHandedOver(f);
      }
      InOrderSnoc(d, After(f, now, next, clock).log.delivered);
    } else {
      NothingReleased(f, now, next, clock);
    }
  }

  lemma LastHandedOver(f: Flow)
    requires Valid(f, SHORT) && f.log.delivered != [] && !f.cursor.flowStart
    ensures f.cursor.lastSeqOutput == f.log.delivered[|f.log.delivered| - 1].packet.seqNum
  {
    hide OccupiedBytes, Announced, SlotsOk, FatesOk;
  }

  // The packet would wait behind the reader of a live stream.
  ghost predicate GetsBehind(f: Flow, a: Arrival)
    requires Valid(f, SHORT)
  {
    ShortRing(f);
    f.queue.hasItems && Enqueue(f, a, SHORT).1.Stored? && Distance(f, a.packet.seqNum) >= 0x8000
  }

  lemma SlotsAfterArrival(f: Flow, a: Arrival)
    requires Valid(f, SHORT)
    ensures SlotsOk(f.queue.slots, f.log, SHORT) && f.queue.readIdx < 0x1_0000 && |f.queue.slots| == 0x1_0000
    ensures f.queue.size >= OccupiedBytes(f.queue.slots)
    ensures var (f', verdict) := Enqueue(f, a, SHORT);
      && |f'.queue.slots| == 0x1_0000 && f'.cursor.tooLate == f.cursor.tooLate
      && (f.queue.hasItems ==> f'.queue.readIdx == f.queue.readIdx)
      && (forall i :: 0 <= i < 0x1_0000 && f'.queue.slots[i].Held? ==>
            || (f'.queue.slots == f.queue.slots && f'.queue.readIdx == f.queue.readIdx)
            || (f.queue.hasItems && f.queue.slots[i].Held?)
            || (verdict.Stored? && i == a.packet.seqNum % 0x1_0000 && (f.queue.hasItems || i == f'.queue.readIdx)))
  {
    hide OccupiedBytes, FatesOk, Announced, CursorOk, Behind, TooLate;
    ShortRing(f);
  }

  lemma ArrivalKeepsOrdered(f: Flow, a: Arrival)
    requires Valid(f, SHORT) && |f.queue.slots| == 0x1_0000 && Ordered(f) && !GetsBehind(f, a)
    ensures SlotsOk(f.queue.slots, f.log, SHORT) && f.queue.readIdx < 0x1_0000
    ensures f.queue.size >= OccupiedBytes(f.queue.slots)
    ensures var f' := Enqueue(f, a, SHORT).0; |f'.queue.slots| == 0x1_0000 && Ordered(f')
  {
    hide Valid, Enqueue, OccupiedBytes, SlotsOk, InOrder;
    ArrivalKeepsReader(f, a);
    SlotsAfterArrival(f, a);
    var (f', verdict) := Enqueue(f, a, SHORT);
    forall k | 0x8000 <= k < 0x1_0000
      ensures SlotAt(f'.queue.slots, f'.queue.readIdx, k).Free?
    {
      assert SlotAt(f.queue.slots, f.queue.readIdx, k).Free?;
    }
  }

  // No packet of the pass is dropped for its age.
  ghost predicate Prompt(f: Flow, i: nat, now: U64, clock: Clock)
    requires Valid(f, SHORT)
    decreases f.queue.size
  {
    if f.queue.size == 0 then true
    else
      ShortRing(f);
      OutputOnceKeepsValid(f, now, clock.now(i), clock, SHORT);
      var (f', more) := OutputOnce(f, now, clock.now(i), clock, SHORT);
      !Choice(f, now, clock.now(i), clock).Drop? && (more ==> Prompt(f', i + 1, clock.now(i), clock))
  }

  lemma {:induction false} PassKeepsOrdered(f: Flow, i: nat, now: U64, clock: Clock)
    requires Valid(f, SHORT) && Prompt(f, i, now, clock) && |f.queue.slots| == 0x1_0000 && Ordered(f)
    ensures var f' := Output(f, i, now, clock, SHORT); |f'.queue.slots| == 0x1_0000 && Ordered(f')
    decreases f.queue.size
  {
    hide Valid, OutputOnce, Ordered;
    if f.queue.size > 0 {
      ShortRing(f);
      var (f', more) := OutputOnce(f, now, clock.now(i), clock, SHORT);
      OutputOnceKeepsValid(f, now, clock.now(i), clock, SHORT);
      IterationKeepsOrdered(f, now, clock.now(i), clock);
      if more { PassKeepsOrdered(f', i + 1, clock.now(i), clock); }
    }
  }

  // No packet gets behind the reader of a live stream and none is dropped for its age.
  ghost predicate Steady(events: seq<Event>)
    requires forall e :: e in events ==> EventOk(e)
  {
    if events == [] then true
    else
      var before := Run(events[..|events| - 1], SHORT);
      Steady(events[..|events| - 1]) &&
      match events[|events| - 1]
      case Arrive(a) => !GetsBehind(before, a)
      case Pass(clock) => Prompt(before, 1, clock.now(0), clock)
      case Report => true
      case NewFlowId => true
  }

  // Such a run hands its blocks over in order of their numbers.
  lemma {:induction false} SteadyRunIsInOrder(events: seq<Event>)
    requires forall e :: e in events ==> EventOk(e)
    requires Steady(events)
    ensures var f := Run(events, SHORT); |f.queue.slots| == 0x1_0000 && Ordered(f)
  {
    hide Valid, Enqueue, Output, Prompt, GetsBehind;
    if events == [] {
      FreshIsOrdered();
    } else {
      var before := Run(events[..|events| - 1], SHORT);
      SteadyRunIsInOrder(events[..|events| - 1]);
      match events[|events| - 1]
      case Arrive(a) => ArrivalKeepsOrdered(before, a);
      case Pass(clock) => PassKeepsOrdered(before, 1, clock.now(0), clock);
      case Report =>
      case NewFlowId =>
    }
  }

  lemma FreshIsOrdered()
    ensures |Fresh(SHORT).queue.slots| == 0x1_0000 && Ordered(Fresh(SHORT))
  {
  }

  // ---- the discontinuity flag ----

  // A block carries the flag exactly if the slot the reader stood at was empty or its number is not the next one; with
  // the reader in step, exactly if its number is not the next one.
  lemma FlagExactly(f: Flow, now: U64, next: U64, clock: Clock)
    requires Valid(f, SHORT) && Choice(f, now, next, clock).Release?
    ensures |f.queue.slots| == 0x1_0000 && f.queue.readIdx < 0x1_0000
    ensures var d := After(f, now, next, clock).log.delivered;
      && |d| == |f.log.delivered| + 1 && d[|d| - 1].flowStart == f.cursor.flowStart
      && d[|d| - 1].discontinuity ==
           (SlotAt(f.queue.slots, f.queue.readIdx, 0).Free?
            || d[|d| - 1].packet.seqNum != Next(f.cursor.lastSeqOutput, SHORT))
      && (f.queue.readIdx == (f.cursor.lastSeqOutput + 1) % 0x1_0000 ==>
            d[|d| - 1].discontinuity == (d[|d| - 1].packet.seqNum != Next(f.cursor.lastSeqOutput, SHORT)))
  {
    hide Valid, After, Holes, Choice;
    ReleaseHandsOver(f, now, next, clock);
    HolesAtReader(f.queue.slots, f.queue.readIdx);
    var holes := Holes(f.queue.slots, f.queue.readIdx, 0);
    assert holes > 0 ==> (f.queue.readIdx + holes) % 0x1_0000 != f.queue.readIdx;
  }

  lemma HolesAtReader(slots: seq<Slot>, readIdx: nat)
    requires |slots| == 0x1_0000 && readIdx < 0x1_0000
    ensures Holes(slots, readIdx, 0) == 0 <==> SlotAt(slots, readIdx, 0).Held?
  {
  }

  // A block that opens no stream is flagged exactly if its number is not the one after its predecessor's.
  predicate FlaggedRight(delivered: seq<Block>, p: nat)
    requires 0 < p < |delivered|
  {
    delivered[p].flowStart
    || delivered[p].discontinuity == (delivered[p].packet.seqNum != Next(delivered[p - 1].packet.seqNum, SHORT))
  }

  ghost predicate Telling(f: Flow) {
    InStep(f) && f.cursor.tooLate == 0 && forall p :: 0 < p < |f.log.delivered| ==> FlaggedRight(f.log.delivered, p)
  }

  lemma TellingSnoc(d: seq<Block>, d': seq<Block>)
    requires |d'| == |d| + 1 && d'[..|d|] == d && forall p :: 0 < p < |d| ==> FlaggedRight(d, p)
    requires d != [] ==> FlaggedRight(d', |d|)
    ensures forall p :: 0 < p < |d'| ==> FlaggedRight(d', p)
  {
    forall p | 0 < p < |d'|
      ensures FlaggedRight(d', p)
    {
      if p < |d| { assert FlaggedRight(d, p) && d'[..|d|][p] == d'[p] && d'[..|d|][p - 1] == d'[p - 1]; }
    }
  }

  lemma IterationKeepsTelling(f: Flow, now: U64, next: U64, clock: Clock)
    requires Valid(f, SHORT) && !Choice(f, now, next, clock).Drop? && Telling(f)
    ensures Telling(After(f, now, next, clock))
  {
    hide Valid, After, Holes, Choice, FlaggedRight;
    IterationKeepsInStep(f, now, next, clock);
    if Choice(f, now, next, clock).Release? {
      ReleaseHandsOver(f, now, next, clock);
      var d, d' := f.log.delivered, After(f, now, next, clock).log.delivered;
      if d != [] { LastIsFlaggedRight(f, now, next, clock); }
      TellingSnoc(d, d');
    } else {
      NothingReleased(f, now, next, clock);
    }
  }

  lemma LastIsFlaggedRight(f: Flow, now: U64, next: U64, clock: Clock)
    requires Valid(f, SHORT) && Choice(f, now, next, clock).Release? && Telling(f) && f.log.delivered != []
    ensures var d := After(f, now, next, clock).log.delivered;
      |d| == |f.log.delivered| + 1 && FlaggedRight(d, |d| - 1)
  {
    hide Valid, After, Holes, Choice;
    ReleaseHandsOver(f, now, next, clock);
    FlagExactly(f, now, next, clock);
    var d := After(f, now, next, clock).log.delivered;
    assert d[..|d| - 1][|d| - 2] == d[|d| - 2];
    if !f.cursor.flowStart { LastHandedOver(f); }
  }

  lemma {:induction false} PassKeepsTelling(f: Flow, i: nat, now: U64, clock: Clock)
    requires Valid(f, SHORT) && Prompt(f, i, now, clock) && Telling(f)
    ensures Telling(Output(f, i, now, clock, SHORT))
    decreases f.queue.size
  {
    hide Valid, OutputOnce, Telling;
    if f.queue.size > 0 {
      ShortRing(f);
      var (f', more) := OutputOnce(f, now, clock.now(i), clock, SHORT);
      OutputOnceKeepsValid(f, now, clock.now(i), clock, SHORT);
      IterationKeepsTelling(f, now, clock.now(i), clock);
      if more { PassKeepsTelling(f', i + 1, clock.now(i), clock); }
    }
  }

  // No packet of the run is dropped for its age.
  ghost predicate Punctual(events: seq<Event>)
    requires forall e :: e in events ==> EventOk(e)
  {
    if events == [] then true
    else
      var before := Run(events[..|events| - 1], SHORT);
      Punctual(events[..|events| - 1]) &&
      match events[|events| - 1]
      case Pass(clock) => Prompt(before, 1, clock.now(0), clock)
      case Arrive(a) => true
      case Report => true
      case NewFlowId => true
  }

  // In such a run, whatever is lost, duplicated or reordered on the way, every block that opens no stream is flagged as
  // a discontinuity exactly if its number is not the one after its predecessor's.
  lemma {:induction false} FlagsTellGaps(events: seq<Event>)
    requires forall e :: e in events ==> EventOk(e)
    requires Punctual(events)
    ensures Telling(Run(events, SHORT))
  {
    hide Valid, Enqueue, Output, Prompt, FlaggedRight;
    if events != [] {
      var before := Run(events[..|events| - 1], SHORT);
      FlagsTellGaps(events[..|events| - 1]);
      match events[|events| - 1]
      case Arrive(a) =>
        ReaderInStep(events);
        ArrivalKeepsReader(before, a);
        SlotsAfterArrival(before, a);
      case Pass(clock) => PassKeepsTelling(before, 1, clock.now(0), clock);
      case Report =>
      case NewFlowId =>
    }
  }

  // The number of the packet that opened the stream.
  ghost function Opener(events: seq<Event>): U32
    requires forall e :: e in events ==> EventOk(e)
  {
    if events == [] then 0
    else
      var before, e := Run(events[..|events| - 1], SHORT), events[|events| - 1];
      if e.Arrive? && Opens(before, e.arrival) then e.arrival.packet.seqNum else Opener(events[..|events| - 1])
  }

  ghost predicate Opens(f: Flow, a: Arrival)
    requires Valid(f, SHORT)
  {
    ShortRing(f);
    !f.queue.hasItems && Enqueue(f, a, SHORT).1.Stored?
  }

  lemma OpenerSets(f: Flow, a: Arrival)
    requires Valid(f, SHORT) && Opens(f, a)
    ensures SlotsOk(f.queue.slots, f.log, SHORT) && f.queue.readIdx < 0x1_0000
    ensures f.queue.size >= OccupiedBytes(f.queue.slots)
    ensures Next(Enqueue(f, a, SHORT).0.cursor.lastSeqOutput, SHORT) == a.packet.seqNum % 0x1_0000
  {
    hide OccupiedBytes, FatesOk, Announced, CursorOk, Behind, TooLate;
    ShortRing(f);
  }

  lemma {:induction false} PassKeepsStart(f: Flow, i: nat, now: U64, clock: Clock)
    requires Valid(f, SHORT)
    ensures var f' := Output(f, i, now, clock, SHORT);
      f'.cursor.flowStart ==> f.cursor.flowStart && f'.cursor.lastSeqOutput == f.cursor.lastSeqOutput
    decreases f.queue.size
  {
    hide Valid, OutputOnce, Choice, Holes;
    if f.queue.size > 0 {
      ShortRing(f);
      var next := clock.now(i);
      var (f', more) := OutputOnce(f, now, next, clock, SHORT);
      OutputOnceKeepsValid(f, now, next, clock, SHORT);
      if Choice(f, now, next, clock).Release? {
        ReleaseHandsOver(f, now, next, clock);
      } else {
        NothingReleased(f, now, next, clock);
      }
      if more { PassKeepsStart(f', i + 1, next, clock); }
    }
  }

  // Until its first block is handed over, the number expected is that of the packet that opened the stream: the first
  // block is flagged exactly if it is another one, when nothing was dropped.
  lemma {:induction false} FirstIsOpener(events: seq<Event>)
    requires forall e :: e in events ==> EventOk(e)
    ensures var f := Run(events, SHORT);
      f.cursor.flowStart ==> Next(f.cursor.lastSeqOutput, SHORT) == Opener(events) % 0x1_0000
  {
    hide Valid, Enqueue, Output, Opens;
    if events != [] {
      var before := Run(events[..|events| - 1], SHORT);
      FirstIsOpener(events[..|events| - 1]);
      match events[|events| - 1]
      case Arrive(a) => OpenerStep(before, a);
      case Pass(clock) => PassKeepsStart(before, 1, clock.now(0), clock);
      case Report =>
      case NewFlowId =>
    }
  }

  lemma OpenerStep(f: Flow, a: Arrival)
    requires Valid(f, SHORT)
    ensures SlotsOk(f.queue.slots, f.log, SHORT) && f.queue.readIdx < 0x1_0000
    ensures f.queue.size >= OccupiedBytes(f.queue.slots)
    ensures var f' := Enqueue(f, a, SHORT).0;
      if Opens(f, a) then Next(f'.cursor.lastSeqOutput, SHORT) == a.packet.seqNum % 0x1_0000 else f'.cursor == f.cursor
  {
    hide Valid, Enqueue, OccupiedBytes, SlotsOk;
    ShortRing(f);
    ArrivalKeepsReader(f, a);
    if Opens(f, a) { OpenerSets(f, a); }
  }

  // ---- a run out of order ----

  const FIRST := Packet(11, 1, 100, 1, 1)
  const PASSED := Packet(10, 0, 100, 0, 0)

  // One clock reading for the whole pass and a buffer of 1000 ticks.
  const AT_1001 := Clock(i => 1001, 1000, false)

  function Arriving(p: Packet): Event { Arrive(Arrival(p, false, 1001, 1, 1000, false, false)) }

  lemma DueAt1001(s: Slot, holes: nat)
    requires s.Held? && s.packet.time <= 1 && s.target == 1000 + s.packet.time
    ensures Decide(s, holes, 1001, 1001, AT_1001).Release?
  {
    assert Age(s.packet, 1001) == 1001 - s.packet.time;
  }

  // The ring holds this one packet, counted exactly, and it is due.
  ghost predicate Due(f: Flow, p: Packet) {
    && Alone(f, p) && f.queue.hasItems && f.queue.size == p.size
    && f.queue.slots[p.seqNum % 0x1_0000].target == 1000 + p.time && p.time <= 1
  }

  lemma DueIsChosen(f: Flow, p: Packet)
    requires Valid(f, SHORT) && Due(f, p)
    ensures Choice(f, 1001, 1001, AT_1001).Release?
  {
    hide Valid, Holes, Decide, OccupiedBytes;
    ShortRing(f);
    AloneIsFirst(f, p);
    DueAt1001(f.queue.slots[p.seqNum % 0x1_0000], Distance(f, p.seqNum));
  }

  // The packet has gone out, the ring is empty and the stream is alive.
  ghost predicate Gone(f: Flow, p: Packet, f': Flow) {
    && |f.queue.slots| == |f'.queue.slots| == 0x1_0000 && (forall i :: 0 <= i < 0x1_0000 ==> f'.queue.slots[i].Free?)
    && f'.queue.hasItems && f'.queue.size == 0 && f'.queue.readIdx == (p.seqNum + 1) % 0x1_0000
    && !f'.cursor.flowStart && f'.log.delivered != [] && f'.log.delivered[..|f'.log.delivered| - 1] == f.log.delivered
    && var b := f'.log.delivered[|f'.log.delivered| - 1];
      b.packet == p && b.flowStart == f.cursor.flowStart && (Distance(f, p.seqNum) > 0 ==> b.discontinuity)
  }

  lemma AloneIsGone(f: Flow, p: Packet)
    requires Valid(f, SHORT) && Due(f, p)
    requires After(f, 1001, 1001, AT_1001).queue.hasItems && After(f, 1001, 1001, AT_1001).queue.size == 0
    ensures Gone(f, p, After(f, 1001, 1001, AT_1001))
  {
    hide Valid, After, Holes, Choice, NothingAhead, OccupiedBytes;
    DueIsChosen(f, p);
    ReleaseHandsOver(f, 1001, 1001, AT_1001);
    AloneIsFirst(f, p);
  }

  // A pass at that time hands it over.
  lemma LonePass(f: Flow, p: Packet)
    requires Valid(f, SHORT) && Due(f, p)
    ensures Gone(f, p, Output(f, 1, 1001, AT_1001, SHORT))
  {
    hide Valid, Released, Holes, OccupiedBytes, Decide, Gone;
    ShortRing(f);
    DueIsChosen(f, p);
    ReleaseHandsOver(f, 1001, 1001, AT_1001);
    OutputOnceKeepsValid(f, 1001, 1001, AT_1001, SHORT);
    AloneIsGone(f, p);
  }

  lemma RunSnoc(events: seq<Event>, e: Event)
    requires forall e' :: e' in events + [e] ==> EventOk(e')
    ensures forall e' :: e' in events ==> EventOk(e')
    ensures Run(events + [e], SHORT) == Apply(Run(events, SHORT), e, SHORT)
  {
    hide Apply, Valid;
    assert (events + [e])[..|events|] == events;
    forall e' | e' in events
      ensures EventOk(e')
    {
      assert e' in events + [e];
    }
  }

  lemma FirstArrives()
    requires Valid(Fresh(SHORT), SHORT)
    ensures var f := Apply(Fresh(SHORT), Arriving(FIRST), SHORT);
      Due(f, FIRST) && f.log.delivered == []
  {
    hide Valid, OccupiedBytes;
    ShortRing(Fresh(SHORT));
    BytesOfFree(Fresh(SHORT).queue.slots);
  }

  // After a block has gone out, the packet before it arrives; it is not too late.
  lemma PassedArrives(f: Flow, f': Flow)
    requires Valid(f', SHORT) && Gone(f, FIRST, f')
    ensures var f'' := Apply(f', Arriving(PASSED), SHORT);
      && Due(f'', PASSED) && f''.log.delivered == f'.log.delivered && !f''.cursor.flowStart
      && Distance(f'', PASSED.seqNum) > 0
  {
    hide Valid, OccupiedBytes, Enqueue, Alone, Behind;
    StoredAlone(f', Arriving(PASSED).arrival);
  }

  // The numbers 11 and 10 in the order of their arrival, each followed by a pass.
  function Example(n: nat): (events: seq<Event>)
    requires n <= 4
    ensures |events| == n
  {
    [Arriving(FIRST), Pass(AT_1001), Arriving(PASSED), Pass(AT_1001)][..n]
  }

  lemma ExampleGrows(n: nat)
    requires n < 4
    ensures forall e :: e in Example(n + 1) ==> EventOk(e)
    ensures forall e :: e in Example(n) ==> EventOk(e)
    ensures Run(Example(n + 1), SHORT) == Apply(Run(Example(n), SHORT), Example(4)[n], SHORT)
  {
    hide Run, Apply, Valid;
    assert Example(n + 1) == Example(n) + [Example(4)[n]];
    RunSnoc(Example(n), Example(4)[n]);
  }

  lemma NothingYet()
    ensures Run(Example(0), SHORT) == Fresh(SHORT)
  {
    hide Apply, Valid, Fresh;
  }

  // The pass after the second arrival hands over block 10, after block 11.
  lemma OutOfOrderReached()
    ensures forall e :: e in Example(4) ==> EventOk(e)
    ensures var d := Run(Example(4), SHORT).log.delivered;
      && |d| == 2 && d[0].packet == FIRST && d[1].packet == PASSED && d[1].discontinuity && !d[1].flowStart
      && GoesBack(d[0].packet.seqNum, d[1].packet.seqNum)
  {
    hide Valid, Output, Enqueue, Due, Holes, OccupiedBytes, Run, Fresh;
    ExampleGrows(0);
    ExampleGrows(1);
    ExampleGrows(2);
    ExampleGrows(3);
    NothingYet();
    FirstArrives();
    LonePass(Run(Example(1), SHORT), FIRST);
    PassedArrives(Run(Example(1), SHORT), Run(Example(2), SHORT));
    LonePass(Run(Example(3), SHORT), PASSED);
  }
}
