// The receive ring as the library keeps it: an array of packet slots updated in place.
module ReceiveFlow {
  import opened Bytes
  import opened ReceiveRing

  // The scalar fields of the queue.
  datatype Marks = Marks(size: nat, outputIdx: nat, hasItems: bool, lastSeqFound: U32)

  // The k-th slot met going round a ring from start.
  function Around(start: nat, k: nat, max: nat): (i: nat)
    requires start < max && k <= max
    ensures i < max
  {
    (start + k) % max
  }

  lemma AroundNext(start: nat, k: nat, max: nat)
    requires start < max && k < max
    ensures (Around(start, k, max) + 1) % max == Around(start, k + 1, max)
    ensures Around(start, k + 1, max) == start <==> k + 1 == max
  {
    if start + k < max {
      Small(start + k, max);
    } else {
      OneLap(start + k, max);
    }
    if start + k + 1 < max {
      Small(start + k + 1, max);
    } else {
      OneLap(start + k + 1, max);
      if k + 1 < max { Small(start + k + 1 - max, max); }
    }
  }

  lemma AroundStart(start: nat, max: nat)
    requires start < max
    ensures Around(start, 0, max) == start
  {
    Small(start, max);
  }

  lemma Small(a: nat, max: nat)
    requires a < max
    ensures a % max == a
  {
  }

  lemma OneLap(a: nat, max: nat)
    requires 0 < max <= a < 2 * max
    ensures a % max == a - max
  {
  }

  // A walk round the ring leaves nothing when it has met every slot, or when no bytes are left.
  lemma AllFreed(slots: seq<Slot>, start: nat, n: nat)
    requires start < |slots| && n <= |slots|
    requires forall k :: 0 <= k < n ==> slots[Around(start, k, |slots|)].Free?
    requires forall i :: 0 <= i < |slots| && slots[i].Held? ==> slots[i].packet.size > 0
    requires n == |slots| || OccupiedBytes(slots) == 0
    ensures slots == seq(|slots|, i => Free) && OccupiedBytes(slots) == 0
  {
    hide OccupiedBytes;
    forall i | 0 <= i < |slots|
      ensures slots[i].Free?
    {
      if n == |slots| {
        var k := if i >= start then i - start else i + |slots| - start;
        if i >= start { Small(start + k, |slots|); } else { OneLap(start + k, |slots|); }
        assert Around(start, k, |slots|) == i;
      } else {
        WeightWithin(slots, i);
      }
    }
    BytesOfFree(slots);
  }

  lemma HeldPositive(f: Flow, c: Config)
    requires Valid(f, c)
    ensures forall i :: 0 <= i < |f.queue.slots| && f.queue.slots[i].Held? ==> f.queue.slots[i].packet.size > 0
  {
  }

  lemma HeldArrivals(f: Flow, c: Config)
    requires Valid(f, c)
    ensures |f.queue.slots| == c.max
    ensures forall i :: 0 <= i < |f.queue.slots| && f.queue.slots[i].Held? ==>
      f.queue.slots[i].arrival < |f.log.fates| && f.queue.slots[i].packet.size > 0
  {
  }

  lemma ReplaceFree(f: Flow, idx: nat)
    requires idx < |f.queue.slots| && f.queue.slots[idx].Free?
    ensures Replace(f, idx) == f
  {
  }

  lemma NothingHeld(f: Flow, c: Config)
    requires Valid(f, c) && f.queue.size == 0
    ensures f.queue.slots == seq(c.max, i => Free) && OccupiedBytes(f.queue.slots) == 0
  {
    hide OccupiedBytes, CursorOk;
    AllFreed(f.queue.slots, 0, 0);
  }

  class ReceiverFlow {
    const config: Config
    const slots: array<Slot>
    var marks: Marks
    var cursor: Cursor
    var stats: Stats
    // How many packets have been accepted; the next one's arrival number.
    var accepted: nat
    ghost var log: Log
    ghost var replaced: nat

    ghost function View(): Flow
      reads this, slots
    {
      var q := Queue(slots[..], marks.size, marks.outputIdx, marks.hasItems, marks.lastSeqFound);
      Flow(q, cursor, stats, log, replaced)
    }

    ghost predicate Ok()
      reads this, slots
    {
      Valid(View(), config) && accepted == |log.accepted|
    }

    constructor (c: Config)
      requires ConfigOk(c)
      ensures config == c && Ok() && View() == Fresh(c)
      ensures fresh(slots)
    {
      hide OccupiedBytes;
      config := c;
      slots := new Slot[c.max](i => Free);
      marks := Marks(0, 0, false, 0);
      cursor := Cursor(0, false, 0, 0);
      stats := Stats(0, 0, 0);
      accepted := 0;
      log := Log([], [], []);
      replaced := 0;
      new;
      assert slots[..] == Fresh(c).queue.slots;
      FreshIsValid(c);
    }

    // Frees every packet, from the read index round the ring, until the byte counter says none is left.
    method EmptyReceiverQueue()
      requires slots.Length == config.max && marks.outputIdx < config.max && OccupiedBytes(slots[..]) <= marks.size
      requires forall i :: 0 <= i < config.max && slots[i].Held? ==> slots[i].packet.size > 0
      modifies slots, `marks, `log
      ensures slots[..] == seq(config.max, i => Free)
      ensures OccupiedBytes(old(slots[..])) <= old(marks.size)
      ensures marks == old(marks).(size := old(marks.size) - OccupiedBytes(old(slots[..])))
      ensures log == DiscardWaiting(old(log))
    {
      hide OccupiedBytes, Around;
      ghost var before, total := slots[..], marks.size - OccupiedBytes(slots[..]);
      ghost var start := marks.outputIdx;
      var counter := marks.outputIdx;
      ghost var n := 0;
      AroundStart(start, config.max);
      while marks.size > 0
        invariant n < config.max && counter == Around(start, n, config.max)
        invariant log == old(log)
        invariant marks == old(marks).(size := total + OccupiedBytes(slots[..]))
        invariant forall k :: 0 <= k < n ==> slots[Around(start, k, config.max)].Free?
        invariant forall i :: 0 <= i < config.max ==> slots[i] == before[i] || slots[i].Free?
        decreases config.max - n
      {
        FreeSlot(counter);
        AroundNext(start, n, config.max);
        counter := (counter + 1) % config.max;
        n := n + 1;
        if counter == marks.outputIdx {
          break;
        }
      }
      log := DiscardWaiting(log);
      AllFreed(slots[..], start, n);
    }

    method FreeSlot(i: nat)
      requires i < slots.Length && OccupiedBytes(slots[..]) <= marks.size
      modifies slots, `marks
      ensures slots[..] == old(slots[..])[i := Free]
      ensures Weight(old(slots[i])) <= old(marks.size)
      ensures marks == old(marks).(size := old(marks.size) - Weight(old(slots[i])))
      ensures OccupiedBytes(slots[..]) == OccupiedBytes(old(slots[..])) - Weight(old(slots[i]))
    {
      hide OccupiedBytes;
      ghost var before := slots[..];
      BytesOfUpdate(before, i, Free);
      WeightWithin(slots[..], i);
      if slots[i].Held? {
        marks := marks.(size := marks.size - slots[i].packet.size);
        slots[i] := Free;
      }
      assert slots[..] == before[i := Free];
    }

    method InsertQueuePacket(idx: nat, a: Arrival) returns (failed: bool)
      requires idx < slots.Length && accepted == |log.accepted|
      modifies slots, `marks, `accepted, `log
      ensures View() == Insert(old(View()), a, idx) && accepted == |log.accepted|
      ensures failed == a.outOfMemory
    {
      if a.outOfMemory {
        slots[idx] := Free;
        return true;
      }
      slots[idx] := Held(a.packet, accepted, Wrap64(a.packet.packetTime + a.recovery));
      marks := marks.(size := marks.size + a.packet.size);
      accepted := accepted + 1;
      log := Accept(log, a.packet, idx);
      return false;
    }

    method StoreFirst(a: Arrival)
      requires Ok() && a.packet.size > 0
      modifies this, slots
      ensures Ok() && View() == Restart(old(View()), a, config)
    {
      hide OccupiedBytes, Insert, SlotsOk, FatesOk, CursorOk;
      ValidShape(View(), config);
      RestartKeepsValid(View(), a, config);
      ghost var before := View();
      if marks.size > 0 {
        HeldPositive(View(), config);
        EmptyReceiverQueue();
      } else {
        NothingHeld(View(), config);
        log := DiscardWaiting(log);
      }
      var idx := a.packet.seqNum % config.max;
      var failed := InsertQueuePacket(idx, a);
      cursor := cursor.(lastSeqOutput := (a.packet.seqNum - 1) % 0x1_0000_0000, flowStart := true);
      marks := marks.(outputIdx := idx, hasItems := true, lastSeqFound := a.packet.seqNum);
      stats := Stats(0, 0, 0);
    }

    method FreeReplaced(idx: nat)
      requires Ok() && idx < slots.Length && slots[idx].Held?
      modifies slots, `log, `replaced
      ensures View() == Replace(old(View()), idx) && accepted == |log.accepted|
    {
      log := Discard(log, slots[idx].arrival);
      replaced := replaced + slots[idx].packet.size;
      slots[idx] := Free;
    }

    method StoreAt(idx: nat, a: Arrival, outOfOrder: bool)
      requires Ok() && idx < slots.Length && outOfOrder == (Behind(View(), a) && !a.retry)
      modifies slots, `marks, `stats, `accepted, `log, `replaced
      ensures View() == Store(old(View()), a, idx) && accepted == |log.accepted|
    {
      hide OccupiedBytes, Behind, SlotsOk, FatesOk, CursorOk, Insert, Replace;
      HeldArrivals(View(), config);
      if slots[idx].Held? {
        FreeReplaced(idx);
      } else {
        ReplaceFree(View(), idx);
      }
      ghost var mid := View();
      var failed := InsertQueuePacket(idx, a);
      InsertElsewhere(mid, a, idx);
      if failed {
        return;
      }
      stats := stats.(received := stats.received + 1);
      if !a.retry && !outOfOrder {
        marks := marks.(lastSeqFound := a.packet.seqNum);
      }
    }

    method ReceiverEnqueue(a: Arrival) returns (r: Verdict)
      requires Ok() && a.packet.size > 0
      modifies this, slots
      ensures Ok() && (View(), r) == Enqueue(old(View()), a, config)
    {
      hide OccupiedBytes, Restart, Store, SlotsOk, FatesOk, CursorOk;
      ghost var before := View();
      ValidShape(before, config);
      EnqueueKeepsValid(before, a, config);
      if (!marks.hasItems && a.retry) || a.noOffset {
        return Refused;
      }
      if !marks.hasItems {
        StoreFirst(a);
        return Stored;
      }
      var idx := a.packet.seqNum % config.max;
      var outOfOrder := false;
      if a.packet.packetTime < a.lastPacketTs && a.packet.seqNum != ExpectedSeq(marks.lastSeqFound) {
        if TooLate(a) {
          var late := stats.droppedLate + 1;
          stats := stats.(droppedLate := late);
          if late > 5 * stats.received {
            marks := marks.(hasItems := false);
          }
          return Refused;
        }
        outOfOrder := !a.retry;
      }
      if idx == Before(marks.outputIdx, config.max) {
        if a.packet.packetTime > a.lastPacketTs {
          marks := marks.(lastSeqFound := a.packet.seqNum);
        }
        stats := stats.(droppedFull := stats.droppedFull + 1);
        if stats.droppedFull > 100 {
          marks := marks.(hasItems := false);
        }
        return Refused;
      }
      if slots[idx].Held? && slots[idx].packet.sourceTime == a.packet.sourceTime {
        return Duplicate;
      }
      StoreAt(idx, a, outOfOrder);
      return Stored;
    }

    // The next packet opens a new stream.
    method ForgetStream()
      requires Ok()
      modifies `marks
      ensures Ok() && View() == Forget(old(View()))
    {
      hide OccupiedBytes, SlotsOk, FatesOk, Announced;
      marks := marks.(hasItems := false);
    }

    // Looks round the ring for the first packet at or after the read index.
    method FindPacket() returns (idx: nat, holes: nat)
      requires marks.outputIdx < slots.Length
      ensures holes == Holes(slots[..], marks.outputIdx, 0)
      ensures holes < slots.Length ==> idx == Around(marks.outputIdx, holes, slots.Length) && slots[idx].Held?
    {
      idx, holes := marks.outputIdx, 0;
      AroundStart(marks.outputIdx, slots.Length);
      while slots[idx].Free?
        invariant holes < slots.Length && idx == Around(marks.outputIdx, holes, slots.Length)
        invariant Holes(slots[..], marks.outputIdx, holes) == Holes(slots[..], marks.outputIdx, 0)
        decreases slots.Length - holes
      {
        AroundNext(marks.outputIdx, holes, slots.Length);
        idx := (idx + 1) % slots.Length;
        holes := holes + 1;
        if idx == marks.outputIdx {
          return;
        }
      }
    }

    method DeliverBlock(idx: nat, holes: nat, now: U64)
      requires idx < slots.Length && slots[idx].Held? && slots[idx].arrival < |log.fates|
      modifies `cursor, `log
      ensures View() == HandOver(old(View()), slots[idx], holes, now, config)
      ensures |log.accepted| == |old(log.accepted)|
    {
      var packet := slots[idx].packet;
      var gap := holes > 0;
      if packet.seqNum != Next(cursor.lastSeqOutput, config) {
        gap := true;
      }
      log := Deliver(log, Block(packet, slots[idx].arrival, gap, cursor.flowStart));
      cursor := Cursor(packet.seqNum, false, now, 0);
    }

    method RetireSlot(idx: nat, now: U64, clock: Clock) returns (more: bool)
      requires slots.Length == config.max && idx < slots.Length && slots[idx].Held?
      requires slots[idx].packet.size <= marks.size
      modifies slots, `marks, `cursor
      ensures (View(), more) == Advance(old(View()), idx, now, clock, config)
    {
      marks := marks.(size := marks.size - slots[idx].packet.size, outputIdx := (idx + 1) % config.max);
      slots[idx] := Free;
      if marks.size == 0 {
        if cursor.lastOutputTime == 0 {
          cursor := cursor.(lastOutputTime := now);
        }
        if Wrap64(now - cursor.lastOutputTime) > clock.recovery {
          marks := marks.(hasItems := false);
        }
        return false;
      }
      cursor := cursor.(lastOutputTime := now);
      return true;
    }

    // A packet found past free slots first has to be due; then its age decides, and last its target time.
    static method DecideOn(s: Slot, holes: nat, now: U64, next: U64, clock: Clock) returns (d: Decision)
      requires s.Held?
      ensures d == Decide(s, holes, now, next, clock)
    {
      if holes > 0 {
        if Wrap64(now - s.packet.time) > 2 * clock.recovery {
        } else if s.target > now {
          return Wait;
        }
      }
      var age := Wrap64(next - s.packet.time);
      if 10 * age > 11 * clock.recovery {
        if age > 2 * clock.recovery {
          return Drop;
        }
      } else if s.target > next && (!clock.scaling || Wrap64(s.packet.packetTime + clock.recovery) > next) {
        return Wait;
      }
      return Release;
    }

    method OutputIteration(now: U64, next: U64, clock: Clock) returns (more: bool)
      requires Ok()
      modifies this, slots
      ensures Ok() && (View(), more) == OutputOnce(old(View()), now, next, clock, config)
    {
      hide OccupiedBytes, Holes, Decide, HandOver, Advance, SlotsOk, FatesOk, CursorOk;
      ghost var before := View();
      ValidShape(before, config);
      HeldArrivals(before, config);
      OutputOnceKeepsValid(before, now, next, clock, config);
      var idx, holes := FindPacket();
      if holes == config.max {
        marks := marks.(hasItems := false, size := 0);
        replaced := 0;
        return false;
      }
      WeightWithin(slots[..], idx);
      var decision := DecideOn(slots[idx], holes, now, next, clock);
      match decision {
        case Wait =>
          return false;
        case Release =>
          HandOverKeepsQueue(before, slots[idx], holes, next, config);
          DeliverBlock(idx, holes, next);
          more := RetireSlot(idx, next, clock);
        case Drop =>
          cursor := cursor.(tooLate := cursor.tooLate + 1);
          if cursor.tooLate > 100 {
            marks := marks.(hasItems := false);
            return false;
          }
          log := Discard(log, slots[idx].arrival);
          more := RetireSlot(idx, next, clock);
      }
    }

    method ReceiverOutput(clock: Clock)
      requires Ok()
      modifies this, slots
      ensures Ok() && View() == Output(old(View()), 1, clock.now(0), clock, config)
    {
      hide OutputOnce, Valid;
      ghost var before := View();
      var now, i, more := clock.now(0), 1, true;
      while more && marks.size > 0
        invariant Ok() && i > 0
        invariant (if more then Output(View(), i, now, clock, config) else View())
          == Output(before, 1, clock.now(0), clock, config)
        decreases more, marks.size
      {
        var next := clock.now(i);
        ValidShape(View(), config);
        OutputOnceKeepsValid(View(), now, next, clock, config);
        more := OutputIteration(now, next, clock);
        now, i := next, i + 1;
      }
    }
  }
}
