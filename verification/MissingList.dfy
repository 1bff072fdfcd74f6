// The missing queue as the library keeps it: a singly linked list with a tail pointer, changed in place.
module MissingList {
  import opened Bytes
  import opened MissingQueue
  import opened Sequences

  class MissingBuffer {
    var entry: Entry
    var next: MissingBuffer?

    constructor (e: Entry)
      ensures entry == e && next == null
    {
      entry, next := e, null;
    }
  }

  function At(spine: seq<MissingBuffer>, k: nat): MissingBuffer? { if k < |spine| then spine[k] else null }

  // The nodes of spine, linked in order, hold the entries.
  ghost predicate Linked(spine: seq<MissingBuffer>, entries: seq<Entry>)
    reads spine
  {
    && |spine| == |entries| && Distinct(spine)
    && (forall i {:trigger spine[i].next} :: 0 <= i < |spine| ==> spine[i].next == At(spine, i + 1))
    && (forall i {:trigger spine[i].entry} :: 0 <= i < |spine| ==> spine[i].entry == entries[i])
  }

  lemma NextDue(start: int, k: nat, step: nat)
    ensures Wrap64(Wrap64(start + k * step) + step) == Wrap64(start + (k + 1) * step)
  {
    assert (k + 1) * step == k * step + step;
  }

  // What becomes of an entry that the walk has seen, if it stays.
  function Seen(e: Entry, i: nat, env: Env): Entry {
    if Decide(e, i, env).Retry? then Asked(e, env.peers(e.peer), env.now(i)) else e
  }

  lemma SurvivorsStep(kept: seq<Entry>, es: seq<Entry>, i: nat, env: Env)
    requires i < |es|
    ensures kept + Survivors(es, i, env) ==
      kept + (if Decide(es[i], i, env).Remove? then [] else [Seen(es[i], i, env)]) + Survivors(es, i + 1, env)
  {
    hide Decide;
  }

  lemma PassStep(n: Nacks, es: seq<Entry>, i: nat, env: Env)
    requires i < |es|
    ensures NackPass(n, es, i, env) == NackPass(NackStep(n, es, i, env), es, i + 1, env)
    ensures PassFits(n, es, i, env) ==>
      StepFits(n, es, i, env) && PassFits(NackStep(n, es, i, env), es, i + 1, env)
  {
    hide NackStep, StepFits;
  }

  lemma PassEnds(n: Nacks, es: seq<Entry>, env: Env)
    ensures NackPass(n, es, |es|, env) == SendGroup(n, env.hasPeers) && Survivors(es, |es|, env) == []
  {
  }

  lemma NackedWithout(entries: seq<Entry>, k: nat)
    requires k < |entries|
    ensures Nacked(Without(entries, k)) == Nacked(entries) - if entries[k].nackCount > 0 then 1 else 0
  {
    NackedRemove(entries, k);
  }

  lemma AppendUnasked(entries: seq<Entry>, e: Entry)
    requires e.nackCount == 0
    ensures Nacked(entries + [e]) == Nacked(entries)
  {
    NackedAppend(entries, [e]);
  }

  lemma FirstDue(start: U64, step: nat)
    ensures Wrap64(start + 0 * step) == start
  {
  }

  lemma GapEntryIs(g: Gap, k: nat, clock: nat -> U64, step: nat)
    requires step == Wrap64(g.timeNow - g.timeLast) / ((g.current - g.last) % 0x1_0000 + 1)
    ensures GapEntry(g, k, clock) == Entry((g.last + 1 + k) % Modulus(g.shortSeq), 0,
      DueTime(Wrap64(g.timeLast + (k + 1) * step), clock(k), g.recovery), Wrap64(clock(k) + g.rtt), g.peer)
  {
  }

  class MissingFlow {
    var missing: MissingBuffer?
    var missingTail: MissingBuffer?
    var missingCounter: nat
    const nackArray: array<U32>
    var nackCounter: nat
    ghost var spine: seq<MissingBuffer>
    ghost var entries: seq<Entry>
    ghost var sent: seq<seq<U32>>

    // The tail is the last node whenever there is one; flushing leaves it dangling.
    ghost predicate ListOk()
      reads this, spine
    {
      && |spine| == |entries| && Linked(spine, entries)
      && missing == At(spine, 0)
      && (spine != [] ==> missingTail == spine[|spine| - 1])
    }

    ghost predicate Valid()
      reads this, spine
    {
      ListOk() && missingCounter == Nacked(entries) && nackArray.Length == MAX_NACKS && nackCounter <= MAX_NACKS
    }

    ghost function Waiting(): Nacks
      requires nackCounter <= nackArray.Length
      reads this, nackArray
    {
      Nacks(nackArray[..nackCounter], sent)
    }

    ghost function View(): State
      requires Valid()
      reads this, spine, nackArray
    {
      State(entries, missingCounter, Waiting())
    }

    constructor ()
      ensures Valid() && View() == START && spine == [] && fresh(nackArray)
    {
      missing, missingTail, missingCounter := null, null, 0;
      nackArray := new U32[MAX_NACKS];
      nackCounter := 0;
      spine, entries, sent := [], [], [];
    }

    // Appends an entry; its due time is kept within the recovery buffer before now.
    method ReceiverMissing(peer: nat, nackTime: U64, seqNum: U32, rtt: U64, now: U64, recovery: U64)
      requires Valid()
      modifies this, spine
      ensures Valid() && nackCounter == old(nackCounter) && sent == old(sent)
      ensures entries == old(entries) + [Entry(seqNum, 0, DueTime(nackTime, now, recovery), Wrap64(now + rtt), peer)]
      ensures |spine| == |old(spine)| + 1 && spine[..|old(spine)|] == old(spine) && fresh(spine[|old(spine)|])
      ensures missingCounter == old(missingCounter)
    {
      hide Linked, Nacked;
      var due := nackTime;
      if due > now {
        due := now;
      }
      if due < Wrap64(now - recovery) {
        due := now;
      }
      Append(Entry(seqNum, 0, due, Wrap64(now + rtt), peer));
    }

    // Inserts at the end of the queue.
    method Append(e: Entry)
      requires Valid() && e.nackCount == 0
      modifies this, spine
      ensures Valid() && nackCounter == old(nackCounter) && sent == old(sent) && missingCounter == old(missingCounter)
      ensures entries == old(entries) + [e]
      ensures |spine| == |old(spine)| + 1 && spine[..|old(spine)|] == old(spine) && fresh(spine[|old(spine)|])
    {
      AppendUnasked(entries, e);
      hide Nacked, Distinct;
      var m := new MissingBuffer(e);
      DistinctSnoc(spine, m);
      if spine != [] { DistinctFrom(spine, |spine| - 1); }
      if missing == null {
        missing := m;
        missingTail := m;
      } else {
        missingTail.next := m;
        missingTail := m;
      }
      spine, entries := spine + [m], entries + [e];
    }

    method FlushMissing()
      requires Valid()
      modifies this
      ensures Valid() && spine == [] && View() == Apply(old(View()), Flush)
    {
      ghost var k := 0;
      var current := missing;
      while current != null
        invariant k <= |spine| && current == At(spine, k)
        decreases |spine| - k
      {
        current := current.next;
        k := k + 1;
      }
      missing := null;
      missingCounter := 0;
      spine, entries := [], [];
    }

    // Walks from the number after the last one found up to the current one.
    method ReceiverMarkMissing(g: Gap, bloated: bool, counterMax: nat, clock: nat -> U64)
      requires Valid() && g.blocked == (bloated || missingCounter > counterMax) && g.max > 0
      requires g.last < Modulus(g.shortSeq) && g.current < Modulus(g.shortSeq)
      modifies this, spine
      ensures Valid() && View() == Apply(old(View()), Mark(g, clock))
    {
      hide Nacked, Linked, GapEntry, Wrap64;
      var missingCount := (g.current - g.last) % 0x1_0000;
      assert GapEntries(g, 0, clock) == [];
      if missingCount > 32768 {
        return;
      }
      var step := Wrap64(g.timeNow - g.timeLast) / (missingCount + 1);
      var counter := 1;
      var missingSeq := (g.last + counter) % Modulus(g.shortSeq);
      var nackTime := g.timeLast;
      WalkArrives(g, 1);
      FirstDue(g.timeLast, step);
      while missingSeq != g.current
        invariant Valid() && nackCounter == old(nackCounter) && sent == old(sent)
        invariant missingCounter == old(missingCounter)
        invariant nackArray[..] == old(nackArray[..])
        invariant fresh(set m | m in spine && m !in old(spine))
        invariant 1 <= counter <= Between(g) + 1 && counter <= g.max
        invariant missingSeq == (g.last + counter) % Modulus(g.shortSeq)
        invariant missingSeq == g.current <==> counter == Between(g) + 1
        invariant nackTime == Wrap64(g.timeLast + (counter - 1) * step)
        invariant entries == old(entries) + GapEntries(g, counter - 1, clock)
        invariant counter > 1 ==> !g.blocked
        decreases g.max - counter
      {
        NextDue(g.timeLast, counter - 1, step);
        nackTime := Wrap64(nackTime + step);
        if bloated || missingCounter > counterMax {
          break;
        }
        GapEntryIs(g, counter - 1, clock, step);
        GapEntriesSnoc(g, counter - 1, clock);
        ReceiverMissing(g.peer, nackTime, missingSeq, g.rtt, clock(counter - 1), g.recovery);
        if counter == g.max {
          break;
        }
        counter := counter + 1;
        missingSeq := (g.last + counter) % Modulus(g.shortSeq);
        WalkArrives(g, counter);
      }
    }

    method SendNackGroup(hasPeers: bool)
      requires nackCounter <= nackArray.Length
      modifies `nackCounter, `sent
      ensures nackCounter <= old(nackCounter) && Waiting() == SendGroup(old(Waiting()), hasPeers)
    {
      if nackCounter == 0 || !hasPeers {
        return;
      }
      sent := sent + [nackArray[..nackCounter]];
      nackCounter := 0;
    }

    method ClearSpace(e: Entry, first: U32, hasPeers: bool)
      requires nackArray.Length == MAX_NACKS && nackCounter <= MAX_NACKS
      modifies `nackCounter, `sent
      ensures nackCounter <= old(nackCounter) && Waiting() == MakeRoom(old(Waiting()), e, first, hasPeers)
    {
      if e.seqNum / 0x1_0000 != first / 0x1_0000 {
        SendNackGroup(hasPeers);
      } else if nackCounter == MAX_NACKS - 1 {
        SendNackGroup(hasPeers);
      } else if nackCounter >= MAX_NACKS {
        nackCounter := 0;
      }
    }

    method SetEntry(b: MissingBuffer, ghost k: nat, e: Entry)
      requires ListOk() && k < |spine| && spine[k] == b
      modifies b, `entries
      ensures ListOk() && entries == old(entries)[k := e]
    {
      DistinctFrom(spine, k);
      hide Distinct;
      b.entry := e;
      entries := entries[k := e];
    }

    method PushNack(seqNum: U32)
      requires nackCounter < nackArray.Length
      modifies nackArray, `nackCounter
      ensures nackCounter == old(nackCounter) + 1
      ensures Waiting() == Nacks(old(Waiting()).pending + [seqNum], old(sent))
    {
      nackArray[nackCounter] := seqNum;
      nackCounter := nackCounter + 1;
    }

    // The round-trip time, within the limits the peer sets.
    static method RetryInterval(p: Peer) returns (rtt: U64)
      ensures rtt == Rtt(p)
    {
      rtt := p.eightTimesRtt / 8;
      if rtt < p.rttMin {
        rtt := p.rttMin;
      } else if rtt > p.rttMax {
        rtt := p.rttMax;
      }
    }

    // Decides on one request, and makes it when it is due.
    method ProcessNack(b: MissingBuffer, ghost k: nat, p: Peer, now: U64, recovery: U64) returns (remove: bool)
      requires Valid() && k < |spine| && spine[k] == b
      requires Process(b.entry, p, now, recovery).Retry? ==> nackCounter < MAX_NACKS
      modifies b, nackArray, `nackCounter, `missingCounter, `entries
      ensures Valid()
      ensures var e, v := old(b.entry), Process(old(b.entry), p, now, recovery);
        && remove == v.Remove?
        && entries == old(entries)[k := if v.Retry? then Asked(e, p, now) else e]
        && Waiting() == Nacks(old(Waiting()).pending + (if v.Retry? then [e.seqNum] else []), old(sent))
    {
      NodeAt(k);
      hide Nacked, Wrap64, Rtt, Linked;
      var e := b.entry;
      if e.nackCount >= p.maxRetries {
        return true;
      }
      if 10 * Wrap64(now - e.insertionTime) > 11 * recovery {
        return true;
      }
      if now >= e.nextNack {
        var rtt: int := RetryInterval(p);
        var asked := e.(nextNack := Wrap64(now + Wrap64(rtt * 11 / 10)), nackCount := e.nackCount + 1);
        NackedUpdate(entries, k, asked);
        if e.nackCount == 0 {
          missingCounter := missingCounter + 1;
        }
        SetEntry(b, k, asked);
        PushNack(e.seqNum);
      }
      return false;
    }

    // One entry of the walk: the reasons to remove it come first, the request last.
    method Visit(b: MissingBuffer, ghost k: nat, ghost es: seq<Entry>, i: nat, first: U32, env: Env)
      returns (remove: bool)
      requires Valid() && k < |spine| && spine[k] == b
      requires i < |es| && es[i] == b.entry && es[0].seqNum == first && StepFits(Waiting(), es, i, env)
      modifies b, nackArray, `nackCounter, `missingCounter, `entries, `sent
      ensures Valid() && Waiting() == NackStep(old(Waiting()), es, i, env)
      ensures remove == Decide(es[i], i, env).Remove?
      ensures entries == old(entries)[k := Seen(es[i], i, env)]
    {
      hide Nacked, Linked, Process, Asked, MakeRoom;
      NodeAt(k);
      var e, p := b.entry, env.peers(b.entry.peer);
      assert entries[k := e] == entries;
      if p.recoveryOff {
        return true;
      }
      if env.ring(e.seqNum).Packet? {
        return true;
      }
      if p.bloated {
        if p.congestion.Aggressive? {
          return true;
        } else if p.congestion.Normal? && e.nackCount > 4 {
          return true;
        }
        return false;
      }
      ClearSpace(e, first, env.hasPeers);
      remove := ProcessNack(b, k, p, env.now(i), env.recovery);
    }

    lemma NodeAt(k: nat)
      requires Valid() && k < |spine|
      ensures spine[k].entry == entries[k] && spine[k].next == At(spine, k + 1)
    {
    }

    // Takes a node out of the list; previous is the node before it, if there is one.
    method Unlink(previous: MissingBuffer?, b: MissingBuffer, ghost k: nat) returns (next: MissingBuffer?)
      requires ListOk() && k < |spine| && spine[k] == b && previous == if k == 0 then null else spine[k - 1]
      modifies this, spine
      ensures ListOk() && nackCounter == old(nackCounter) && sent == old(sent) && missingCounter == old(missingCounter)
      ensures spine == Without(old(spine), k) && entries == Without(old(entries), k)
      ensures next == At(spine, k)
    {
      DistinctWithout(spine, k);
      if k > 0 { DistinctFrom(spine, k - 1); }
      hide Distinct, Without;
      next := b.next;
      if next == null {
        missingTail := previous;
      }
      if previous == null {
        missing := next;
      } else {
        previous.next := next;
      }
      spine, entries := Without(spine, k), Without(entries, k);
    }

    method RemoveFromQueue(previous: MissingBuffer?, b: MissingBuffer, ghost k: nat) returns (next: MissingBuffer?)
      requires Valid() && k < |spine| && spine[k] == b && previous == if k == 0 then null else spine[k - 1]
      modifies this, spine
      ensures Valid() && nackCounter == old(nackCounter) && sent == old(sent)
      ensures spine == Without(old(spine), k) && entries == Without(old(entries), k)
      ensures next == At(spine, k)
    {
      NackedWithout(entries, k);
      NodeAt(k);
      hide Nacked, Linked, Without;
      var asked := b.entry.nackCount != 0;
      next := Unlink(previous, b, k);
      if asked {
        missingCounter := missingCounter - 1;
      }
    }

    // Handles the node at position k and steps past it, or past the place it was removed from.
    method WalkStep(previous: MissingBuffer?, mb: MissingBuffer, ghost k: nat, ghost es: seq<Entry>, i: nat, first: U32,
                    env: Env)
      returns (nextPrevious: MissingBuffer?, next: MissingBuffer?, ghost nextK: nat)
      requires Valid() && k < |spine| && spine[k] == mb && previous == if k == 0 then null else spine[k - 1]
      requires i < |es| && es[i] == entries[k] && es[0].seqNum == first && StepFits(Waiting(), es, i, env)
      modifies this, spine, nackArray
      ensures Valid() && Waiting() == NackStep(old(Waiting()), es, i, env)
      ensures nextK <= |spine| && next == At(spine, nextK)
      ensures nextPrevious == if nextK == 0 then null else spine[nextK - 1]
      ensures entries[..nextK] ==
        old(entries[..k]) + if Decide(es[i], i, env).Remove? then [] else [Seen(es[i], i, env)]
      ensures entries[nextK..] == old(entries[k + 1..])
      ensures forall j :: 0 <= j < |spine| ==> spine[j] in old(spine)
    {
      hide Nacked, Linked, Decide, NackStep, StepFits, Seen;
      assert mb in spine;
      NodeAt(k);
      var remove := Visit(mb, k, es, i, first, env);
      NodeAt(k);
      nextPrevious, nextK := previous, k;
      if remove {
        next := RemoveFromQueue(previous, mb, k);
      } else {
        nextPrevious, next, nextK := mb, mb.next, k + 1;
      }
    }

    // Walks the queue once, removing what is settled and asking for what is due, then sends the rest.
    method ReceiverNackOutput(authenticated: bool, env: Env)
      requires Valid() && (authenticated ==> PassFits(Waiting(), entries, 0, env))
      modifies this, spine, nackArray
      ensures Valid() && View() == if authenticated then Apply(old(View()), Pass(env)) else old(View())
    {
      hide Nacked, Linked, Decide, NackStep, SendGroup, StepFits, Counted, NackPass, PassFits, Survivors;
      if !authenticated {
        return;
      }
      ghost var es, k: nat, before := entries, 0, Waiting();
      if es != [] { NodeAt(0); }
      var i, mb := 0, missing;
      var previous: MissingBuffer? := null;
      var first := if mb == null then 0 else mb.entry.seqNum;
      while mb != null
        invariant Valid() && i <= |es| && PassFits(Waiting(), es, i, env) && k <= |spine| && |spine| - k == |es| - i
        invariant entries[k..] == es[i..]
        invariant entries[..k] + Survivors(es, i, env) == Survivors(es, 0, env)
        invariant NackPass(Waiting(), es, i, env) == NackPass(before, es, 0, env)
        invariant mb == At(spine, k)
        invariant previous == if k == 0 then null else spine[k - 1]
        invariant es != [] ==> first == es[0].seqNum
        invariant forall j :: 0 <= j < |spine| ==> spine[j] in old(spine)
        decreases |es| - i
      {
        assert es[i] == es[i..][0] == entries[k..][0];
        SurvivorsStep(entries[..k], es, i, env);
        PassStep(Waiting(), es, i, env);
        previous, mb, k := WalkStep(previous, mb, k, es, i, first, env);
        assert es[i + 1..] == es[i..][1..];
        i := i + 1;
      }
      PassEnds(Waiting(), es, env);
      SendNackGroup(env.hasPeers);
      assert entries == entries[..k] && es[0..] == es;
      PassKeepsAccounting(old(missingCounter), es, 0, env);
      assert entries == Survivors(es, 0, env);
      assert Waiting() == NackPass(before, es, 0, env);
      assert missingCounter == Counted(old(missingCounter), es, 0, env);
    }
  }
}
