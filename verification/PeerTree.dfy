// The peers of a context, put into their lists and taken out of them in place.
module PeerTree {
  import opened Bytes
  import opened Sequences
  import opened PeerLists

  class PeerContext {
    var peers: Peer?
    var senderPeers: seq<Peer>
    var flows: seq<FlowRecord>
    var flowPeers: map<nat, seq<Peer>>
    // Flows are numbered in the order of their creation.
    var flowCount: nat
    var oobCurrentPeer: Peer?
    ghost var order: seq<Peer>
    ghost var live: set<Peer>
    ghost var kids: map<Peer, seq<Peer>>
    ghost var freed: seq<Peer>

    ghost function Shot(): Snapshot
      reads this
    {
      Snapshot(order, live, kids, senderPeers, flowPeers, freed)
    }

    ghost predicate Linked()
      reads `peers, `order, `live, `kids, order`next, order`prev
      reads live`child, live`siblingNext, live`siblingPrev, live`peerData, live`peerRtcp
    {
      Chain(peers, order) && SiblingLists(live, kids) && References(live, live)
    }

    ghost predicate Valid()
      reads this, live, order
    {
      Sound(Shot()) && Linked() && Settled()
    }

    // Peers and flows know each other, flow numbers are used once, and the peer last heard out of band is there.
    ghost predicate Settled()
      reads `flows, `flowPeers, `flowCount, `oobCurrentPeer, `live, live`flow
    {
      && Joined(flowPeers, live) && Flowing(flowPeers, live) && Numbered(flows, flowPeers, flowCount)
      && (oobCurrentPeer == null || oobCurrentPeer in live)
    }

    lemma AreLinked()
      requires Chain(peers, order) && SiblingLists(live, kids) && References(live, live)
      ensures Linked()
    {
    }

    constructor ()
      ensures Valid() && Shot() == Snapshot([], {}, map[], [], map[], []) && oobCurrentPeer == null
    {
      peers, oobCurrentPeer := null, null;
      senderPeers, flows, flowPeers, flowCount := [], [], map[], 0;
      order, live, kids, freed := [], {}, map[], [];
    }

    // Forgets every reference to p as another peer's data or RTCP side.
    method ClearReferences(p: Peer)
      requires live == Members(order) && Chain(peers, order) && References(live, live)
      modifies live`peerData, live`peerRtcp
      ensures References(live, live - {p})
      ensures forall q :: q in live ==>
        q.peerData == (if old(q.peerData) == p then null else old(q.peerData))
        && q.peerRtcp == (if old(q.peerRtcp) == p then null else old(q.peerRtcp))
      ensures forall q :: q in live ==>
        q.peerData == Cleared(old(q.peerData), live - {p}) && q.peerRtcp == Cleared(old(q.peerRtcp), live - {p})
    {
      hide After, Ahead;
      var check := peers;
      ghost var k: nat := 0;
      while check != null
        invariant k <= |order| && check == At(order, k)
        invariant forall q :: q in order[..k] ==>
          q.peerData == (if old(q.peerData) == p then null else old(q.peerData))
          && q.peerRtcp == (if old(q.peerRtcp) == p then null else old(q.peerRtcp))
        invariant forall q :: q in order[k..] ==> q.peerData == old(q.peerData) && q.peerRtcp == old(q.peerRtcp)
        decreases |order| - k
      {
        DistinctFrom(order, k);
        AfterAt(order, k);
        assert order[..k + 1] == order[..k] + [order[k]];
        if check.peerData == p {
          check.peerData := null;
        }
        if check.peerRtcp == p {
          check.peerRtcp := null;
        }
        check := check.next;
        k := k + 1;
      }
      assert order[..k] == order;
    }

    method PeerRemoveLinkedList(p: Peer, ghost k: nat)
      requires Chain(peers, order) && k < |order| && order[k] == p
      modifies `peers, order`next, order`prev
      ensures Chain(peers, Without(order, k)) && p.next == At(Without(order, k), k)
    {
      peers := Unchain(peers, order, k, p);
    }

    // Takes p, which has no children left, out of its parent's list.
    method PeerRemoveChild(p: Peer)
      requires Family(live, kids) && SiblingLists(live, kids) && p in live && kids[p] == [] && p.parent != null
      modifies live`child, live`siblingNext, live`siblingPrev
      ensures SiblingLists(live - {p}, KidsWithout(kids, p))
    {
      ParentOf(live, kids, p);
      PointersAfter(live, kids, p, p.parent);
      hide KidsWithout, Family, FirstKid, NextSibling, PrevSibling;
      if p.siblingPrev == null {
        p.parent.child := p.siblingNext;
      } else {
        p.siblingPrev.siblingNext := p.siblingNext;
      }
      if p.siblingNext != null {
        p.siblingNext.siblingPrev := p.siblingPrev;
      }
      forall q | q in live - {p}
        ensures q.child == FirstKid(KidsWithout(kids, p), q)
        ensures q.parent != null ==> q.siblingNext == NextSibling(KidsWithout(kids, p), q)
        ensures q.parent != null ==> q.siblingPrev == PrevSibling(KidsWithout(kids, p), q)
      {
        PointersAfter(live, kids, p, q);
      }
    }

    // Takes p out of the array of its flow, if it is there.
    method RemovePeerFromFlow(p: Peer)
      requires FlowArrays(flowPeers, live) && Joined(flowPeers, live) && p in live
      modifies `flowPeers
      ensures FlowArrays(flowPeers, live - {p}) && Joined(flowPeers, live)
      ensures FlowsPurged(old(flowPeers), flowPeers, {p})
    {
      hide Distinct;
      if p.flow.Some? && p.flow.value in flowPeers {
        var r := RemoveFromArray(flowPeers[p.flow.value], p);
        flowPeers := flowPeers[p.flow.value := r];
      }
    }

    method RemoveFromArrays(p: Peer)
      requires ArrayOk(senderPeers, live) && FlowArrays(flowPeers, live) && Joined(flowPeers, live) && p in live
      modifies `senderPeers, `flowPeers
      ensures ArrayOk(senderPeers, live - {p}) && FlowArrays(flowPeers, live - {p}) && Joined(flowPeers, live - {p})
      ensures Purged(old(senderPeers), senderPeers, {p}) && FlowsPurged(old(flowPeers), flowPeers, {p})
      ensures flowPeers.Keys == old(flowPeers).Keys
    {
      hide Distinct;
      if p.parent != null {
        RemovePeerFromFlow(p);
      }
      senderPeers := RemoveFromArray(senderPeers, p);
      RemovePeerFromFlow(p);
    }

    ghost method Record(order: seq<Peer>, live: set<Peer>, kids: map<Peer, seq<Peer>>, freed: seq<Peer>)
      modifies `order, `live, `kids, `freed
      ensures this.order == order && this.live == live && this.kids == kids && this.freed == freed
    {
      this.order, this.live, this.kids, this.freed := order, live, kids, freed;
    }

    lemma LastKidLeft(live: set<Peer>, kids: map<Peer, seq<Peer>>, p: Peer)
      requires Family(live, kids) && p in live && p.parent != null && SiblingLists(live - {p}, KidsWithout(kids, p))
      ensures p.parent in live && p.parent != p && p.parent in KidsWithout(kids, p)
      ensures p.parent.child == null <==> KidsWithout(kids, p)[p.parent] == []
    {
      ParentOf(live, kids, p);
      KidsOf(kids, p);
      hide KidsWithout;
    }

    // Takes p out of the arrays and off the record.
    method ForgetPeer(p: Peer, ghost order: seq<Peer>, ghost kids: map<Peer, seq<Peer>>)
      requires ArrayOk(senderPeers, live) && FlowArrays(flowPeers, live) && Settled() && p in live
      modifies this`senderPeers, this`flowPeers, this`oobCurrentPeer, this`order, this`live, this`kids, this`freed
      ensures this.order == order && live == old(live) - {p} && this.kids == kids && freed == old(freed) + [p]
      ensures ArrayOk(senderPeers, live) && FlowArrays(flowPeers, live) && Settled()
      ensures Purged(old(senderPeers), senderPeers, {p}) && FlowsPurged(old(flowPeers), flowPeers, {p})
    {
      hide ArrayOk, FlowArrays, Purged, FlowsPurged, Joined;
      RemoveFromArrays(p);
      if oobCurrentPeer == p {
        oobCurrentPeer := null;
      }
      Record(order, live - {p}, kids, freed + [p]);
    }

    // Takes a peer that has no children out of every list.
    method Detach(p: Peer, ghost k: nat) returns (next: Peer?)
      requires Family(live, kids) && live == Members(order) && Linked() && k < |order| && order[k] == p && kids[p] == []
      requires Settled()
      modifies `peers, live`peerData, live`peerRtcp, live`child, live`siblingNext, live`siblingPrev
      modifies live`next, live`prev, live`authenticated
      ensures Chain(peers, Without(order, k)) && next == At(Without(order, k), k)
      ensures SiblingLists(live - {p}, KidsWithout(kids, p)) && References(live - {p}, live - {p}) && Settled()
      ensures forall q :: q in live ==>
        q.authenticated == (old(q.authenticated) && !(q == p.parent && KidsWithout(kids, p)[q] == []))
      ensures forall q :: q in live ==>
        q.peerData == Cleared(old(q.peerData), live - {p}) && q.peerRtcp == Cleared(old(q.peerRtcp), live - {p})
    {
      hide Family, KidsWithout, Without, SiblingLists, References, Chain, At, Settled, Cleared;
      ClearReferences(p);
      if p.parent != null {
        PeerRemoveChild(p);
        LastKidLeft(live, kids, p);
        if p.parent.child == null {
          p.parent.authenticated := false;
        }
      } else {
        NobodysKid(live, kids, p);
      }
      PeerRemoveLinkedList(p, k);
      next := p.next;
      FewerReferences(live, live - {p}, live - {p});
    }

    // Removes a peer that has no children.
    method RemoveLeaf(p: Peer, ghost k: nat) returns (next: Peer?)
      requires Valid() && k < |order| && order[k] == p && kids[p] == []
      modifies `peers, `senderPeers, `flowPeers, `oobCurrentPeer, `order, `live, `kids, `freed
      modifies live`peerData, live`peerRtcp, live`child, live`siblingNext, live`siblingPrev, live`next, live`prev
      modifies live`authenticated
      ensures Valid() && Pruned(old(Shot()), Shot(), {p}) && order == Without(old(order), k) && next == At(order, k)
      ensures forall q :: q in live ==>
        q.authenticated == (old(q.authenticated) && !(q == p.parent && kids[q] == []))
      ensures forall q :: q in live ==>
        q.peerData == Cleared(old(q.peerData), live) && q.peerRtcp == Cleared(old(q.peerRtcp), live)
    {
      ghost var b := Shot();
      hide Distinct, Family, KidsWithout, Keep, Without, SiblingLists, References, ArrayOk, FlowArrays, Pruned,
        Purged, FlowsPurged, Chain, At, Settled, Linked, Sound, Cleared;
      SoundBasics(b);
      next := Detach(p, k);
      ForgetPeer(p, Without(order, k), KidsWithout(kids, p));
      LeafLeaves(b, Shot(), p, k);
      AreLinked();
    }

    lemma NothingCleared()
      requires Linked()
      ensures forall q :: q in live ==>
        q.peerData == Cleared(q.peerData, live) && q.peerRtcp == Cleared(q.peerRtcp, live)
    {
    }

    // Removes a peer and everything below it, children first. next is the peer that followed the last one
    // standing at the peer's place; at counts the peers before it.
    method RistPeerRemove(p: Peer) returns (next: Peer?, ghost at: nat)
      requires Valid() && p in live
      modifies `peers, `senderPeers, `flowPeers, `oobCurrentPeer, `order, `live, `kids, `freed
      modifies live`peerData, live`peerRtcp, live`child, live`siblingNext, live`siblingPrev, live`next, live`prev
      modifies live`authenticated
      ensures Valid() && Pruned(old(Shot()), Shot(), Subtree(old(live), p))
      ensures forall q :: q in live ==>
        q.authenticated == (old(q.authenticated) && !(q == p.parent && kids[q] == []))
      ensures forall q :: q in live ==>
        q.peerData == Cleared(old(q.peerData), live) && q.peerRtcp == Cleared(old(q.peerRtcp), live)
      ensures at <= |order| && next == At(order, at)
      ensures forall k :: 0 <= k < |old(order)| && old(order)[k] == p ==> order[..at] == Keep(old(order)[..k], live)
      decreases Subtree(live, p)
    {
      hide Chain, SiblingLists, References, Sound, Settled, Pruned, Under, Subtree, Keep, Without, At, Distinct, Family,
        Cleared;
      ghost var b, gone := Shot(), {};
      PrunedNone(b);
      SoundBasics(b);
      NothingCleared();
      while p.child != null
        invariant Valid() && p in live && live <= old(live)
        invariant Pruned(b, Shot(), gone) && gone <= Subtree(old(live), p) - {p}
        invariant forall q :: q in live && q != p ==> q.authenticated == old(q.authenticated)
        invariant forall q :: q in live ==>
          q.peerData == Cleared(old(q.peerData), live) && q.peerRtcp == Cleared(old(q.peerRtcp), live)
        decreases live
      {
        ghost var a := Shot();
        SoundBasics(a);
        var c := p.child;
        ChildIsBelow(b.live, a.live, a.kids, p, c);
        var n: Peer?;
        ghost var i: nat;
        n, i := RistPeerRemove(c);
        PrunedTwice(b, a, Shot(), gone, Subtree(a.live, c));
        PrunedLive(a, Shot(), Subtree(a.live, c));
        ClearedTwice(a.live, live);
        gone := gone + Subtree(a.live, c);
      }
      ghost var a := Shot();
      SoundBasics(a);
      NothingLeftBelow(b, a, p, gone);
      ghost var m :| 0 <= m < |order| && order[m] == p;
      next := RemoveLeaf(p, m);
      at := m;
      PrunedTwice(b, a, Shot(), gone, {p});
      PrunedLive(a, Shot(), {p});
      ClearedTwice(a.live, live);
      forall k | 0 <= k < |b.order| && b.order[k] == p
        ensures order[..at] == Keep(b.order[..k], live)
      {
        PlaceAfterRemoval(b, a, gone, p, k, m);
      }
    }

    // Removes every peer, going on each time from the one the removal names as next.
    method DestroyPeers()
      requires Valid()
      modifies this, live
      ensures Valid() && live == {} && order == [] && peers == null
      ensures old(freed) <= freed && Members(freed) == Members(old(freed)) + old(live)
    {
      ghost var b := Shot();
      PrunedNone(b);
      hide SiblingLists, References, Pruned, Under, Subtree, Distinct, Family;
      var peer := peers;
      ghost var gone := {};
      while peer != null
        invariant Valid() && peer == At(order, 0) && live <= old(live) && Pruned(b, Shot(), gone)
        decreases live
      {
        ghost var a := Shot();
        assert order[0] == peer;
        SelfUnder(a.live, peer);
        ghost var at: nat;
        peer, at := RistPeerRemove(peer);
        assert order[..at] == Keep(a.order[..0], live);
        PrunedTwice(b, a, Shot(), gone, Subtree(a.live, a.order[0]));
        PrunedLive(a, Shot(), Subtree(a.live, a.order[0]));
        gone := gone + Subtree(a.live, a.order[0]);
      }
      AllFreed(b, Shot(), gone);
    }

    // Removes peers from the front of the sender's array until it is empty.
    method EmptySenderArray() returns (ghost gone: set<Peer>)
      requires Valid()
      modifies this, live
      ensures Valid() && live <= old(live) && Pruned(old(Shot()), Shot(), gone) && senderPeers == []
    {
      ghost var b := Shot();
      PrunedNone(b);
      gone := {};
      hide Linked, Settled, Pruned, Subtree, Sound, Family, Members;
      while senderPeers != []
        invariant Valid() && live <= old(live) && Pruned(b, Shot(), gone)
        decreases live
      {
        ghost var a := Shot();
        SenderPeersLive();
        var p := senderPeers[0];
        SelfUnder(a.live, p);
        var next: Peer?;
        ghost var at: nat;
        next, at := RistPeerRemove(p);
        PrunedTwice(b, a, Shot(), gone, Subtree(a.live, p));
        PrunedLive(a, Shot(), Subtree(a.live, p));
        gone := gone + Subtree(a.live, p);
      }
    }

    // The sender's way: first the peers of its array, then all that are left.
    method SenderDestroyLocal()
      requires Valid()
      modifies this, live
      ensures Valid() && live == {} && order == [] && peers == null && senderPeers == []
      ensures old(freed) <= freed && Members(freed) == Members(old(freed)) + old(live)
    {
      hide Linked, Settled, Pruned, Sound, Family, Members;
      ghost var b := Shot();
      ghost var gone := EmptySenderArray();
      PrunedLive(b, Shot(), gone);
      PrunedFreed(b, Shot(), gone);
      DestroyPeers();
      SenderPeersLive();
      NobodyIn(senderPeers, live);
    }

    lemma SenderPeersLive()
      requires Valid()
      ensures forall q :: q in senderPeers ==> q in live
    {
    }

    // Marks a peer as dead from this reading of the clock on.
    static method KillPeer(p: Peer, clock: U64)
      modifies p`dead, p`deadSince
      ensures p.dead && p.deadSince == clock
    {
      p.dead := true;
      p.deadSince := clock;
    }

    // What the check does with one peer; true if it removed the peer.
    method CheckPeer(p: Peer, now: U64, simple: bool, clock: U64) returns (removed: bool)
      requires Valid() && p in live && (p.parent == null || (p in kids && kids[p] == []))
      modifies `peers, `senderPeers, `flowPeers, `oobCurrentPeer, `order, `live, `kids, `freed
      modifies live`peerData, live`peerRtcp, live`child, live`siblingNext, live`siblingPrev, live`next, live`prev
      modifies live`authenticated, p`dead, p`deadSince, p`timedOut
      ensures Valid() && removed == (p.parent != null && old(Overdue(p, now)))
      ensures Pruned(old(Shot()), Shot(), if removed then {p} else {})
      ensures !removed ==>
        && p.dead == (old(p.dead) || old(Lapsed(p, now, simple)))
        && p.timedOut == (old(p.timedOut) || (p.parent == null && old(Overdue(p, now))))
      ensures forall q :: q in live ==>
        q.peerData == Cleared(old(q.peerData), live) && q.peerRtcp == Cleared(old(q.peerRtcp), live)
    {
      hide Linked, Settled, Pruned, Sound, Family, Subtree, Cleared;
      PrunedNone(Shot());
      NothingCleared();
      SoundBasics(Shot());
      var last: U64 := LastHeard(p, p.peerRtcp, simple);
      removed := false;
      if !p.dead && now > last && last > 0 {
        if now - last > p.sessionTimeout {
          KillPeer(p, clock);
        }
      } else if p.dead && p.parent != null {
        if p.deadSince < now && now - p.deadSince > 5000 * RIST_CLOCK {
          LeafAlone(live, kids, p);
          var next: Peer?;
          ghost var at: nat;
          next, at := RistPeerRemove(p);
          removed := true;
        }
      } else if !p.timedOut && p.dead && p.deadSince < now && now - p.deadSince > 5000 * RIST_CLOCK {
        p.timedOut := true;
      }
    }

    // One more peer is checked.
    method CheckOne(p: Peer, now: U64, simple: bool, clock: U64, ghost full: seq<Peer>, ghost i: nat, ghost was: Census)
      returns (removed: bool)
      requires Valid() && p in live && (p.parent == null || (p in kids && kids[p] == []))
      requires i < |full| && full[i] == p && Distinct(full) && Progress(full, i, live, was, now, simple)
      modifies `peers, `senderPeers, `flowPeers, `oobCurrentPeer, `order, `live, `kids, `freed
      modifies live`peerData, live`peerRtcp, live`child, live`siblingNext, live`siblingPrev, live`next, live`prev
      modifies live`authenticated, live`dead, live`deadSince, live`timedOut
      ensures Valid() && removed == (p.parent != null && old(Overdue(p, now)))
      ensures Pruned(old(Shot()), Shot(), if removed then {p} else {})
      ensures Progress(full, i + 1, live, was, now, simple)
    {
      hide Valid, Pruned, Under, Distinct, Lapsed, Overdue, Cleared, Untouched;
      DistinctFrom(full, i);
      AtVisit(p, live, was, now, simple);
      ghost var before := Shot();
      removed := CheckPeer(p, now, simple, clock);
      PrunedLive(before, Shot(), if removed then {p} else {});
      ClearedTwice(before.live, live);
    }

    // How far a check has got.
    ghost predicate Checking(b: Snapshot, i: nat, was: Census, now: U64, simple: bool)
      reads this, live, order, was.rtcp.Values
    {
      && Valid() && Flat(live, kids) && Distinct(b.order) && b.live == Members(b.order) && i <= |b.order|
      && CensusOk(was, b.live) && Pruned(b, Shot(), Removed(b.order, i, was))
      && Progress(b.order, i, live, was, now, simple)
    }

    method CheckNext(p: Peer, now: U64, simple: bool, clock: U64, ghost b: Snapshot, ghost i: nat, ghost was: Census)
      requires Checking(b, i, was, now, simple) && i < |b.order| && p == b.order[i]
      modifies `peers, `senderPeers, `flowPeers, `oobCurrentPeer, `order, `live, `kids, `freed
      modifies live`peerData, live`peerRtcp, live`child, live`siblingNext, live`siblingPrev, live`next, live`prev
      modifies live`authenticated, live`dead, live`deadSince, live`timedOut
      ensures Checking(b, i + 1, was, now, simple) && live <= old(live)
    {
      hide Checking, Valid, Pruned, Flat, Cleared, Lapsed, Overdue, Progress, Removed, Distinct;
      ghost var a := Shot();
      Opened(b, i, was, now, simple);
      var removed := CheckOne(p, now, simple, clock, b.order, i, was);
      ghost var gone := if removed then {p} else {};
      PrunedLive(a, Shot(), gone);
      PrunedTwice(b, a, Shot(), Removed(b.order, i, was), gone);
      FlatPruned(a, Shot(), gone);
      RemovedStep(b.order, i, was);
      Closed(b, i + 1, was, now, simple);
    }

    // What CheckNext knows before it looks at the peer, and what it has to know afterwards.
    lemma Opened(b: Snapshot, i: nat, was: Census, now: U64, simple: bool)
      requires Checking(b, i, was, now, simple) && i < |b.order|
      ensures Valid() && Flat(live, kids) && Pruned(b, Shot(), Removed(b.order, i, was)) && Distinct(b.order)
      ensures b.live == Members(b.order) && CensusOk(was, b.live) && Progress(b.order, i, live, was, now, simple)
      ensures b.order[i] in b.live
      ensures b.order[i] in live && (b.order[i].parent == null || (b.order[i] in kids && kids[b.order[i]] == []))
      ensures Overdue(b.order[i], now) <==> b.order[i] in was.overdue
    {
    }

    lemma Closed(b: Snapshot, i: nat, was: Census, now: U64, simple: bool)
      requires Valid() && Flat(live, kids) && Distinct(b.order) && b.live == Members(b.order) && i <= |b.order|
      requires CensusOk(was, b.live) && Pruned(b, Shot(), Removed(b.order, i, was))
      requires Progress(b.order, i, live, was, now, simple)
      ensures Checking(b, i, was, now, simple)
    {
    }

    // One walk over all peers, going on each time from the one noted as next before the peer was looked at. Exactly
    // the peers with a parent that were overdue are removed; of the others those become dead that had lapsed, as
    // long as the RTCP side through which they may have been heard is still there.
    method TimeoutCheck(now: U64, simple: bool, clock: nat -> U64)
      requires Valid() && Flat(live, kids)
      modifies `peers, `senderPeers, `flowPeers, `oobCurrentPeer, `order, `live, `kids, `freed
      modifies live`peerData, live`peerRtcp, live`child, live`siblingNext, live`siblingPrev, live`next, live`prev
      modifies live`authenticated, live`dead, live`deadSince, live`timedOut
      ensures Valid() && Flat(live, kids) && Pruned(old(Shot()), Shot(), old(Expiring(live, now)))
      ensures forall q :: q in live ==> Visited(q, live, old(Survey(live, now, simple)), simple)
    {
      CheckBegins(now, simple);
      hide Checking, Valid, Pruned, Flat, At, Visited, References;
      ghost var b, was := Shot(), Survey(live, now, simple);
      var peer, i := peers, 0;
      while peer != null
        invariant Checking(b, i, was, now, simple) && i <= |b.order| && peer == At(b.order, i) && live <= old(live)
        decreases |b.order| - i
      {
        NextIsRest(b, i, was, now, simple);
        var next := peer.next;
        CheckNext(peer, now, simple, clock(i), b, i, was);
        peer := next;
        i := i + 1;
      }
      CheckEnds(b, i, was, now, simple);
    }

    lemma CheckBegins(now: U64, simple: bool)
      requires Valid() && Flat(live, kids)
      ensures References(live, live) && Checking(Shot(), 0, Survey(live, now, simple), now, simple)
      ensures peers == At(order, 0)
    {
      LinkedParts();
      hide Linked, Settled, Pruned, Sound, Distinct, Family, Members, Flat, Progress, Survey, CensusOk, Removed;
      PrunedNone(Shot());
      SoundBasics(Shot());
      NobodyCheckedYet(order, live, now, simple);
    }

    lemma LinkedParts()
      requires Linked()
      ensures References(live, live) && peers == At(order, 0)
    {
    }

    // Where the walk goes next.
    lemma NextIsRest(b: Snapshot, i: nat, was: Census, now: U64, simple: bool)
      requires Checking(b, i, was, now, simple) && i <= |b.order| && At(b.order, i) != null
      ensures i < |b.order| && b.order[i] in live && b.order[i].next == At(b.order, i + 1)
    {
      RestIsKept(b.order, live, i);
    }

    lemma CheckEnds(b: Snapshot, i: nat, was: Census, now: U64, simple: bool)
      requires Checking(b, i, was, now, simple) && i <= |b.order| && At(b.order, i) == null
      ensures Valid() && Flat(live, kids) && Pruned(b, Shot(), was.expiring)
      ensures forall q :: q in live ==> Visited(q, live, was, simple)
    {
    }

    // Walks a parent's list of children to its end.
    method LastChild(parent: Peer) returns (child: Peer)
      requires Family(live, kids) && SiblingLists(live, kids) && parent in live && kids[parent] != []
      ensures child == kids[parent][|kids[parent]| - 1] && child in live
    {
      ghost var s := kids[parent];
      KidsLive(live, kids, parent);
      DistinctKids(live, kids, parent);
      hide Family, Distinct, After, Ahead;
      child := parent.child;
      ghost var j: nat := 0;
      AfterAt(s, 0);
      while child.siblingNext != null
        invariant j < |s| && child == s[j] && child.siblingNext == At(s, j + 1)
        decreases |s| - j
      {
        child := child.siblingNext;
        j := j + 1;
        AfterAt(s, j);
        assert child in s;
      }
    }

    // Puts a new child at the end of its parent's list.
    method AppendChild(p: Peer)
      requires Family(live, kids) && SiblingLists(live, kids) && p !in live
      requires p.parent != null && p.parent in live && p.parent.depth < p.depth
      requires p.child == null && p.siblingNext == null && p.siblingPrev == null
      modifies live`child, live`siblingNext, p`siblingPrev
      ensures SiblingLists(live + {p}, KidsWith(kids, p))
    {
      DistinctKids(live, kids, p.parent);
      KidsLive(live, kids, p.parent);
      PointersWith(live, kids, p, p.parent);
      hide Family, KidsWith, Distinct, NextSibling, PrevSibling;
      if p.parent.child == null {
        p.parent.child := p;
      } else {
        var child := LastChild(p.parent);
        child.siblingNext := p;
        p.siblingPrev := child;
      }
      hide FirstKid;
      forall q | q in live + {p}
        ensures q.child == FirstKid(KidsWith(kids, p), q)
        ensures q.parent != null ==> q.siblingNext == NextSibling(KidsWith(kids, p), q)
        ensures q.parent != null ==> q.siblingPrev == PrevSibling(KidsWith(kids, p), q)
      {
        PointersWith(live, kids, p, q);
      }
    }

    // Puts a new peer into the lists.
    method Attach(p: Peer)
      requires Family(live, kids) && live == Members(order) && Linked() && p !in live
      requires p.parent != null ==> p.parent in live && p.parent.depth < p.depth
      requires p.next == null && p.prev == null && p.child == null && p.siblingNext == null && p.siblingPrev == null
      requires (p.peerData == null || p.peerData in live + {p}) && (p.peerRtcp == null || p.peerRtcp in live + {p})
      requires Settled()
      modifies `peers, live`child, live`siblingNext, p`siblingPrev, live`next, p`prev
      ensures Chain(peers, order + [p]) && SiblingLists(live + {p}, KidsWith(kids, p))
      ensures References(live + {p}, live + {p}) && Settled()
    {
      hide Family, KidsWith, SiblingLists, References, Chain, Distinct, Settled;
      MoreReferences(live, p);
      if p.parent != null {
        AppendChild(p);
      } else {
        NobodysNewKid(live, kids, p);
      }
      peers := Enchain(peers, order, p);
    }

    ghost method RecordNew(p: Peer)
      requires FlowArrays(flowPeers, live) && Settled() && p !in live && p.flow == None
      modifies `order, `live, `kids
      ensures order == old(order) + [p] && live == old(live) + {p} && kids == KidsWith(old(kids), p) && Settled()
    {
      JoinedMore(flowPeers, live, p);
      hide KidsWith, Joined, Numbered;
      order, live, kids := order + [p], live + {p}, KidsWith(kids, p);
    }

    method Enter(p: Peer)
      requires Family(live, kids) && live == Members(order) && Linked() && Settled() && FlowArrays(flowPeers, live)
      requires p !in live && p.flow == None
      requires p.parent != null ==> p.parent in live && p.parent.depth < p.depth
      requires p.next == null && p.prev == null && p.child == null && p.siblingNext == null && p.siblingPrev == null
      requires (p.peerData == null || p.peerData in live + {p}) && (p.peerRtcp == null || p.peerRtcp in live + {p})
      modifies `peers, live`child, live`siblingNext, p`siblingPrev, live`next, p`prev, `order, `live, `kids
      ensures order == old(order) + [p] && live == old(live) + {p} && kids == KidsWith(old(kids), p)
      ensures Linked() && Settled()
    {
      hide SiblingLists, References, Chain, Family, KidsWith, Members, Settled, FlowArrays;
      Attach(p);
      RecordNew(p);
    }

    method PeerAppend(p: Peer)
      requires Valid() && p !in live && p !in freed && p.flow == None
      requires p.parent != null ==> p.parent in live && p.parent.depth < p.depth
      requires p.next == null && p.prev == null && p.child == null && p.siblingNext == null && p.siblingPrev == null
      requires (p.peerData == null || p.peerData in live + {p}) && (p.peerRtcp == null || p.peerRtcp in live + {p})
      modifies this, live`child, live`siblingNext, live`next, p`siblingPrev, p`prev
      ensures Valid() && Shot() == With(old(Shot()), p)
    {
      hide Linked, Distinct, Family, KidsWith, Members, Sound, Settled, FlowArrays, ArrayOk;
      ghost var b := Shot();
      SoundBasics(b);
      SoundWith(b, p);
      Enter(p);
      assert Shot() == With(b, p);
    }

    // ---- the sender's array ----

    method SenderPeerAppend(p: Peer)
      requires Valid() && p in live && p !in senderPeers
      modifies `senderPeers
      ensures Valid() && Shot() == old(Shot()).(senderPeers := old(senderPeers) + [p])
    {
      DistinctSnoc(senderPeers, p);
      hide Distinct, Family, Joined, Numbered;
      senderPeers := senderPeers + [p];
    }

    // A connection joins the sender's array, if it is for it, before it joins the lists.
    method TakeUpConnection(p: Peer, toSender: bool)
      requires Valid() && p !in live && p !in freed && p.flow == None
      requires p.parent != null ==> p.parent in live && p.parent.depth < p.depth
      requires p.next == null && p.prev == null && p.child == null && p.siblingNext == null && p.siblingPrev == null
      requires (p.peerData == null || p.peerData in live + {p}) && (p.peerRtcp == null || p.peerRtcp in live + {p})
      modifies this, live`child, live`siblingNext, live`next, p`siblingPrev, p`prev
      ensures Valid() && Shot() == With(old(Shot()), p).(senderPeers := senderPeers)
      ensures senderPeers == old(senderPeers) + if toSender then [p] else []
    {
      hide Linked, Distinct, Family, KidsWith, Members, Sound, Settled, FlowArrays, ArrayOk;
      ghost var b := Shot();
      SoundBasics(b);
      SoundWith(b, p);
      SoundWithSender(b, p);
      if toSender {
        senderPeers := senderPeers + [p];
      }
      ghost var s := senderPeers;
      Enter(p);
      assert Shot() == With(b, p).(senderPeers := s);
    }

    lemma SidesLive(p: Peer)
      requires Linked() && p in live
      ensures (p.peerData == null || p.peerData in live) && (p.peerRtcp == null || p.peerRtcp in live)
    {
    }

    // A listening peer is given a child, which is its own data side unless the parent sends to a group.
    method CreateChild(parent: Peer, id: nat, multicast: bool, receiverMode: bool) returns (p: Peer)
      requires Valid() && parent in live
      modifies this, live`child, live`siblingNext, live`next
      ensures Valid() && fresh(p) && p.parent == parent && p.advPeerId == id && p.isRtcp == old(parent.isRtcp)
      ensures Shot() == With(old(Shot()), p).(senderPeers := senderPeers)
      ensures senderPeers == old(senderPeers) + if p.isRtcp && !receiverMode then [p] else []
      ensures p.peerData == if multicast then old(parent.peerData) else p
    {
      hide Sound, Settled, Linked, With;
      SidesLive(parent);
      p := new Peer(parent, id);
      p.isRtcp := parent.isRtcp;
      p.peerData := p;
      if multicast {
        p.peerData := parent.peerData;
      }
      TakeUpConnection(p, p.isRtcp && !receiverMode);
    }

    // ---- flows ----

    // Whether a peer of that id has already announced that flow in the array.
    static method FlowHasPeer(s: seq<Peer>, flowId: nat, id: nat) returns (r: bool)
      ensures r <==> HasPeer(s, flowId, id)
    {
      for j := 0 to |s|
        invariant !HasPeer(s[..j], flowId, id)
      {
        if s[j].advFlowId == flowId && s[j].advPeerId == id {
          return true;
        }
        assert s[..j + 1] == s[..j] + [s[j]];
      }
      assert s[..|s|] == s;
      return false;
    }

    method FindFlow(id: nat) returns (k: Option<nat>)
      ensures k == FirstWithId(flows, id)
    {
      for i := 0 to |flows|
        invariant FirstWithId(flows[i..], id) == FirstWithId(flows, id)
      {
        if flows[i].id == id {
          return Some(flows[i].number);
        }
      }
      return None;
    }

    method CreateFlow(id: nat) returns (k: nat)
      requires Valid()
      modifies `flows, `flowPeers, `flowCount
      ensures Valid() && k == old(flowCount) && k !in old(flowPeers)
      ensures flowPeers == old(flowPeers)[k := []] && flows == old(flows) + [FlowRecord(k, id)]
    {
      hide Linked, Sound, Joined, Flowing, Numbered, FlowArrays;
      SoundBasics(Shot());
      NewFlow(flows, flowPeers, flowCount, id, live);
      SoundFlows(Shot(), flowPeers[flowCount := []]);
      k := flowCount;
      flows, flowPeers, flowCount := flows + [FlowRecord(k, id)], flowPeers[k := []], flowCount + 1;
    }

    // A peer that belongs to no flow is in no flow's array.
    lemma StaysOutside(p: Peer)
      requires Settled() && p in live && p.flow == None
      ensures forall k :: k in flowPeers ==> p !in flowPeers[k]
    {
    }

    // Gives a flow to a peer that is in no flow's array.
    method SetFlow(p: Peer, flow: Option<nat>)
      requires Settled() && p in live && (forall k :: k in flowPeers ==> p !in flowPeers[k])
      requires flow.Some? ==> flow.value in flowPeers
      modifies p`flow
      ensures Settled() && p.flow == flow
    {
      hide Numbered;
      p.flow := flow;
    }

    // Assigns the flow to p, and p to the flow's array unless its id is there already.
    method EnterFlow(p: Peer, k: nat, join: bool, flowId: nat)
      requires Valid() && p in live && p.flow == None && k in flowPeers
      modifies `flowPeers, p`flow, p`advFlowId
      ensures Valid() && p.flow == Some(k) && p.advFlowId == flowId
      ensures flowPeers == if join then old(flowPeers)[k := old(flowPeers)[k] + [p]] else old(flowPeers)
    {
      hide Linked, Sound, Settled, FlowArrays;
      StaysOutside(p);
      SetFlow(p, Some(k));
      p.advFlowId := flowId;
      if join {
        AddToFlow(p, k);
      }
    }

    method AddToFlow(p: Peer, k: nat)
      requires Sound(Shot()) && Settled() && p in live && k in flowPeers && p !in flowPeers[k] && p.flow == Some(k)
      modifies `flowPeers
      ensures Sound(Shot()) && Settled() && flowPeers == old(flowPeers)[k := old(flowPeers)[k] + [p]]
    {
      hide Sound, Joined, Flowing, Numbered, FlowArrays;
      SoundBasics(Shot());
      OneMoreInFlow(flows, flowPeers, flowCount, k, p, live);
      SoundFlows(Shot(), flowPeers[k := flowPeers[k] + [p]]);
      flowPeers := flowPeers[k := flowPeers[k] + [p]];
    }

    // The flow that p is to join: in the simple profile that of its parent, otherwise the oldest of this id.
    ghost function Target(p: Peer, flowId: nat, simple: bool): Option<nat>
      reads `flows, p.parent
    {
      if !simple then FirstWithId(flows, flowId) else if p.parent == null then None else p.parent.flow
    }

    lemma TargetHasArray(p: Peer, flowId: nat, simple: bool)
      requires Valid() && p in live
      ensures Target(p, flowId, simple).Some? ==> Target(p, flowId, simple).value in flowPeers
    {
      FirstIsNumber(flows, flowId);
    }

    method SearchFlow(p: Peer, flowId: nat, simple: bool) returns (k: Option<nat>)
      ensures k == Target(p, flowId, simple)
    {
      if !simple {
        k := FindFlow(flowId);
      } else if p.parent == null {
        k := None;
      } else {
        k := p.parent.flow;
      }
    }

    // Puts p into a flow there is; 1 if it joined the array, 2 if its id was there already.
    method JoinFlow(p: Peer, k: nat, flowId: nat) returns (ret: int)
      requires Valid() && p in live && p.flow == None && k in flowPeers
      modifies `flowPeers, p`flow, p`advFlowId
      ensures Valid() && p.advFlowId == flowId && p.flow == Some(k)
      ensures ret == if old(HasPeer(flowPeers[k], flowId, p.advPeerId)) then 2 else 1
      ensures flowPeers == if ret == 1 then old(flowPeers)[k := old(flowPeers)[k] + [p]] else old(flowPeers)
    {
      hide Linked, Sound, Settled, HasPeer;
      var known := FlowHasPeer(flowPeers[k], flowId, p.advPeerId);
      EnterFlow(p, k, !known, flowId);
      ret := if known then 2 else 1;
    }

    // Puts p into a flow of its own.
    method OpenFlow(p: Peer, flowId: nat)
      requires Valid() && p in live && p.flow == None
      modifies `flows, `flowPeers, `flowCount, p`flow, p`advFlowId
      ensures Valid() && p.advFlowId == flowId && p.flow == Some(old(flowCount))
      ensures flows == old(flows) + [FlowRecord(old(flowCount), flowId)]
      ensures flowPeers == old(flowPeers)[old(flowCount) := [p]]
    {
      hide Linked, Sound, Settled;
      var k := CreateFlow(flowId);
      EnterFlow(p, k, true, flowId);
      assert [] + [p] == [p];
    }

    // Puts p into its flow, a new one when none is found; -1 if that cannot be done.
    method AssociateFlow(p: Peer, flowId: nat, simple: bool, outOfMemory: bool)
      returns (ret: int, ghost found: Option<nat>)
      requires Valid() && p in live && p.flow == None
      modifies `flows, `flowPeers, `flowCount, p`flow, p`advFlowId
      ensures Valid()
      ensures found == old(Target(p, flowId, simple)) && (found.Some? ==> found.value in old(flowPeers))
      ensures ret == -1 <==> (simple && p.parent == null) || (found.None? && outOfMemory)
      ensures ret == -1 ==> p.flow == None && flowPeers == old(flowPeers) && flows == old(flows)
      ensures ret != -1 ==> p.advFlowId == flowId
      ensures ret != -1 && found.None? ==>
        && ret == 1 && p.flow == Some(old(flowCount)) && flows == old(flows) + [FlowRecord(old(flowCount), flowId)]
        && flowPeers == old(flowPeers)[old(flowCount) := [p]]
      ensures ret != -1 && found.Some? ==>
        && ret == (if old(HasPeer(flowPeers[found.value], flowId, p.advPeerId)) then 2 else 1)
        && p.flow == found && flows == old(flows)
        && (ret == 1 ==> flowPeers == old(flowPeers)[found.value := old(flowPeers)[found.value] + [p]])
        && (ret == 2 ==> flowPeers == old(flowPeers))
    {
      TargetHasArray(p, flowId, simple);
      hide Linked, Sound, Settled, HasPeer, FirstWithId;
      found := Target(p, flowId, simple);
      if simple && p.parent == null {
        return -1, found;
      }
      var k := SearchFlow(p, flowId, simple);
      if k.None? {
        if outOfMemory {
          return -1, found;
        }
        OpenFlow(p, flowId);
        return 1, found;
      }
      ret := JoinFlow(p, k.value, flowId);
    }

    // Clears the flow of a peer, of its data side and of its RTCP side.
    method Unflow(p: Peer)
      requires p in live && References(live, live)
      modifies live`flow, live`authenticated
      ensures forall q :: q in live ==> q.flow == if Near(q, p) then None else old(q.flow)
    {
      if p.peerData != null {
        p.peerData.flow := None;
        p.peerData.authenticated := false;
      }
      if p.peerRtcp != null {
        p.peerRtcp.flow := None;
        p.peerRtcp.authenticated := false;
      }
      p.authenticated := false;
      p.flow := None;
    }

    // Clears the flow of every peer of the array of flow k, of their sides, and in the simple profile of a parent
    // that belongs to the flow as well.
    method UnflowMembers(k: nat, simple: bool)
      requires Family(live, kids) && References(live, live) && k in flowPeers && ArrayOk(flowPeers[k], live)
      modifies live`flow, live`authenticated
      ensures forall q :: q in live ==>
        q.flow == old(q.flow) || (q.flow == None && Reached(q, flowPeers[k], live, simple))
      ensures !simple ==> forall q :: q in live && Reached(q, flowPeers[k], live, simple) ==> q.flow == None
    {
      hide Distinct, References;
      var s := flowPeers[k];
      for i := 0 to |s|
        invariant forall q :: q in live ==> q.flow == old(q.flow) || (q.flow == None && Reached(q, s, live, simple))
        invariant !simple ==> forall q, j :: q in live && 0 <= j < i && Near(q, s[j]) ==> q.flow == None
      {
        Unflow(s[i]);
        if simple && s[i].parent != null {
          ParentOf(live, kids, s[i]);
          if s[i].parent.flow == Some(k) {
            Unflow(s[i].parent);
          }
        }
      }
    }

    // Clears what is left of flow k in any peer.
    method UnflowAll(k: nat)
      requires Chain(peers, order) && live == Members(order)
      modifies live`flow
      ensures forall q :: q in live ==> q.flow == if old(q.flow) == Some(k) then None else old(q.flow)
    {
      hide After, Ahead;
      var check := peers;
      ghost var i: nat := 0;
      while check != null
        invariant i <= |order| && check == At(order, i)
        invariant forall q :: q in order[..i] ==> q.flow == if old(q.flow) == Some(k) then None else old(q.flow)
        invariant forall q :: q in order[i..] ==> q.flow == old(q.flow)
        decreases |order| - i
      {
        DistinctFrom(order, i);
        AfterAt(order, i);
        assert order[..i + 1] == order[..i] + [order[i]];
        if check.flow == Some(k) {
          check.flow := None;
        }
        check := check.next;
        i := i + 1;
      }
      assert order[..i] == order;
    }

    // Takes flow k out of the list of flows, and its array with it.
    method DropFlow(k: nat)
      requires Numbered(flows, flowPeers, flowCount) && k in flowPeers
      modifies `flows, `flowPeers
      ensures Numbered(flows, flowPeers, flowCount) && flowPeers == old(flowPeers) - {k}
      ensures forall r :: r in flows <==> r in old(flows) && r.number != k
    {
      assert HasNumber(flows, k);
      for i := 0 to |flows|
        invariant flows == old(flows) && flowPeers == old(flowPeers)
        invariant forall j :: 0 <= j < i ==> flows[j].number != k
      {
        if flows[i].number == k {
          NumberedWithout(flows, flowPeers, flowCount, i);
          OtherRecords(flows, i);
          flows, flowPeers := Without(flows, i), flowPeers - {k};
          return;
        }
      }
    }

    static lemma OtherRecords(flows: seq<FlowRecord>, i: nat)
      requires i < |flows| && forall a, b :: 0 <= a < b < |flows| ==> flows[a].number < flows[b].number
      ensures forall r :: r in Without(flows, i) <==> r in flows && r.number != flows[i].number
    {
      var fewer := Without(flows, i);
      forall r | r in flows && r.number != flows[i].number
        ensures r in fewer
      {
        var j :| 0 <= j < |flows| && flows[j] == r;
        assert fewer[if j < i then j else j - 1] == r;
      }
      forall r | r in fewer
        ensures r in flows && r.number != flows[i].number
      {
        var j :| 0 <= j < |fewer| && fewer[j] == r;
        assert r == flows[if j < i then j else j + 1];
      }
    }

    // Nobody belongs to flow k any more.
    method ClearFlow(k: nat, simple: bool)
      requires Family(live, kids) && References(live, live) && Chain(peers, order) && live == Members(order)
      requires k in flowPeers && FlowArrays(flowPeers, live) && Joined(flowPeers, live) && Flowing(flowPeers, live)
      modifies live`flow, live`authenticated
      ensures Flowing(flowPeers - {k}, live)
      ensures forall q :: q in live ==>
        (q.flow == if old(q.flow) == Some(k) then None else old(q.flow))
        || (q.flow == None && Reached(q, flowPeers[k], live, simple))
      ensures Apart(flowPeers, k, live, simple) ==> Joined(flowPeers - {k}, live)
      ensures !simple && Joined(flowPeers - {k}, live) ==> Apart(flowPeers, k, live, simple)
    {
      hide Chain, Members, Family, Reached, Apart, References;
      ghost var was := map q | q in live :: q.flow;
      assert ArrayOk(flowPeers[k], live);
      UnflowMembers(k, simple);
      UnflowAll(k);
      FlowsAfterDeletion(was, flowPeers, k, live, simple);
    }

    // Deletes flow k. All stays well formed when no member of another flow's array is a side of one of its members,
    // or in the simple profile of a parent of one; beyond that profile only then.
    method DeleteFlow(k: nat, simple: bool)
      requires Valid() && k in flowPeers
      modifies `flows, `flowPeers, live`flow, live`authenticated
      ensures Shot() == old(Shot()).(flowPeers := old(flowPeers) - {k})
      ensures Sound(Shot()) && Linked() && Flowing(flowPeers, live) && Numbered(flows, flowPeers, flowCount)
      ensures forall r :: r in flows <==> r in old(flows) && r.number != k
      ensures forall q :: q in live ==>
        (q.flow == if old(q.flow) == Some(k) then None else old(q.flow))
        || (q.flow == None && Reached(q, old(flowPeers)[k], live, simple))
      ensures Apart(old(flowPeers), k, live, simple) ==> Valid()
      ensures !simple && Valid() ==> Apart(old(flowPeers), k, live, simple)
    {
      hide Linked, Sound, Numbered, Reached, Chain, SiblingLists, References, Family, Joined, Flowing, FlowArrays,
        Apart;
      DeletionFits(k);
      ClearFlow(k, simple);
      DropFlow(k);
    }

    lemma DeletionFits(k: nat)
      requires Valid()
      ensures Family(live, kids) && References(live, live) && Chain(peers, order) && live == Members(order)
      ensures FlowArrays(flowPeers, live)
      ensures Sound(Shot().(flowPeers := flowPeers - {k}))
    {
      SoundFlows(Shot(), flowPeers - {k});
    }

    method LeaveArray(p: Peer)
      requires Valid() && p in live
      modifies `flowPeers
      ensures Valid() && FlowsPurged(old(flowPeers), flowPeers, {p})
      ensures forall k :: k in flowPeers ==> p !in flowPeers[k]
    {
      hide Linked, Sound, Numbered, Flowing, Joined, FlowArrays, FlowsPurged;
      ghost var b := Shot();
      SoundBasics(b);
      RemovePeerFromFlow(p);
      FlowsAfterLeaving(flows, b.flowPeers, flowPeers, flowCount, live, p);
      SoundFlows(b, flowPeers);
    }

    // Leaves a flow, because p announced another one or was never authenticated: its array if that has other
    // entries, otherwise the flow is deleted.
    method LeaveFlow(p: Peer, simple: bool)
      requires Valid() && p in live && p.flow.Some? && p.flow.value in flowPeers
      modifies `flows, `flowPeers, live`flow, live`authenticated
      ensures p.flow == None && !p.authenticated
      ensures |old(flowPeers)[old(p.flow.value)]| > 1 ==>
        Valid() && FlowsPurged(old(flowPeers), flowPeers, {p}) && flows == old(flows)
      ensures |old(flowPeers)[old(p.flow.value)]| <= 1 ==>
        && flowPeers == old(flowPeers) - {old(p.flow.value)}
        && (Apart(old(flowPeers), old(p.flow.value), live, simple) ==> Valid())
    {
      hide Linked, Sound, Numbered, Joined, Flowing, Apart, Reached, FlowsPurged;
      var k := p.flow.value;
      if |flowPeers[k]| > 1 {
        LeaveArray(p);
        SetFlow(p, None);
      } else {
        DeleteFlow(k, simple);
        assert p.flow == None;
      }
      p.authenticated := false;
    }

    // The peer whose messages outside the stream are passed on is kept until it is dead.
    method RecvOobData(p: Peer, currentDead: bool)
      requires Valid() && p in live
      modifies `oobCurrentPeer
      ensures Valid() && Shot() == old(Shot())
      ensures oobCurrentPeer == if old(oobCurrentPeer) == null || currentDead then p else old(oobCurrentPeer)
    {
      hide Linked, Sound, Joined;
      assert Linked();
      if oobCurrentPeer == null || currentDead {
        oobCurrentPeer := p;
      }
    }
  }
}
