// Peers and the lists they are in: one doubly linked list of all of them, a sibling list of children for each, and
// the arrays kept by flows and by the sender.
module PeerLists {
  import opened Bytes
  import opened Sequences

  class Peer {
    const parent: Peer?
    // How far below a peer without parent this one was created.
    const depth: nat
    const advPeerId: nat
    var isRtcp: bool
    var advFlowId: nat
    var flow: Option<nat>
    var authenticated: bool
    var dead: bool
    var timedOut: bool
    var deadSince: U64
    var lastPktReceived: U64
    var sessionTimeout: U64
    var next: Peer?
    var prev: Peer?
    var child: Peer?
    var siblingNext: Peer?
    var siblingPrev: Peer?
    var peerData: Peer?
    var peerRtcp: Peer?

    constructor (parent: Peer?, id: nat)
      ensures this.parent == parent && advPeerId == id && flow == None && !authenticated && !dead
      ensures depth == if parent == null then 0 else parent.depth + 1
      ensures next == null && prev == null && child == null && siblingNext == null && siblingPrev == null
      ensures peerData == null && peerRtcp == null
    {
      this.parent, advPeerId := parent, id;
      depth := if parent == null then 0 else parent.depth + 1;
      advFlowId, flow, authenticated, isRtcp, dead, timedOut := 0, None, false, false, false, false;
      deadSince, lastPktReceived, sessionTimeout := 0, 0, 0;
      next, prev, child, siblingNext, siblingPrev, peerData, peerRtcp := null, null, null, null, null, null, null;
    }
  }

  // ---- sequences of peers ----

  ghost function At(s: seq<Peer>, k: nat): Peer? { if k < |s| then s[k] else null }

  ghost function Before(s: seq<Peer>, k: nat): Peer? { if 0 < k <= |s| then s[k - 1] else null }

  ghost function Members(s: seq<Peer>): set<Peer> { set p | p in s }

  // The peers of s that are in live, in their order.
  ghost function Keep(s: seq<Peer>, live: set<Peer>): (r: seq<Peer>) {
    if s == [] then []
    else
      var n := |s| - 1;
      if s[n] in live then Keep(s[..n], live) + [s[n]] else Keep(s[..n], live)
  }

  lemma {:induction false} KeepMembers(s: seq<Peer>, live: set<Peer>)
    ensures forall p :: p in Keep(s, live) <==> p in s && p in live
  {
    if s != [] {
      var n := |s| - 1;
      KeepMembers(s[..n], live);
      assert forall p :: p in s <==> p in s[..n] || p == s[n];
    }
  }

  lemma {:induction false} KeepAll(s: seq<Peer>, live: set<Peer>)
    requires forall i :: 0 <= i < |s| ==> s[i] in live
    ensures Keep(s, live) == s
  {
    if s != [] { KeepAll(s[..|s| - 1], live); }
  }

  lemma {:induction false} KeepKeep(s: seq<Peer>, a: set<Peer>, b: set<Peer>)
    requires b <= a
    ensures Keep(Keep(s, a), b) == Keep(s, b)
  {
    if s != [] {
      var n := |s| - 1;
      KeepKeep(s[..n], a, b);
      var r := Keep(s[..n], a);
      if s[n] in a { assert (r + [s[n]])[..|r|] == r; }
    }
  }

  lemma {:induction false} KeepConcat(s: seq<Peer>, t: seq<Peer>, live: set<Peer>)
    ensures Keep(s + t, live) == Keep(s, live) + Keep(t, live)
  {
    if t == [] {
      assert s + t == s;
    } else {
      var n := |t| - 1;
      assert (s + t)[..|s| + n] == s + t[..n];
      KeepConcat(s, t[..n], live);
    }
  }

  lemma {:induction false} KeepDistinct(s: seq<Peer>, live: set<Peer>)
    requires Distinct(s)
    ensures Distinct(Keep(s, live))
  {
    if s != [] {
      var n := |s| - 1;
      KeepDistinct(s[..n], live);
      KeepMembers(s[..n], live);
    }
  }

  // Dropping one member of a list without repetitions keeps all the others.
  lemma WithoutIsKeep(s: seq<Peer>, k: nat, live: set<Peer>)
    requires Distinct(s) && k < |s| && forall i :: 0 <= i < |s| ==> s[i] in live
    ensures Without(s, k) == Keep(s, live - {s[k]})
  {
    DistinctFrom(s, k);
    hide Distinct, Keep;
    KeepSplit(s[..k], s[k], s[k + 1..], live - {s[k]});
    assert s == (s[..k] + [s[k]]) + s[k + 1..];
  }

  lemma WithoutMembers(s: seq<Peer>, k: nat)
    requires Distinct(s) && k < |s|
    ensures Members(Without(s, k)) == Members(s) - {s[k]}
    ensures forall p :: p in Without(s, k) <==> p in s && p != s[k]
  {
    hide Keep, Without, Distinct;
    WithoutIsKeep(s, k, Members(s));
    KeepMembers(s, Members(s) - {s[k]});
  }

  lemma KeepSplit(a: seq<Peer>, x: Peer, b: seq<Peer>, live: set<Peer>)
    requires x !in live
    requires (forall i :: 0 <= i < |a| ==> a[i] in live) && forall i :: 0 <= i < |b| ==> b[i] in live
    ensures Keep((a + [x]) + b, live) == a + b
  {
    KeepAll(a, live);
    KeepAll(b, live);
    KeepDropsLast(a, x, live);
    hide Keep;
    KeepConcat(a + [x], b, live);
  }

  lemma KeepDropsLast(a: seq<Peer>, x: Peer, live: set<Peer>)
    requires x !in live
    ensures Keep(a + [x], live) == Keep(a, live)
  {
    assert (a + [x])[..|a|] == a;
  }

  // ---- the subtree of a peer ----

  ghost predicate Under(q: Peer, p: Peer)
    decreases q.depth
  {
    q == p || (q.parent != null && q.parent.depth < q.depth && Under(q.parent, p))
  }

  lemma {:induction false} UnderIsDeeper(q: Peer, p: Peer)
    requires Under(q, p) && q != p
    ensures p.depth < q.depth
    decreases q.depth
  {
    if q.parent != p { UnderIsDeeper(q.parent, p); }
  }

  lemma {:induction false} UnderTrans(q: Peer, c: Peer, p: Peer)
    requires Under(q, c) && Under(c, p)
    ensures Under(q, p)
    decreases q.depth
  {
    if q != c { UnderTrans(q.parent, c, p); }
  }

  ghost function Subtree(live: set<Peer>, p: Peer): set<Peer> { set q | q in live && Under(q, p) }

  // ---- linked lists ----

  // The peer after q in s, and the one before it.
  ghost function After(s: seq<Peer>, q: Peer): Peer? {
    if s == [] then null else if s[0] == q then At(s, 1) else After(s[1..], q)
  }

  ghost function Ahead(s: seq<Peer>, q: Peer): Peer? {
    if s == [] then null
    else if s[|s| - 1] == q then Before(s, |s| - 1)
    else Ahead(s[..|s| - 1], q)
  }

  lemma {:induction false} AfterAt(s: seq<Peer>, k: nat)
    requires Distinct(s) && k < |s|
    ensures After(s, s[k]) == At(s, k + 1)
  {
    if k > 0 { AfterAt(s[1..], k - 1); }
  }

  lemma {:induction false} AheadAt(s: seq<Peer>, k: nat)
    requires Distinct(s) && k < |s|
    ensures Ahead(s, s[k]) == Before(s, k)
  {
    if k < |s| - 1 { AheadAt(s[..|s| - 1], k); }
  }

  // How the neighbours of the others change when the k-th peer leaves.
  lemma NeighboursWithout(s: seq<Peer>, k: nat, q: Peer)
    requires Distinct(s) && k < |s| && q in s && q != s[k]
    ensures var p, t := s[k], Without(s, k);
      && After(t, q) == (if q == Ahead(s, p) then After(s, p) else After(s, q))
      && Ahead(t, q) == (if q == After(s, p) then Ahead(s, p) else Ahead(s, q))
  {
    var i :| 0 <= i < |s| && s[i] == q;
    var t, m := Without(s, k), if i < k then i else i - 1;
    DistinctWithout(s, k);
    DistinctFrom(s, i);
    hide Without, After, Ahead, Distinct;
    assert t[m] == q;
    AfterAt(s, k);
    AheadAt(s, k);
    AfterAt(s, i);
    AheadAt(s, i);
    AfterAt(t, m);
    AheadAt(t, m);
  }

  lemma HeadWithout(s: seq<Peer>, k: nat)
    requires Distinct(s) && k < |s|
    ensures At(Without(s, k), 0) == if Ahead(s, s[k]) == null then After(s, s[k]) else At(s, 0)
    ensures At(Without(s, k), k) == After(s, s[k])
  {
    hide After, Ahead, Distinct;
    AfterAt(s, k);
    AheadAt(s, k);
  }

  // The list of all peers.
  ghost predicate Chain(head: Peer?, s: seq<Peer>)
    reads s`next, s`prev
  {
    Distinct(s) && head == At(s, 0) && forall q :: q in s ==> q.next == After(s, q) && q.prev == Ahead(s, q)
  }

  // Takes the k-th peer out of the list; its own pointers stay.
  method Unchain(head: Peer?, ghost s: seq<Peer>, ghost k: nat, p: Peer) returns (newHead: Peer?)
    requires Chain(head, s) && k < |s| && s[k] == p
    modifies s`next, s`prev
    ensures Chain(newHead, Without(s, k)) && p.next == At(Without(s, k), k)
  {
    DistinctWithout(s, k);
    HeadWithout(s, k);
    WithoutMembers(s, k);
    NeighboursOf(s, k);
    ghost var prev, next := p.prev, p.next;
    hide Distinct, Without, After, Ahead;
    newHead := head;
    if p.prev == null {
      newHead := p.next;
    } else {
      p.prev.next := p.next;
    }
    if p.next != null {
      p.next.prev := p.prev;
    }
    forall q | q in Without(s, k)
      ensures q.next == After(Without(s, k), q) && q.prev == Ahead(Without(s, k), q)
    {
      NeighboursWithout(s, k, q);
    }
  }

  // A peer's neighbours are other peers of the list.
  lemma NeighboursOf(s: seq<Peer>, k: nat)
    requires Distinct(s) && k < |s|
    ensures var a, b := Ahead(s, s[k]), After(s, s[k]);
      (a != null ==> a in s && a != s[k]) && (b != null ==> b in s && b != s[k]) && (a != null ==> a != b)
  {
    AfterAt(s, k);
    AheadAt(s, k);
  }

  // A reference when only the peers in live are left.
  ghost function Cleared(r: Peer?, live: set<Peer>): Peer? { if r in live then r else null }

  lemma ClearedTwice(a: set<Peer>, b: set<Peer>)
    requires b <= a
    ensures forall r: Peer? {:trigger Cleared(Cleared(r, a), b)} :: Cleared(Cleared(r, a), b) == Cleared(r, b)
  {
  }

  // Who is whose child; a child is created below its parent.
  ghost predicate Family(live: set<Peer>, kids: map<Peer, seq<Peer>>) {
    && kids.Keys == live && (forall p :: p in live ==> Distinct(kids[p]))
    && (forall p, q :: p in live && q in kids[p] ==> q in live && q.parent == p && p.depth < q.depth)
    && (forall q :: q in live && q.parent != null ==> q.parent in live && q in kids[q.parent])
  }

  // What the child and sibling pointers should be.
  ghost function FirstKid(kids: map<Peer, seq<Peer>>, q: Peer): Peer? { if q in kids then At(kids[q], 0) else null }

  ghost function NextSibling(kids: map<Peer, seq<Peer>>, q: Peer): Peer? {
    if q.parent != null && q.parent in kids then After(kids[q.parent], q) else null
  }

  ghost function PrevSibling(kids: map<Peer, seq<Peer>>, q: Peer): Peer? {
    if q.parent != null && q.parent in kids then Ahead(kids[q.parent], q) else null
  }

  ghost predicate SiblingLists(live: set<Peer>, kids: map<Peer, seq<Peer>>)
    reads live`child, live`siblingNext, live`siblingPrev
  {
    && (forall q :: q in live ==> q.child == FirstKid(kids, q))
    && (forall q :: q in live && q.parent != null ==>
          q.siblingNext == NextSibling(kids, q) && q.siblingPrev == PrevSibling(kids, q))
  }

  // The peers referred to as another one's data or RTCP side.
  ghost predicate References(live: set<Peer>, targets: set<Peer>)
    reads live`peerData, live`peerRtcp
  {
    forall q :: q in live ==>
      (q.peerData == null || q.peerData in targets) && (q.peerRtcp == null || q.peerRtcp in targets)
  }

  ghost predicate ArrayOk(s: seq<Peer>, live: set<Peer>) { Distinct(s) && forall q :: q in s ==> q in live }

  ghost predicate FlowArrays(flows: map<nat, seq<Peer>>, live: set<Peer>) {
    forall k :: k in flows ==> ArrayOk(flows[k], live)
  }

  // A peer in the array of a flow belongs to that flow.
  ghost predicate Joined(flows: map<nat, seq<Peer>>, live: set<Peer>)
    reads live`flow
  {
    forall k, q :: k in flows && q in flows[k] && q in live ==> q.flow == Some(k)
  }

  // A flow's number and the id it was created for.
  datatype FlowRecord = FlowRecord(number: nat, id: nat)

  // The flows in the order of their creation are those that have an array.
  ghost predicate Numbered(flows: seq<FlowRecord>, flowPeers: map<nat, seq<Peer>>, count: nat) {
    && (forall i, j :: 0 <= i < j < |flows| ==> flows[i].number < flows[j].number)
    && (forall i :: 0 <= i < |flows| ==> flows[i].number < count && flows[i].number in flowPeers)
    && (forall k :: k in flowPeers ==> HasNumber(flows, k))
  }

  ghost predicate HasNumber(flows: seq<FlowRecord>, k: nat) { exists i :: 0 <= i < |flows| && flows[i].number == k }

  // The oldest flow of that id.
  function FirstWithId(flows: seq<FlowRecord>, id: nat): Option<nat> {
    if flows == [] then None else if flows[0].id == id then Some(flows[0].number) else FirstWithId(flows[1..], id)
  }

  lemma {:induction false} FirstIsNumber(flows: seq<FlowRecord>, id: nat)
    ensures FirstWithId(flows, id).Some? ==> FlowRecord(FirstWithId(flows, id).value, id) in flows
  {
    if flows != [] && flows[0].id != id { FirstIsNumber(flows[1..], id); }
  }

  // No peer refers to a flow that is gone.
  ghost predicate Flowing(flows: map<nat, seq<Peer>>, live: set<Peer>)
    reads live`flow
  {
    forall q :: q in live && q.flow.Some? ==> q.flow.value in flows
  }

  ghost predicate HasPeer(s: seq<Peer>, flowId: nat, id: nat)
    reads s`advFlowId
  {
    exists q :: q in s && q.advFlowId == flowId && q.advPeerId == id
  }

  // The kids of the survivors when p, itself without children, has left.
  ghost function KidsWithout(kids: map<Peer, seq<Peer>>, p: Peer): map<Peer, seq<Peer>> {
    map q | q in kids && q != p :: Keep(kids[q], kids.Keys - {p})
  }

  lemma KidOfSurvivor(live: set<Peer>, kids: map<Peer, seq<Peer>>, p: Peer, q: Peer, c: Peer)
    requires Family(live, kids) && p in live && q in live && q != p
    ensures c in KidsWithout(kids, p)[q] <==> c in kids[q] && c != p
  {
    hide Keep;
    KeepMembers(kids[q], live - {p});
  }

  lemma FamilyWithout(live: set<Peer>, kids: map<Peer, seq<Peer>>, p: Peer)
    requires Family(live, kids) && p in live && kids[p] == []
    ensures Family(live - {p}, KidsWithout(kids, p))
  {
    hide KidsWithout, Keep;
    var after := KidsWithout(kids, p);
    KidsOf(kids, p);
    forall q | q in live - {p}
      ensures Distinct(after[q])
    {
      KidsStay(live, kids, p, q);
      KeepDistinct(kids[q], live - {p});
    }
    forall q, c | q in live - {p} && c in after[q]
      ensures c in live - {p} && c.parent == q && q.depth < c.depth
    {
      KidOfSurvivor(live, kids, p, q, c);
    }
    forall c | c in live - {p} && c.parent != null
      ensures c.parent in live - {p} && c in after[c.parent]
    {
      KidOfSurvivor(live, kids, p, c.parent, c);
    }
  }

  lemma KidsLive(live: set<Peer>, kids: map<Peer, seq<Peer>>, q: Peer)
    requires Family(live, kids) && q in live
    ensures forall c :: c in kids[q] ==> c in live && c.parent == q
  {
  }

  lemma ParentOf(live: set<Peer>, kids: map<Peer, seq<Peer>>, p: Peer)
    requires Family(live, kids) && p in live && p.parent != null
    ensures p.parent in live && p in kids[p.parent]
  {
  }

  // Only the parent's list changes.
  lemma KidsStay(live: set<Peer>, kids: map<Peer, seq<Peer>>, p: Peer, q: Peer)
    requires Family(live, kids) && p in live && q in live && q != p
    ensures q in KidsWithout(kids, p)
    ensures KidsWithout(kids, p)[q] == if p.parent == q then Keep(kids[q], live - {p}) else kids[q]
  {
    KidsLive(live, kids, q);
    if p.parent != q { KeepAll(kids[q], live - {p}); }
  }

  // How the pointers of the others change when p, itself without children, leaves its parent.
  lemma PointersAfter(live: set<Peer>, kids: map<Peer, seq<Peer>>, p: Peer, q: Peer)
    requires Family(live, kids) && p in live && p.parent != null && q in live && q != p && kids[p] == []
    ensures var after, a, b := KidsWithout(kids, p), PrevSibling(kids, p), NextSibling(kids, p);
      && FirstKid(after, q) == (if q == p.parent && a == null then b else FirstKid(kids, q))
      && (q.parent != null ==> NextSibling(after, q) == if q == a then b else NextSibling(kids, q))
      && (q.parent != null ==> PrevSibling(after, q) == if q == b then a else PrevSibling(kids, q))
      && (a != null ==> a in live && a != p && a != b) && (b != null ==> b in live && b != p)
  {
    hide Distinct, Without, After, Ahead, Keep, KidsWithout, Family;
    ParentOf(live, kids, p);
    DistinctKids(live, kids, p.parent);
    var s := kids[p.parent];
    var j :| 0 <= j < |s| && s[j] == p;
    KidsLive(live, kids, p.parent);
    DistinctKids(live, kids, q);
    KidsStay(live, kids, p, q);
    if q.parent != null {
      ParentOf(live, kids, q);
      KidsLive(live, kids, q.parent);
      DistinctKids(live, kids, q.parent);
      if q.parent != p { KidsStay(live, kids, p, q.parent); }
    }
    NeighboursOf(s, j);
    HeadWithout(s, j);
    WithoutIsKeep(s, j, live);
    if q.parent == p.parent { NeighboursWithout(s, j, q); }
  }

  lemma KidsOf(kids: map<Peer, seq<Peer>>, p: Peer)
    ensures KidsWithout(kids, p).Keys == kids.Keys - {p}
  {
  }

  method RemoveFromArray(s: seq<Peer>, p: Peer) returns (r: seq<Peer>)
    requires Distinct(s)
    ensures Distinct(r) && forall q :: q in r <==> q in s && q != p
  {
    for i := 0 to |s|
      invariant p !in s[..i]
    {
      if s[i] == p {
        var n := |s| - 1;
        r := s[i := s[n]][..n];
        forall q | q in s && q != p
          ensures q in r
        {
          var j :| 0 <= j < |s| && s[j] == q;
          assert q == if j == n then r[i] else r[j];
        }
        return;
      }
    }
    r := s;
  }

  // What a context holds, apart from its pointers.
  datatype Snapshot = Snapshot(order: seq<Peer>, live: set<Peer>, kids: map<Peer, seq<Peer>>, senderPeers: seq<Peer>,
                               flowPeers: map<nat, seq<Peer>>, freed: seq<Peer>)

  ghost predicate Purged(before: seq<Peer>, after: seq<Peer>, gone: set<Peer>) {
    Members(after) == Members(before) - gone
  }

  ghost predicate FlowsPurged(before: map<nat, seq<Peer>>, after: map<nat, seq<Peer>>, gone: set<Peer>) {
    before.Keys == after.Keys && forall k :: k in before ==> Purged(before[k], after[k], gone)
  }

  ghost predicate KidsPruned(before: map<Peer, seq<Peer>>, after: map<Peer, seq<Peer>>, live: set<Peer>) {
    after.Keys == live && live <= before.Keys && forall q :: q in live ==> after[q] == Keep(before[q], live)
  }

  // Exactly the peers in gone have left: the order of the others and of their children is as before, no array
  // mentions any that left, and each has been freed once.
  ghost predicate Pruned(before: Snapshot, after: Snapshot, gone: set<Peer>) {
    && gone <= before.live && after.live == before.live - gone && after.order == Keep(before.order, after.live)
    && KidsPruned(before.kids, after.kids, after.live)
    && Purged(before.senderPeers, after.senderPeers, gone) && FlowsPurged(before.flowPeers, after.flowPeers, gone)
    && before.freed <= after.freed && Members(after.freed) == Members(before.freed) + gone
  }

  // What holds of a context apart from its pointers.
  ghost predicate Sound(s: Snapshot) {
    && Distinct(s.order) && s.live == Members(s.order) && Family(s.live, s.kids)
    && ArrayOk(s.senderPeers, s.live) && FlowArrays(s.flowPeers, s.live)
    && Distinct(s.freed) && (forall p :: p in s.freed ==> p !in s.live)
  }

  lemma LeafLeaves(b: Snapshot, a: Snapshot, p: Peer, k: nat)
    requires Sound(b) && k < |b.order| && b.order[k] == p && b.kids[p] == []
    requires a.order == Without(b.order, k) && a.live == b.live - {p} && a.kids == KidsWithout(b.kids, p)
    requires a.freed == b.freed + [p] && ArrayOk(a.senderPeers, a.live) && FlowArrays(a.flowPeers, a.live)
    requires Purged(b.senderPeers, a.senderPeers, {p}) && FlowsPurged(b.flowPeers, a.flowPeers, {p})
    ensures Sound(a) && Pruned(b, a, {p})
  {
    DistinctWithout(b.order, k);
    WithoutIsKeep(b.order, k, b.live);
    WithoutMembers(b.order, k);
    FamilyWithout(b.live, b.kids, p);
    KidsOf(b.kids, p);
    FreedOnce(b.freed, b.live, p);
    hide Distinct, Family, Keep, Without, ArrayOk, FlowArrays, Purged, FlowsPurged;
  }

  lemma FreedOnce(freed: seq<Peer>, live: set<Peer>, p: Peer)
    requires Distinct(freed) && p in live && forall q :: q in freed ==> q !in live
    ensures Distinct(freed + [p]) && Members(freed + [p]) == Members(freed) + {p}
  {
  }

  lemma NobodysKid(live: set<Peer>, kids: map<Peer, seq<Peer>>, p: Peer)
    requires Family(live, kids) && SiblingLists(live, kids) && p in live && p.parent == null && kids[p] == []
    ensures SiblingLists(live - {p}, KidsWithout(kids, p))
  {
    forall q | q in live - {p}
      ensures q in KidsWithout(kids, p) && KidsWithout(kids, p)[q] == kids[q]
    {
      KidsStay(live, kids, p, q);
    }
    hide KidsWithout, After, Ahead, At;
  }

  lemma FewerReferences(live: set<Peer>, fewer: set<Peer>, targets: set<Peer>)
    requires References(live, targets) && fewer <= live
    ensures References(fewer, targets)
  {
  }

  lemma SoundBasics(s: Snapshot)
    requires Sound(s)
    ensures Distinct(s.order) && s.live == Members(s.order) && Family(s.live, s.kids)
    ensures ArrayOk(s.senderPeers, s.live) && FlowArrays(s.flowPeers, s.live)
  {
  }

  lemma PrunedNone(s: Snapshot)
    requires Sound(s)
    ensures Pruned(s, s, {})
  {
    KeepAll(s.order, s.live);
    forall q | q in s.live
      ensures Keep(s.kids[q], s.live) == s.kids[q]
    {
      KidsLive(s.live, s.kids, q);
      KeepAll(s.kids[q], s.live);
    }
    hide Keep;
  }

  lemma PrunedLive(a: Snapshot, b: Snapshot, gone: set<Peer>)
    requires Pruned(a, b, gone)
    ensures b.live == a.live - gone
  {
  }

  lemma NobodyIn(s: seq<Peer>, live: set<Peer>)
    requires forall q :: q in s ==> q in live
    ensures live == {} ==> s == []
  {
    if s != [] { assert s[0] in live; }
  }

  lemma PrunedFreed(a: Snapshot, b: Snapshot, gone: set<Peer>)
    requires Pruned(a, b, gone)
    ensures gone <= a.live && a.freed <= b.freed && Members(b.freed) == Members(a.freed) + gone
  {
  }

  lemma PrunedTwice(a: Snapshot, b: Snapshot, c: Snapshot, x: set<Peer>, y: set<Peer>)
    requires Pruned(a, b, x) && Pruned(b, c, y)
    ensures Pruned(a, c, x + y)
  {
    KeepKeep(a.order, b.live, c.live);
    forall q | q in c.live
      ensures c.kids[q] == Keep(a.kids[q], c.live)
    {
      KeepKeep(a.kids[q], b.live, c.live);
    }
    hide Keep, Members;
    assert FlowsPurged(a.flowPeers, c.flowPeers, x + y);
  }

  // The first child's subtree lies strictly within its parent's.
  lemma ChildIsBelow(all: set<Peer>, live: set<Peer>, kids: map<Peer, seq<Peer>>, p: Peer, c: Peer)
    requires Family(live, kids) && SiblingLists(live, kids) && p in live && c == p.child
    requires live <= all
    ensures c in live && Subtree(live, c) <= Subtree(all, p) - {p} && c in Subtree(live, c) && p in Subtree(all, p)
    ensures c.parent == p
  {
    assert c in kids[p];
    forall q | q in Subtree(live, c)
      ensures Under(q, p) && q != p
    {
      UnderTrans(q, c, p);
      if q != c { UnderIsDeeper(q, c); }
    }
  }

  // A peer without children has nobody below it.
  lemma {:induction false} NobodyBelow(live: set<Peer>, kids: map<Peer, seq<Peer>>, p: Peer, q: Peer)
    requires Family(live, kids) && p in live && kids[p] == [] && q in live && Under(q, p)
    ensures q == p
    decreases q.depth
  {
    if q != p { NobodyBelow(live, kids, p, q.parent); }
  }

  // When the last child has gone, what has gone and p make up the subtree.
  lemma NothingLeftBelow(b: Snapshot, a: Snapshot, p: Peer, gone: set<Peer>)
    requires Pruned(b, a, gone) && Sound(a) && p in a.live && SiblingLists(a.live, a.kids) && p.child == null
    requires gone <= Subtree(b.live, p) - {p}
    ensures a.kids[p] == [] && gone + {p} == Subtree(b.live, p) && p in a.order
  {
    assert a.kids[p] == [];
    forall q | q in Subtree(b.live, p) && q !in gone
      ensures q == p
    {
      NobodyBelow(a.live, a.kids, p, q);
    }
  }

  lemma {:induction false} KeepIgnores(s: seq<Peer>, live: set<Peer>, x: Peer)
    requires x !in s
    ensures Keep(s, live - {x}) == Keep(s, live)
  {
    if s != [] { KeepIgnores(s[..|s| - 1], live, x); }
  }

  // Where a peer stands among those kept: after the kept ones before it.
  lemma PlaceKept(s: seq<Peer>, live: set<Peer>, k: nat, m: nat)
    requires Distinct(s) && k < |s| && s[k] in live && m < |Keep(s, live)| && Keep(s, live)[m] == s[k]
    ensures Keep(s, live)[..m] == Keep(s[..k], live) && s[k] !in s[..k]
  {
    var x, front, back := s[k], s[..k], s[k + 1..];
    assert x !in front;
    KeepDistinct(s, live);
    assert Keep(front + [x], live) == Keep(front, live) + [x] by {
      assert (front + [x])[..|front|] == front;
    }
    hide Keep;
    assert s == (front + [x]) + back;
    KeepConcat(front + [x], back, live);
    var r, n := Keep(s, live), |Keep(front, live)|;
    assert r[n] == x;
  }

  lemma PlaceAfterRemoval(b: Snapshot, a: Snapshot, gone: set<Peer>, p: Peer, k: nat, m: nat)
    requires Pruned(b, a, gone) && Distinct(b.order) && Distinct(a.order) && p in a.live
    requires k < |b.order| && b.order[k] == p && m < |a.order| && a.order[m] == p
    ensures Without(a.order, m)[..m] == Keep(b.order[..k], a.live - {p})
  {
    hide Keep;
    PlaceKept(b.order, a.live, k, m);
    KeepIgnores(b.order[..k], a.live, p);
    assert Without(a.order, m)[..m] == a.order[..m];
  }

  lemma SelfUnder(live: set<Peer>, p: Peer)
    requires p in live
    ensures p in Subtree(live, p)
  {
  }

  lemma AllFreed(b: Snapshot, a: Snapshot, gone: set<Peer>)
    requires Pruned(b, a, gone) && Sound(a) && At(a.order, 0) == null
    ensures a.order == [] && a.live == {}
    ensures b.freed <= a.freed && Members(a.freed) == Members(b.freed) + b.live
  {
    assert a.order == [] && a.live == {};
    forall q | q in b.live
      ensures q in gone
    {
      assert q !in a.live;
    }
    assert gone == b.live;
  }

  // The kids when the new peer p has joined.
  ghost function KidsWith(kids: map<Peer, seq<Peer>>, p: Peer): map<Peer, seq<Peer>> {
    if p.parent != null && p.parent in kids then kids[p.parent := kids[p.parent] + [p]][p := []] else kids[p := []]
  }

  lemma DistinctKids(live: set<Peer>, kids: map<Peer, seq<Peer>>, p: Peer)
    requires Family(live, kids) && p in live
    ensures p in kids && Distinct(kids[p])
  {
  }

  lemma FamilyWith(live: set<Peer>, kids: map<Peer, seq<Peer>>, p: Peer)
    requires Family(live, kids) && p !in live
    requires p.parent != null ==> p.parent in live && p.parent.depth < p.depth
    ensures Family(live + {p}, KidsWith(kids, p))
  {
    if p.parent != null {
      KidsLive(live, kids, p.parent);
      DistinctSnoc(kids[p.parent], p);
    }
    hide Distinct;
  }

  // The neighbours in a list with p put at the end.
  lemma NeighboursWith(s: seq<Peer>, p: Peer, q: Peer)
    requires Distinct(s) && p !in s && q in s
    ensures After(s + [p], q) == if After(s, q) == null then p else After(s, q)
    ensures Ahead(s + [p], q) == Ahead(s, q)
    ensures After(s, q) == null <==> q == s[|s| - 1]
  {
    var k :| 0 <= k < |s| && s[k] == q;
    DistinctSnoc(s, p);
    DistinctFrom(s, k);
    hide After, Ahead, Distinct;
    AfterAt(s, k);
    AheadAt(s, k);
    AfterAt(s + [p], k);
    AheadAt(s + [p], k);
  }

  lemma LastNeighbours(s: seq<Peer>, p: Peer)
    requires Distinct(s) && p !in s
    ensures After(s + [p], p) == null && Ahead(s + [p], p) == if s == [] then null else s[|s| - 1]
  {
    DistinctSnoc(s, p);
    AfterAt(s + [p], |s|);
    AheadAt(s + [p], |s|);
  }

  lemma PointersWith(live: set<Peer>, kids: map<Peer, seq<Peer>>, p: Peer, q: Peer)
    requires Family(live, kids) && p !in live && q in live + {p}
    requires p.parent != null && p.parent in live && p.parent.depth < p.depth
    ensures var with, s := KidsWith(kids, p), kids[p.parent];
      && FirstKid(with, q) ==
           (if q == p then null else if q == p.parent && s == [] then p else FirstKid(kids, q))
      && (q.parent != null && q != p ==>
            && NextSibling(with, q) == (if s != [] && q == s[|s| - 1] then p else NextSibling(kids, q))
            && PrevSibling(with, q) == PrevSibling(kids, q))
      && (q == p ==> NextSibling(with, q) == null && PrevSibling(with, q) == if s == [] then null else s[|s| - 1])
  {
    var s := kids[p.parent];
    KidsLive(live, kids, p.parent);
    DistinctKids(live, kids, p.parent);
    if q == p {
      LastNeighbours(s, p);
    } else if q.parent != null {
      ParentOf(live, kids, q);
      KidsLive(live, kids, q.parent);
      hide After, Ahead, Distinct;
      if q.parent == p.parent { NeighboursWith(s, p, q); }
    }
  }

  // A new peer goes to the end of the list of peers and of its parent's children.
  ghost function With(s: Snapshot, p: Peer): Snapshot {
    s.(order := s.order + [p], live := s.live + {p}, kids := KidsWith(s.kids, p))
  }

  lemma SoundWith(s: Snapshot, p: Peer)
    requires Sound(s) && p !in s.live && p !in s.freed
    requires p.parent != null ==> p.parent in s.live && p.parent.depth < p.depth
    ensures Sound(With(s, p))
    ensures Distinct(s.order) && s.live == Members(s.order) && Family(s.live, s.kids) && p !in s.order
  {
    FamilyWith(s.live, s.kids, p);
    DistinctSnoc(s.order, p);
    hide Family, Distinct, KidsWith;
  }

  lemma SoundWithSender(s: Snapshot, p: Peer)
    requires Sound(s) && Sound(With(s, p)) && p !in s.live
    ensures Sound(With(s, p).(senderPeers := s.senderPeers + [p]))
  {
    DistinctSnoc(s.senderPeers, p);
    hide Distinct, Family, KidsWith, Members, FlowArrays;
  }

  lemma NobodysNewKid(live: set<Peer>, kids: map<Peer, seq<Peer>>, p: Peer)
    requires Family(live, kids) && SiblingLists(live, kids) && p !in live && p.parent == null && p.child == null
    ensures SiblingLists(live + {p}, KidsWith(kids, p))
  {
    hide After, Ahead;
  }

  method LastPeer(head: Peer, ghost s: seq<Peer>) returns (tail: Peer)
    requires Chain(head, s) && s != []
    ensures tail == s[|s| - 1]
  {
    hide Distinct, After, Ahead;
    tail := head;
    ghost var j: nat := 0;
    AfterAt(s, 0);
    while tail.next != null
      invariant j < |s| && tail == s[j] && tail.next == At(s, j + 1)
      decreases |s| - j
    {
      tail := tail.next;
      j := j + 1;
      AfterAt(s, j);
      assert tail in s;
    }
  }

  // Puts p at the end of the list.
  method Enchain(head: Peer?, ghost s: seq<Peer>, p: Peer) returns (newHead: Peer?)
    requires Chain(head, s) && p !in s && p.next == null && p.prev == null
    modifies s`next, p`prev
    ensures Chain(newHead, s + [p])
  {
    LastNeighbours(s, p);
    DistinctSnoc(s, p);
    hide Distinct, After, Ahead;
    if head == null {
      return p;
    }
    var tail := LastPeer(head, s);
    p.prev := tail;
    tail.next := p;
    newHead := head;
    forall q | q in s
      ensures q.next == After(s + [p], q) && q.prev == Ahead(s + [p], q)
    {
      NeighboursWith(s, p, q);
    }
  }

  lemma MoreReferences(live: set<Peer>, p: Peer)
    requires References(live, live)
    requires (p.peerData == null || p.peerData in live + {p}) && (p.peerRtcp == null || p.peerRtcp in live + {p})
    ensures References(live + {p}, live + {p})
  {
  }

  lemma JoinedMore(flows: map<nat, seq<Peer>>, live: set<Peer>, p: Peer)
    requires FlowArrays(flows, live) && Joined(flows, live) && p !in live
    ensures Joined(flows, live + {p})
  {
    hide Distinct;
  }

  // ---- the arrays of flows ----

  lemma SoundFlows(s: Snapshot, flowPeers: map<nat, seq<Peer>>)
    requires Sound(s) && FlowArrays(flowPeers, s.live)
    ensures Sound(s.(flowPeers := flowPeers))
  {
    hide Distinct, Family, FlowArrays;
  }

  // A new flow has nobody.
  lemma NewFlow(flows: seq<FlowRecord>, flowPeers: map<nat, seq<Peer>>, count: nat, id: nat, live: set<Peer>)
    requires FlowArrays(flowPeers, live) && Joined(flowPeers, live) && Flowing(flowPeers, live)
    requires Numbered(flows, flowPeers, count)
    ensures count !in flowPeers && FlowArrays(flowPeers[count := []], live)
    ensures Joined(flowPeers[count := []], live) && Flowing(flowPeers[count := []], live)
    ensures Numbered(flows + [FlowRecord(count, id)], flowPeers[count := []], count + 1)
  {
    var more := flows + [FlowRecord(count, id)];
    forall k | k in flowPeers[count := []]
      ensures HasNumber(more, k)
    {
      if k == count {
        assert more[|flows|].number == k;
      } else {
        assert HasNumber(flows, k);
        var i :| 0 <= i < |flows| && flows[i].number == k;
        assert more[i].number == k;
      }
    }
  }

  // One more peer in the array of the flow it belongs to.
  lemma OneMoreInFlow(flows: seq<FlowRecord>, flowPeers: map<nat, seq<Peer>>, count: nat, k: nat, p: Peer,
                      live: set<Peer>)
    requires FlowArrays(flowPeers, live) && Joined(flowPeers, live) && Flowing(flowPeers, live)
    requires Numbered(flows, flowPeers, count) && k in flowPeers && p in live && p !in flowPeers[k] && p.flow == Some(k)
    ensures var more := flowPeers[k := flowPeers[k] + [p]];
      FlowArrays(more, live) && Joined(more, live) && Flowing(more, live) && Numbered(flows, more, count)
  {
    DistinctSnoc(flowPeers[k], p);
    hide Distinct;
  }

  // The record of the i-th flow is given up.
  lemma NumberedWithout(flows: seq<FlowRecord>, flowPeers: map<nat, seq<Peer>>, count: nat, i: nat)
    requires Numbered(flows, flowPeers, count) && i < |flows|
    ensures Numbered(Without(flows, i), flowPeers - {flows[i].number}, count)
  {
    hide HasNumber;
    var k, fewer := flows[i].number, Without(flows, i);
    forall n | n in flowPeers - {k}
      ensures HasNumber(fewer, n)
    {
      NumberStays(flows, i, n);
    }
    hide Numbered, Without;
    NumberedParts(flows, flowPeers, count);
    forall a, b | 0 <= a < b < |fewer|
      ensures fewer[a].number < fewer[b].number
    {
      var x, y := if a < i then a else a + 1, if b < i then b else b + 1;
      assert fewer[a] == flows[x] && fewer[b] == flows[y];
    }
    forall a | 0 <= a < |fewer|
      ensures fewer[a].number < count && fewer[a].number in flowPeers - {k}
    {
      var x := if a < i then a else a + 1;
      assert fewer[a] == flows[x];
    }
    PartsNumbered(fewer, flowPeers - {k}, count);
  }

  lemma NumberedParts(flows: seq<FlowRecord>, flowPeers: map<nat, seq<Peer>>, count: nat)
    requires Numbered(flows, flowPeers, count)
    ensures forall i, j :: 0 <= i < j < |flows| ==> flows[i].number < flows[j].number
    ensures forall i :: 0 <= i < |flows| ==> flows[i].number < count && flows[i].number in flowPeers
  {
  }

  lemma PartsNumbered(flows: seq<FlowRecord>, flowPeers: map<nat, seq<Peer>>, count: nat)
    requires forall i, j :: 0 <= i < j < |flows| ==> flows[i].number < flows[j].number
    requires forall i :: 0 <= i < |flows| ==> flows[i].number < count && flows[i].number in flowPeers
    requires forall k :: k in flowPeers ==> HasNumber(flows, k)
    ensures Numbered(flows, flowPeers, count)
  {
  }

  lemma NumberStays(flows: seq<FlowRecord>, i: nat, n: nat)
    requires i < |flows| && flows[i].number != n && HasNumber(flows, n)
    ensures HasNumber(Without(flows, i), n)
  {
    var j :| 0 <= j < |flows| && flows[j].number == n;
    assert Without(flows, i)[if j < i then j else j - 1].number == n;
  }

  // A peer, its data side and its RTCP side.
  ghost predicate Near(q: Peer, p: Peer)
    reads p`peerData, p`peerRtcp
  {
    q == p || q == p.peerData || q == p.peerRtcp
  }

  // Whose flow is cleared along with those of the peers in s: their sides, and in the simple profile perhaps their
  // parents and the sides of these.
  ghost predicate Reached(q: Peer, s: seq<Peer>, live: set<Peer>, simple: bool)
    reads live`peerData, live`peerRtcp
  {
    exists i :: 0 <= i < |s| && s[i] in live &&
      (Near(q, s[i]) || (simple && s[i].parent in live && Near(q, s[i].parent)))
  }

  // No member of another flow's array is among them.
  ghost predicate Apart(flowPeers: map<nat, seq<Peer>>, k: nat, live: set<Peer>, simple: bool)
    requires k in flowPeers
    reads live`peerData, live`peerRtcp
  {
    forall j, q :: j in flowPeers && j != k && q in flowPeers[j] ==> !Reached(q, flowPeers[k], live, simple)
  }

  // What is known of the flows before, when those of flow k and those reached from its members are cleared.
  lemma FlowsAfterDeletion(was: map<Peer, Option<nat>>, flowPeers: map<nat, seq<Peer>>, k: nat, live: set<Peer>,
                           simple: bool)
    requires was.Keys == live && k in flowPeers && FlowArrays(flowPeers, live)
    requires forall j, q :: j in flowPeers && q in flowPeers[j] && q in live ==> was[q] == Some(j)
    requires forall q :: q in live && was[q].Some? ==> was[q].value in flowPeers
    requires forall q :: q in live ==>
      (q.flow == if was[q] == Some(k) then None else was[q])
      || (q.flow == None && Reached(q, flowPeers[k], live, simple))
    ensures Flowing(flowPeers - {k}, live)
    ensures Apart(flowPeers, k, live, simple) ==> Joined(flowPeers - {k}, live)
    ensures Joined(flowPeers - {k}, live) ==>
      (forall q :: q in live && Reached(q, flowPeers[k], live, simple) ==> q.flow == None) ==>
      Apart(flowPeers, k, live, simple)
  {
    hide Distinct, Reached;
  }

  // What leaves flows settled when a peer has left the array of its flow.
  lemma FlowsAfterLeaving(flows: seq<FlowRecord>, before: map<nat, seq<Peer>>, after: map<nat, seq<Peer>>, count: nat,
                          live: set<Peer>, p: Peer)
    requires FlowsPurged(before, after, {p}) && FlowArrays(after, live - {p})
    requires Numbered(flows, before, count) && Flowing(before, live)
    ensures Numbered(flows, after, count) && Flowing(after, live) && FlowArrays(after, live)
    ensures forall k :: k in after ==> p !in after[k]
  {
    hide Distinct, HasNumber;
    forall k | k in after
      ensures p !in after[k]
    {
      assert ArrayOk(after[k], live - {p});
    }
  }

  // ---- time running out ----

  // When a peer was last heard of; in the simple profile a data peer also through its RTCP side.
  function LastHeard(p: Peer, rtcp: Peer?, simple: bool): U64
    reads p`isRtcp, p`lastPktReceived, ({rtcp} - {null})`lastPktReceived
  {
    if simple && !p.isRtcp && rtcp != null && rtcp.lastPktReceived > p.lastPktReceived then rtcp.lastPktReceived
    else p.lastPktReceived
  }

  predicate LapsedVia(p: Peer, rtcp: Peer?, now: U64, simple: bool)
    reads p`dead, p`isRtcp, p`lastPktReceived, p`sessionTimeout, ({rtcp} - {null})`lastPktReceived
  {
    var last := LastHeard(p, rtcp, simple);
    !p.dead && now > last && last > 0 && now - last > p.sessionTimeout
  }

  predicate Lapsed(p: Peer, now: U64, simple: bool)
    reads p, p.peerRtcp
  {
    LapsedVia(p, p.peerRtcp, now, simple)
  }

  // Dead for more than five seconds.
  predicate Overdue(p: Peer, now: U64)
    reads p`dead, p`deadSince
  {
    p.dead && p.deadSince < now && now - p.deadSince > 5000 * RIST_CLOCK
  }

  ghost function Expiring(live: set<Peer>, now: U64): set<Peer>
    reads live`dead, live`deadSince
  {
    set q | q in live && q.parent != null && Overdue(q, now)
  }

  // What was the case when a check began.
  datatype Census = Census(expiring: set<Peer>, lapsed: set<Peer>, dead: set<Peer>, overdue: set<Peer>,
                           timedOut: set<Peer>, rtcp: map<Peer, Peer?>)

  ghost function Survey(live: set<Peer>, now: U64, simple: bool): Census
    requires References(live, live)
    reads live
  {
    Census(Expiring(live, now), set q | q in live && Lapsed(q, now, simple), set q | q in live && q.dead,
           set q | q in live && Overdue(q, now), set q | q in live && q.timedOut, map q | q in live :: q.peerRtcp)
  }

  // The RTCP side that q had is still there.
  ghost predicate RtcpKept(q: Peer, live: set<Peer>, was: Census) {
    q in was.rtcp && (was.rtcp[q] == null || was.rtcp[q] in live)
  }

  // Nothing of q that a check looks at has changed,
  ghost predicate Untouched(q: Peer, rtcp: Peer?, was: Census, now: U64, simple: bool)
    reads q`dead, q`deadSince, q`timedOut, q`isRtcp, q`lastPktReceived, q`sessionTimeout
    reads ({rtcp} - {null})`lastPktReceived
  {
    && (q.dead <==> q in was.dead) && (Overdue(q, now) <==> q in was.overdue) && (q.timedOut <==> q in was.timedOut)
    && (LapsedVia(q, rtcp, now, simple) <==> q in was.lapsed)
  }

  // but perhaps its RTCP side is gone.
  ghost predicate RtcpIs(q: Peer, live: set<Peer>, was: Census)
    reads q`peerRtcp
  {
    q in was.rtcp && q.peerRtcp == Cleared(was.rtcp[q], live)
  }

  lemma AtVisit(q: Peer, live: set<Peer>, was: Census, now: U64, simple: bool)
    requires RtcpIs(q, live, was) && Untouched(q, was.rtcp[q], was, now, simple)
    ensures (simple ==> RtcpKept(q, live, was)) ==> (Lapsed(q, now, simple) <==> q in was.lapsed)
    ensures (q.dead <==> q in was.dead) && (q.timedOut <==> q in was.timedOut)
    ensures Overdue(q, now) <==> q in was.overdue
  {
  }

  ghost predicate Visited(q: Peer, live: set<Peer>, was: Census, simple: bool)
    requires q in live
    reads q`dead, q`timedOut
  {
    && (q.timedOut <==> q in was.timedOut || (q.parent == null && q in was.overdue))
    && ((simple ==> RtcpKept(q, live, was)) ==> (q.dead <==> q in was.dead || q in was.lapsed))
  }

  // Of the peers there were at first, those up to place i have been checked.
  ghost predicate Progress(full: seq<Peer>, i: nat, live: set<Peer>, was: Census, now: U64, simple: bool)
    requires i <= |full|
    reads live, was.rtcp.Values
  {
    && (forall j :: 0 <= j < i && full[j] in live ==> Visited(full[j], live, was, simple))
    && (forall j :: i <= j < |full| ==>
          full[j] in live && RtcpIs(full[j], live, was) && Untouched(full[j], was.rtcp[full[j]], was, now, simple))
  }

  ghost predicate CensusOk(was: Census, live: set<Peer>) {
    was.expiring <= live && forall q :: q in live ==> (q in was.expiring <==> q.parent != null && q in was.overdue)
  }

  lemma NobodyCheckedYet(full: seq<Peer>, live: set<Peer>, now: U64, simple: bool)
    requires References(live, live) && live == Members(full)
    ensures var was := Survey(live, now, simple);
      CensusOk(was, live) && Progress(full, 0, live, was, now, simple) && Removed(full, 0, was) == {}
  {
    hide LapsedVia, Overdue;
    var was := Survey(live, now, simple);
    forall j | 0 <= j < |full|
      ensures full[j] in live && RtcpIs(full[j], live, was) && Untouched(full[j], was.rtcp[full[j]], was, now, simple)
    {
      assert was.rtcp[full[j]] == full[j].peerRtcp;
    }
  }

  // Those that have been removed by then.
  ghost function Removed(full: seq<Peer>, i: nat, was: Census): set<Peer>
    requires i <= |full|
  {
    Members(full[..i]) * was.expiring
  }

  lemma RemovedStep(full: seq<Peer>, i: nat, was: Census)
    requires i < |full|
    ensures Removed(full, i + 1, was) == Removed(full, i, was) + if full[i] in was.expiring then {full[i]} else {}
    ensures Removed(full, 0, was) == {}
  {
    assert full[..i + 1] == full[..i] + [full[i]];
  }

  // Only peers without a parent have children.
  ghost predicate Flat(live: set<Peer>, kids: map<Peer, seq<Peer>>) {
    forall q :: q in live && q.parent != null ==> q in kids && kids[q] == []
  }

  // It stays so when children are given to peers without a parent only,
  lemma FlatWith(s: Snapshot, p: Peer)
    requires Sound(s) && Flat(s.live, s.kids) && p !in s.live
    requires p.parent != null ==> p.parent.parent == null
    ensures Flat(With(s, p).live, With(s, p).kids)
  {
    hide Distinct;
  }

  // and when peers are removed.
  lemma FlatPruned(b: Snapshot, a: Snapshot, gone: set<Peer>)
    requires Pruned(b, a, gone) && Flat(b.live, b.kids)
    ensures Flat(a.live, a.kids)
  {
    forall q | q in a.live && q.parent != null
      ensures a.kids[q] == []
    {
      assert Keep(b.kids[q], a.live) == [];
    }
  }

  // The peer noted as next survives a removal exactly if it is not below the peer removed.
  lemma NotedNextSurvives(b: Snapshot, a: Snapshot, p: Peer, next: Peer)
    requires Pruned(b, a, Subtree(b.live, p)) && next in b.live
    ensures next in a.live <==> !Under(next, p)
  {
  }

  // Nobody else is below a peer without children.
  lemma LeafAlone(live: set<Peer>, kids: map<Peer, seq<Peer>>, p: Peer)
    requires Family(live, kids) && p in live && kids[p] == []
    ensures Subtree(live, p) == {p}
  {
    forall q | q in live && Under(q, p)
      ensures q == p
    {
      NobodyBelow(live, kids, p, q);
    }
  }

  // While a walk over full has come to place i, the rest of it is still in the list.
  lemma {:induction false} RestIsKept(full: seq<Peer>, live: set<Peer>, i: nat)
    requires Distinct(full) && i < |full| && forall j :: i <= j < |full| ==> full[j] in live
    ensures After(Keep(full, live), full[i]) == At(full, i + 1)
  {
    var front, rest := Keep(full[..i], live), full[i..];
    KeepDistinct(full, live);
    KeepAll(rest, live);
    hide Keep, Distinct;
    KeepConcat(full[..i], rest, live);
    assert full == full[..i] + rest;
    assert Keep(full, live) == front + rest;
    var k := |front|;
    assert (front + rest)[k] == full[i];
    AfterAt(front + rest, k);
  }
}
