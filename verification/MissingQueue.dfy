// The queue of missing packets of a flow: what marking a gap, flushing and a NACK pass do to it.
module MissingQueue {
  import opened Bytes
  import opened Sequences

  const MAX_NACKS: nat := 200

  // A packet known to be missing, and how often it has been asked for.
  datatype Entry = Entry(seqNum: U32, nackCount: nat, insertionTime: U64, nextNack: U64, peer: nat)

  datatype Congestion = Off | Normal | Aggressive

  datatype Peer = Peer(recoveryOff: bool, bloated: bool, congestion: Congestion, maxRetries: nat, eightTimesRtt: U64,
                       rttMin: U64, rttMax: U64)

  datatype Occupant = Nobody | Packet(seqNum: U32)

  // What a NACK pass reads: the ring by sequence number, the peers, the clock at each entry, the recovery
  // buffer, and whether the flow has any peer to send to.
  datatype Env = Env(ring: U32 -> Occupant, peers: nat -> Peer, now: nat -> U64, recovery: U64, hasPeers: bool)

  datatype Verdict = Remove | Keep | Retry

  // ---- the decision about one entry ----

  // The request is refused for good, put off, or made.
  function Process(e: Entry, p: Peer, now: U64, recovery: U64): Verdict {
    if e.nackCount >= p.maxRetries then Remove
    else if 10 * Wrap64(now - e.insertionTime) > 11 * recovery then Remove
    else if now >= e.nextNack then Retry
    else Keep
  }

  function Decide(e: Entry, i: nat, env: Env): Verdict {
    var p := env.peers(e.peer);
    if p.recoveryOff || env.ring(e.seqNum).Packet? then Remove
    else if p.bloated then
      if p.congestion.Aggressive? || (p.congestion.Normal? && e.nackCount > 4) then Remove else Keep
    else Process(e, p, env.now(i), env.recovery)
  }

  function Rtt(p: Peer): U64 {
    var rtt := p.eightTimesRtt / 8;
    if rtt < p.rttMin then p.rttMin else if rtt > p.rttMax then p.rttMax else rtt
  }

  function Asked(e: Entry, p: Peer, now: U64): Entry {
    e.(nackCount := e.nackCount + 1, nextNack := Wrap64(now + Wrap64(Rtt(p) * 11 / 10)))
  }

  // ---- a pass over the queue, entry by entry ----

  function Survivors(entries: seq<Entry>, i: nat, env: Env): (s: seq<Entry>)
    requires i <= |entries|
    decreases |entries| - i
  {
    if i == |entries| then []
    else
      var e := entries[i];
      match Decide(e, i, env)
      case Remove => Survivors(entries, i + 1, env)
      case Keep => [e] + Survivors(entries, i + 1, env)
      case Retry => [Asked(e, env.peers(e.peer), env.now(i))] + Survivors(entries, i + 1, env)
  }

  // The numbers asked for, in queue order.
  function Requests(entries: seq<Entry>, i: nat, env: Env): (r: seq<U32>)
    requires i <= |entries|
    decreases |entries| - i
  {
    if i == |entries| then []
    else if Decide(entries[i], i, env).Retry? then [entries[i].seqNum] + Requests(entries, i + 1, env)
    else Requests(entries, i + 1, env)
  }

  // The requests waiting to be sent together, and the groups sent so far.
  datatype Nacks = Nacks(pending: seq<U32>, sent: seq<seq<U32>>)

  function SendGroup(n: Nacks, hasPeers: bool): Nacks {
    if n.pending == [] || !hasPeers then n else Nacks([], n.sent + [n.pending])
  }

  // Before a request that may be made: send when the upper half of the number differs from that of the
  // first entry, send when one place is left, and start over when none is.
  function MakeRoom(n: Nacks, e: Entry, first: U32, hasPeers: bool): Nacks {
    if e.seqNum / 0x1_0000 != first / 0x1_0000 then SendGroup(n, hasPeers)
    else if |n.pending| == MAX_NACKS - 1 then SendGroup(n, hasPeers)
    else if |n.pending| >= MAX_NACKS then n.(pending := [])
    else n
  }

  predicate Reaches(e: Entry, env: Env) {
    var p := env.peers(e.peer);
    !p.recoveryOff && env.ring(e.seqNum).Nobody? && !p.bloated
  }

  function NackStep(n: Nacks, entries: seq<Entry>, i: nat, env: Env): Nacks
    requires i < |entries|
  {
    var e := entries[i];
    var n' := if Reaches(e, env) then MakeRoom(n, e, entries[0].seqNum, env.hasPeers) else n;
    if Decide(e, i, env).Retry? then n'.(pending := n'.pending + [e.seqNum]) else n'
  }

  function NackPass(n: Nacks, entries: seq<Entry>, i: nat, env: Env): Nacks
    requires i <= |entries|
    decreases |entries| - i
  {
    if i == |entries| then SendGroup(n, env.hasPeers) else NackPass(NackStep(n, entries, i, env), entries, i + 1, env)
  }

  // ---- accounting ----

  function Nacked(entries: seq<Entry>): nat {
    if entries == [] then 0 else AskedOnce(entries[0]) + Nacked(entries[1..])
  }

  // What a pass does to the counter of entries asked for at least once.
  function Counted(count: int, entries: seq<Entry>, i: nat, env: Env): int
    requires i <= |entries|
    decreases |entries| - i
  {
    if i == |entries| then count
    else
      var e := entries[i];
      Counted(CountStep(count, e, Decide(e, i, env)), entries, i + 1, env)
  }

  function CountStep(count: int, e: Entry, v: Verdict): int {
    match v
    case Remove => if e.nackCount != 0 then count - 1 else count
    case Retry => if e.nackCount == 0 then count + 1 else count
    case Keep => count
  }

  function AskedOnce(e: Entry): nat { if e.nackCount > 0 then 1 else 0 }

  lemma NackedCons(e: Entry, rest: seq<Entry>)
    ensures Nacked([e] + rest) == AskedOnce(e) + Nacked(rest)
  {
    assert ([e] + rest)[1..] == rest;
  }

  lemma NackedAround(a: seq<Entry>, k: nat, e: Entry)
    requires k < |a|
    ensures Nacked(a[..k] + ([e] + a[k + 1..])) == Nacked(a[..k]) + AskedOnce(e) + Nacked(a[k + 1..])
  {
    hide Nacked, AskedOnce;
    NackedAppend(a[..k], [e] + a[k + 1..]);
    NackedCons(e, a[k + 1..]);
  }

  lemma NackedUpdate(a: seq<Entry>, k: nat, e: Entry)
    requires k < |a|
    ensures Nacked(a[k := e]) == Nacked(a) + AskedOnce(e) - AskedOnce(a[k])
  {
    hide Nacked, AskedOnce;
    NackedAround(a, k, a[k]);
    NackedAround(a, k, e);
    assert a == a[..k] + ([a[k]] + a[k + 1..]);
    assert a[k := e] == a[..k] + ([e] + a[k + 1..]);
  }

  lemma NackedRemove(a: seq<Entry>, k: nat)
    requires k < |a|
    ensures Nacked(a[..k] + a[k + 1..]) == Nacked(a) - AskedOnce(a[k])
  {
    hide Nacked, AskedOnce;
    NackedAround(a, k, a[k]);
    assert a == a[..k] + ([a[k]] + a[k + 1..]);
    NackedAppend(a[..k], a[k + 1..]);
  }

  lemma {:induction false} NackedAppend(a: seq<Entry>, b: seq<Entry>)
    ensures Nacked(a + b) == Nacked(a) + Nacked(b)
  {
    if a == [] {
      assert a + b == b;
    } else {
      assert (a + b)[1..] == a[1..] + b;
      NackedAppend(a[1..], b);
    }
  }

  // A pass keeps the counter equal to the number of queued entries that have been asked for.
  lemma {:induction false} PassKeepsAccounting(count: int, entries: seq<Entry>, i: nat, env: Env)
    requires i <= |entries|
    ensures Counted(count, entries, i, env) == count - Nacked(entries[i..]) + Nacked(Survivors(entries, i, env))
    decreases |entries| - i
  {
    hide Decide;
    if i < |entries| {
      var e := entries[i];
      assert entries[i..] == [e] + entries[i + 1..];
      PassKeepsAccounting(CountStep(count, e, Decide(e, i, env)), entries, i + 1, env);
    }
  }

  ghost predicate WithinRetries(entries: seq<Entry>, peers: nat -> Peer) {
    forall i :: 0 <= i < |entries| ==> entries[i].nackCount <= peers(entries[i].peer).maxRetries
  }

  // No entry is asked for more often than its peer allows.
  lemma {:induction false} PassRespectsRetries(entries: seq<Entry>, i: nat, env: Env)
    requires i <= |entries| && WithinRetries(entries, env.peers)
    ensures WithinRetries(Survivors(entries, i, env), env.peers)
    decreases |entries| - i
  {
    if i < |entries| { PassRespectsRetries(entries, i + 1, env); }
  }

  lemma SendGroupLosesNothing(n: Nacks, hasPeers: bool)
    ensures var n' := SendGroup(n, hasPeers); Join(n'.sent) + n'.pending == Join(n.sent) + n.pending
  {
    if n.pending != [] && hasPeers {
      JoinSnoc(n.sent, n.pending);
    }
  }

  lemma RetryReaches(e: Entry, i: nat, env: Env)
    ensures Decide(e, i, env).Retry? ==> Reaches(e, env)
  {
  }

  // The first entry from i on that is neither settled nor put off for its peer's sake; |entries| if there is none.
  function FirstReached(entries: seq<Entry>, i: nat, env: Env): (k: nat)
    requires i <= |entries|
    ensures i <= k <= |entries| && (k < |entries| ==> Reaches(entries[k], env))
    decreases |entries| - i
  {
    if i == |entries| || Reaches(entries[i], env) then i else FirstReached(entries, i + 1, env)
  }

  // An array left full by passes with nobody to send to is thrown away unless the first number handled has
  // another upper half.
  predicate Forgets(n: Nacks, entries: seq<Entry>, i: nat, env: Env)
    requires i <= |entries|
  {
    var k := FirstReached(entries, i, env);
    |n.pending| == MAX_NACKS && k < |entries| && entries[k].seqNum / 0x1_0000 == entries[0].seqNum / 0x1_0000
  }

  // With a peer to send to, every request made in the pass is sent, in queue order, after those left over, and
  // nothing else is; what was left over is lost exactly when it had filled the array.
  lemma {:induction false} EveryRequestIsSent(n: Nacks, entries: seq<Entry>, i: nat, env: Env)
    requires i <= |entries| && env.hasPeers && |n.pending| <= MAX_NACKS
    ensures var n' := NackPass(n, entries, i, env);
      && n'.pending == []
      && Join(n'.sent) ==
           Join(n.sent) + (if Forgets(n, entries, i, env) then [] else n.pending) + Requests(entries, i, env)
    decreases |entries| - i
  {
    hide Decide, Join, Reaches;
    SendGroupLosesNothing(n, true);
    if i < |entries| {
      RetryReaches(entries[i], i, env);
      EveryRequestIsSent(NackStep(n, entries, i, env), entries, i + 1, env);
    }
  }

  // Exactly when the place that a request needs is found: the source never looks at the length of the array when
  // the upper half of the number differs and nothing can be sent.
  lemma RoomExactly(n: Nacks, e: Entry, first: U32, hasPeers: bool)
    requires |n.pending| <= MAX_NACKS
    ensures |MakeRoom(n, e, first, hasPeers).pending| < MAX_NACKS
      <==> |n.pending| < MAX_NACKS || hasPeers || e.seqNum / 0x1_0000 == first / 0x1_0000
  {
  }

  // The request about entry i, if there is one, finds a free place in the array.
  predicate StepFits(n: Nacks, entries: seq<Entry>, i: nat, env: Env)
    requires i < |entries|
  {
    Decide(entries[i], i, env).Retry? ==>
      |MakeRoom(n, entries[i], entries[0].seqNum, env.hasPeers).pending| < MAX_NACKS
  }

  // So does every request of a pass.
  predicate PassFits(n: Nacks, entries: seq<Entry>, i: nat, env: Env)
    requires i <= |entries|
    decreases |entries| - i
  {
    i < |entries| ==> StepFits(n, entries, i, env) && PassFits(NackStep(n, entries, i, env), entries, i + 1, env)
  }

  // The pass up to entry k.
  function Walked(n: Nacks, entries: seq<Entry>, i: nat, k: nat, env: Env): Nacks
    requires i <= k <= |entries|
    decreases k - i
  {
    if i == k then n else Walked(NackStep(n, entries, i, env), entries, i + 1, k, env)
  }

  // Entry k is asked for although nothing can be sent, the array is full and its upper half is a new one.
  predicate Overruns(n: Nacks, entries: seq<Entry>, i: nat, k: nat, env: Env)
    requires i <= k < |entries|
  {
    && !env.hasPeers && Decide(entries[k], k, env).Retry?
    && entries[k].seqNum / 0x1_0000 != entries[0].seqNum / 0x1_0000
    && |Walked(n, entries, i, k, env).pending| >= MAX_NACKS
  }

  lemma PassFitsUnfolds(n: Nacks, entries: seq<Entry>, i: nat, env: Env)
    requires i <= |entries|
    ensures PassFits(n, entries, i, env) <==>
      i == |entries| || (StepFits(n, entries, i, env) && PassFits(NackStep(n, entries, i, env), entries, i + 1, env))
  {
  }

  lemma OverrunsHere(n: Nacks, entries: seq<Entry>, i: nat, env: Env)
    requires i < |entries| && |n.pending| <= MAX_NACKS
    ensures Overruns(n, entries, i, i, env) <==> !StepFits(n, entries, i, env)
  {
    hide Decide, MakeRoom;
    RoomExactly(n, entries[i], entries[0].seqNum, env.hasPeers);
  }

  lemma OverrunsLater(n: Nacks, entries: seq<Entry>, i: nat, k: nat, env: Env)
    requires i < k < |entries|
    ensures Overruns(n, entries, i, k, env) <==> Overruns(NackStep(n, entries, i, env), entries, i + 1, k, env)
  {
    hide Decide, NackStep;
  }

  // A pass leaves the array exactly when some entry does that.
  lemma {:induction false} PassFitsExactly(n: Nacks, entries: seq<Entry>, i: nat, env: Env)
    requires i <= |entries| && |n.pending| <= MAX_NACKS
    ensures PassFits(n, entries, i, env) <==> forall k :: i <= k < |entries| ==> !Overruns(n, entries, i, k, env)
    decreases |entries| - i
  {
    hide NackStep, StepFits, PassFits, Overruns;
    PassFitsUnfolds(n, entries, i, env);
    if i < |entries| {
      if StepFits(n, entries, i, env) {
        var n' := NackStep(n, entries, i, env);
        StepStaysInside(n, entries, i, env);
        PassFitsExactly(n', entries, i + 1, env);
        OverrunsHere(n, entries, i, env);
        if PassFits(n', entries, i + 1, env) {
          forall k | i < k < |entries| { OverrunsLater(n, entries, i, k, env); }
        } else {
          var k :| i < k < |entries| && Overruns(n', entries, i + 1, k, env);
          OverrunsLater(n, entries, i, k, env);
        }
      } else {
        OverrunsHere(n, entries, i, env);
      }
    }
  }

  lemma StepStaysInside(n: Nacks, entries: seq<Entry>, i: nat, env: Env)
    requires i < |entries| && |n.pending| <= MAX_NACKS && StepFits(n, entries, i, env)
    ensures |NackStep(n, entries, i, env).pending| <= MAX_NACKS
  {
    RetryReaches(entries[i], i, env);
    hide Decide, Reaches;
  }

  // With a peer to send to, or upper halves all alike as they are with 16-bit numbers, no pass overruns the
  // array, whatever was left over from earlier ones.
  lemma PassFitsWhen(n: Nacks, entries: seq<Entry>, env: Env)
    requires |n.pending| <= MAX_NACKS
    requires env.hasPeers ||
      forall i :: 0 <= i < |entries| ==> entries[i].seqNum / 0x1_0000 == entries[0].seqNum / 0x1_0000
    ensures PassFits(n, entries, 0, env)
  {
    hide Walked, PassFits;
    PassFitsExactly(n, entries, 0, env);
  }

  lemma {:induction false} FittingPassStaysInside(n: Nacks, entries: seq<Entry>, i: nat, env: Env)
    requires i <= |entries| && |n.pending| <= MAX_NACKS && PassFits(n, entries, i, env)
    ensures |NackPass(n, entries, i, env).pending| <= MAX_NACKS
    decreases |entries| - i
  {
    hide NackStep, StepFits;
    if i < |entries| {
      StepStaysInside(n, entries, i, env);
      FittingPassStaysInside(NackStep(n, entries, i, env), entries, i + 1, env);
    }
  }

  // Without a peer every request that is due stays in the array until it is full.
  lemma {:induction false} PendingGrows(n: Nacks, entries: seq<Entry>, i: nat, k: nat, env: Env)
    requires i <= k <= |entries| && |n.pending| + k - i <= MAX_NACKS && !env.hasPeers
    requires forall j :: i <= j < k ==> Decide(entries[j], j, env).Retry?
    ensures |Walked(n, entries, i, k, env).pending| == |n.pending| + k - i
    decreases k - i
  {
    hide Decide, Reaches;
    if i < k {
      RetryReaches(entries[i], i, env);
      PendingGrows(NackStep(n, entries, i, env), entries, i + 1, k, env);
    }
  }

  // More than 200 due entries, nobody to send to, and a new upper half in the place after the last free one.
  lemma LongQueueOverruns(entries: seq<Entry>, env: Env)
    requires !env.hasPeers && |entries| > MAX_NACKS
    requires forall j :: 0 <= j < |entries| ==> Decide(entries[j], j, env).Retry?
    requires entries[MAX_NACKS].seqNum / 0x1_0000 != entries[0].seqNum / 0x1_0000
    ensures !PassFits(Nacks([], []), entries, 0, env)
  {
    hide Decide, PassFits;
    PendingGrows(Nacks([], []), entries, 0, MAX_NACKS, env);
    assert Overruns(Nacks([], []), entries, 0, MAX_NACKS, env);
    PassFitsExactly(Nacks([], []), entries, 0, env);
  }

  // ---- marking a gap ----

  // The numbers run modulo this.
  function Modulus(shortSeq: bool): nat { if shortSeq then 0x1_0000 else 0x1_0000_0000 }

  // When a missing packet was due, limited to the recovery buffer before now.
  function DueTime(time: U64, now: U64, recovery: U64): U64 {
    if time > now || time < Wrap64(now - recovery) then now else time
  }

  datatype Gap = Gap(last: U32, current: U32, shortSeq: bool, max: nat, blocked: bool, timeLast: U64, timeNow: U64,
                     peer: nat, rtt: U64, recovery: U64)

  // Neither a wrap-around taken for a gap, nor a peer with a bloated buffer or too much missing already.
  predicate Marks(g: Gap) { (g.current - g.last) % 0x1_0000 <= 32768 && !g.blocked }

  // How many numbers lie strictly between the last one found and the current one.
  function Between(g: Gap): nat { (g.current - g.last - 1) % Modulus(g.shortSeq) }

  function GapEntry(g: Gap, k: nat, clock: nat -> U64): Entry {
    var step := Wrap64(g.timeNow - g.timeLast) / ((g.current - g.last) % 0x1_0000 + 1);
    Entry((g.last + 1 + k) % Modulus(g.shortSeq), 0, DueTime(Wrap64(g.timeLast + (k + 1) * step), clock(k), g.recovery),
          Wrap64(clock(k) + g.rtt), g.peer)
  }

  function GapEntries(g: Gap, n: nat, clock: nat -> U64): (s: seq<Entry>)
    ensures |s| == n
  {
    seq(n, k requires 0 <= k < n => GapEntry(g, k, clock))
  }

  // The number of entries a gap adds to the queue.
  function Marked(g: Gap): nat {
    if !Marks(g) then 0 else if Between(g) < g.max then Between(g) else g.max
  }

  // The k-th number marked is k + 1 places after the last one found.
  lemma PlaceOfNumber(last: int, k: int)
    requires 0 <= last < 0x1_0000 && 0 <= k < 0xFFFF
    ensures ((last + 1 + k) % 0x1_0000 - last) % 0x1_0000 == k + 1
  {
    if last + 1 + k < 0x1_0000 {
      assert (last + 1 + k) % 0x1_0000 == last + 1 + k;
    } else {
      assert (last + 1 + k) % 0x1_0000 == last + 1 + k - 0x1_0000;
    }
  }

  lemma NumberAtPlace(last: int, x: int)
    requires 0 <= last < 0x1_0000 && 0 <= x < 0x1_0000
    ensures var k := (x - last - 1) % 0x1_0000;
      && (last + 1 + k) % 0x1_0000 == x && (x == last <==> k == 0xFFFF)
      && (x != last ==> (x - last) % 0x1_0000 == k + 1)
  {
    var k := (x - last - 1) % 0x1_0000;
    if x <= last {
      assert k == x - last - 1 + 0x1_0000;
    } else {
      assert k == x - last - 1;
    }
  }

  predicate ShortGap(g: Gap) {
    g.shortSeq && g.max == 0x1_0000 && g.last < 0x1_0000 && g.current < 0x1_0000
  }

  // How many numbers a 16-bit gap marks; the guard on the ring size never cuts the loop short.
  lemma ShortGapSize(g: Gap)
    requires ShortGap(g)
    ensures Between(g) < g.max
    ensures Marked(g) ==
      if !Marks(g) then 0 else if g.current == g.last then 0xFFFF else (g.current - g.last) % 0x1_0000 - 1
  {
    NumberAtPlace(g.last, g.current);
  }

  lemma ShortGapNumber(g: Gap, k: nat, clock: nat -> U64)
    requires ShortGap(g)
    ensures GapEntry(g, k, clock).seqNum == (g.last + 1 + k) % 0x1_0000
  {
  }

  // With 16-bit numbers a forward jump of up to 32768 marks every number strictly between the last one found
  // and the current one, and no other. A repeat of the last number counts as a jump by the whole circle.
  lemma ShortGapIsExact(g: Gap, clock: nat -> U64, x: U32)
    requires ShortGap(g) && x < 0x1_0000
    ensures (exists k :: 0 <= k < Marked(g) && GapEntries(g, Marked(g), clock)[k].seqNum == x)
      <==> (g.current - g.last) % 0x1_0000 <= 32768 && !g.blocked && x != g.last &&
           (g.current == g.last || (x - g.last) % 0x1_0000 < (g.current - g.last) % 0x1_0000)
  {
    hide GapEntry, Marked;
    ShortGapSize(g);
    var n, k := Marked(g), (x - g.last - 1) % 0x1_0000;
    NumberAtPlace(g.last, x);
    if k < n {
      ShortGapNumber(g, k, clock);
      assert GapEntries(g, n, clock)[k].seqNum == x;
    }
    forall j | 0 <= j < n && GapEntries(g, n, clock)[j].seqNum == x
      ensures j == k
    {
      ShortGapNumber(g, j, clock);
      PlaceOfNumber(g.last, j);
    }
  }

  // They are marked in order and once each.
  lemma ShortGapInOrder(g: Gap, clock: nat -> U64, j: nat, k: nat)
    requires ShortGap(g) && j < k < Marked(g)
    ensures var s := GapEntries(g, Marked(g), clock);
      (s[j].seqNum - g.last) % 0x1_0000 < (s[k].seqNum - g.last) % 0x1_0000
  {
    hide GapEntry, Marked;
    ShortGapSize(g);
    ShortGapNumber(g, j, clock);
    ShortGapNumber(g, k, clock);
    PlaceOfNumber(g.last, j);
    PlaceOfNumber(g.last, k);
  }

  // The bound on the jump lets a repeated number through: it marks all 65535 other numbers.
  lemma RepeatMarksEverything(g: Gap)
    requires ShortGap(g) && g.current == g.last && !g.blocked
    ensures Marked(g) == 0xFFFF
  {
    ShortGapSize(g);
  }

  // A flow of 32-bit numbers fed with 16-bit ones marks a gap right until the numbers wrap around; from then on
  // every packet after a wrap, lost packets or not, marks as many numbers as the ring has slots.
  lemma LongGapSize(g: Gap)
    requires !g.shortSeq && g.max == 0x8_0000 && g.last < 0x1_0000 && g.current < 0x1_0000
    ensures Marked(g) ==
      if !Marks(g) then 0 else if g.last < g.current then g.current - g.last - 1 else g.max
  {
    if g.last < g.current {
      assert Between(g) == g.current - g.last - 1;
    } else {
      assert Between(g) == g.current - g.last - 1 + 0x1_0000_0000;
    }
  }

  // Counting up from the last number found meets the current one after all those between them.
  lemma WalkArrives(g: Gap, counter: nat)
    requires g.last < Modulus(g.shortSeq) && g.current < Modulus(g.shortSeq) && 1 <= counter <= Between(g) + 1
    ensures (g.last + counter) % Modulus(g.shortSeq) == g.current <==> counter == Between(g) + 1
  {
    if g.shortSeq {
      WalkArrivesModulo(g.last, g.current, counter, 0x1_0000);
    } else {
      WalkArrivesModulo(g.last, g.current, counter, 0x1_0000_0000);
    }
  }

  lemma WalkArrivesModulo(last: nat, current: nat, counter: nat, m: nat)
    requires m == 0x1_0000 || m == 0x1_0000_0000
    requires last < m && current < m && 1 <= counter <= (current - last - 1) % m + 1
    ensures (last + counter) % m == current <==> counter == (current - last - 1) % m + 1
  {
    var b := (current - last - 1) % m;
    if last < current {
      assert b == current - last - 1;
      assert (last + counter) % m == last + counter;
    } else {
      assert b == current - last - 1 + m;
      assert (last + counter) % m == if last + counter < m then last + counter else last + counter - m;
    }
  }

  // One more number of the gap.
  lemma GapEntriesSnoc(g: Gap, n: nat, clock: nat -> U64)
    ensures GapEntries(g, n + 1, clock) == GapEntries(g, n, clock) + [GapEntry(g, n, clock)]
  {
  }

  // ---- runs ----

  datatype State = State(entries: seq<Entry>, counter: int, nacks: Nacks)

  datatype Event = Mark(gap: Gap, clock: nat -> U64) | Flush | Pass(env: Env)

  const START := State([], 0, Nacks([], []))

  function Apply(s: State, e: Event): State {
    match e
    case Mark(g, clock) => s.(entries := s.entries + GapEntries(g, Marked(g), clock))
    case Flush => s.(entries := [], counter := 0)
    case Pass(env) =>
      State(Survivors(s.entries, 0, env), Counted(s.counter, s.entries, 0, env), NackPass(s.nacks, s.entries, 0, env))
  }

  // Gaps use the flow's numbering, and peers keep their retry limits.
  ghost predicate EventOk(e: Event, shortSeq: bool, retries: nat -> nat) {
    match e
    case Mark(g, clock) => g.shortSeq == shortSeq
    case Flush => true
    case Pass(env) => forall p: nat :: env.peers(p).maxRetries == retries(p)
  }

  ghost predicate Bounded(entries: seq<Entry>, retries: nat -> nat) {
    forall i :: 0 <= i < |entries| ==> entries[i].nackCount <= retries(entries[i].peer)
  }

  ghost predicate Sound(s: State, shortSeq: bool, retries: nat -> nat) {
    && s.counter == Nacked(s.entries) && Bounded(s.entries, retries)
    && (forall i :: 0 <= i < |s.entries| ==> s.entries[i].seqNum < Modulus(shortSeq))
  }

  lemma {:induction false} NoneAsked(entries: seq<Entry>)
    requires forall i :: 0 <= i < |entries| ==> entries[i].nackCount == 0
    ensures Nacked(entries) == 0
  {
    if entries != [] { NoneAsked(entries[1..]); }
  }

  lemma {:induction false} SurvivorsKeepNumbers(entries: seq<Entry>, i: nat, env: Env, bound: nat)
    requires i <= |entries| && forall j :: 0 <= j < |entries| ==> entries[j].seqNum < bound
    ensures forall j :: 0 <= j < |Survivors(entries, i, env)| ==> Survivors(entries, i, env)[j].seqNum < bound
    decreases |entries| - i
  {
    hide Decide;
    if i < |entries| { SurvivorsKeepNumbers(entries, i + 1, env, bound); }
  }

  lemma ApplyKeepsSound(s: State, e: Event, shortSeq: bool, retries: nat -> nat)
    requires Sound(s, shortSeq, retries) && EventOk(e, shortSeq, retries)
    ensures Sound(Apply(s, e), shortSeq, retries)
  {
    hide Marked, Decide, NackPass, Survivors, Counted, Nacked;
    match e
    case Mark(g, clock) =>
      var more := GapEntries(g, Marked(g), clock);
      NackedAppend(s.entries, more);
      NoneAsked(more);
    case Flush =>
      NoneAsked([]);
    case Pass(env) =>
      assert s.entries[0..] == s.entries;
      PassKeepsAccounting(s.counter, s.entries, 0, env);
      PassRespectsRetries(s.entries, 0, env);
      SurvivorsKeepNumbers(s.entries, 0, env, Modulus(shortSeq));
  }

  // In every reachable state the counter is the number of entries asked for, no entry has been asked for more
  // than its peer allows, and every number has the flow's width.
  ghost function Run(events: seq<Event>, shortSeq: bool, retries: nat -> nat): (s: State)
    requires forall e :: e in events ==> EventOk(e, shortSeq, retries)
    ensures Sound(s, shortSeq, retries)
  {
    hide Sound, Apply;
    if events == [] then
      StartIsSound(shortSeq, retries);
      START
    else
      var s := Run(events[..|events| - 1], shortSeq, retries);
      ApplyKeepsSound(s, events[|events| - 1], shortSeq, retries);
      Apply(s, events[|events| - 1])
  }

  lemma StartIsSound(shortSeq: bool, retries: nat -> nat)
    ensures Sound(START, shortSeq, retries)
  {
  }

  // Every pass of every run in which the numbers are short or each pass has a peer to send to writes inside
  // the array of requests.
  lemma {:induction false} RunStaysInside(events: seq<Event>, shortSeq: bool, retries: nat -> nat)
    requires forall e :: e in events ==> EventOk(e, shortSeq, retries) && (e.Pass? && !shortSeq ==> e.env.hasPeers)
    ensures |Run(events, shortSeq, retries).nacks.pending| <= MAX_NACKS
    ensures forall env: Env :: shortSeq || env.hasPeers ==>
      var s := Run(events, shortSeq, retries); PassFits(s.nacks, s.entries, 0, env)
  {
    hide PassFits, NackPass, Survivors, Counted, EventOk;
    var s := Run(events, shortSeq, retries);
    if events != [] {
      var before, e := Run(events[..|events| - 1], shortSeq, retries), events[|events| - 1];
      RunStaysInside(events[..|events| - 1], shortSeq, retries);
      if e.Pass? { FittingPassStaysInside(before.nacks, before.entries, 0, e.env); }
    }
    forall env: Env | shortSeq || env.hasPeers
      ensures PassFits(s.nacks, s.entries, 0, env)
    {
      PassFitsWhen(s.nacks, s.entries, env);
    }
  }

  const ALONE := Env(n => Nobody, n => Peer(false, false, Normal, 1, 0, 0, 0), k => 0, 0, false)

  // Otherwise it need not: after a jump over 201 numbers from one upper half into the next, all of them due, the
  // next pass with nobody to send to writes past the end.
  lemma OverrunReached()
    ensures var g := Gap(0xFF37, 0x1_0001, false, 0x8_0000, false, 0, 0, 0, 0, 0);
      var s := Apply(START, Mark(g, k => 0));
      |s.entries| == MAX_NACKS + 1 && !PassFits(s.nacks, s.entries, 0, ALONE)
  {
    hide Decide, PassFits;
    var g := Gap(0xFF37, 0x1_0001, false, 0x8_0000, false, 0, 0, 0, 0, 0);
    var s := Apply(START, Mark(g, k => 0));
    assert Marked(g) == MAX_NACKS + 1;
    forall j | 0 <= j < |s.entries|
      ensures Decide(s.entries[j], j, ALONE).Retry?
    {
      DueAtOnce(s.entries[j], j);
    }
    LongQueueOverruns(s.entries, ALONE);
  }

  lemma DueAtOnce(e: Entry, j: nat)
    requires e.nackCount == 0 && e.insertionTime == 0 && e.nextNack == 0
    ensures Decide(e, j, ALONE).Retry?
  {
  }

  // The single step the array does not survive.
  lemma StepOverruns(pending: seq<U32>)
    requires |pending| == MAX_NACKS
    ensures var entries := [Entry(0, 0, 0, 0, 0), Entry(0x1_0000, 0, 0, 0, 0)];
      |NackStep(Nacks(pending, []), entries, 1, ALONE).pending| == MAX_NACKS + 1
  {
  }
}
