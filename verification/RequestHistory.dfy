// When a missing packet is asked for: every entry of the missing queue with the requests made for it so far.
module RequestHistory {
  import opened Bytes
  import opened MissingQueue

  // One request: when it was made, and how long the next one has to wait.
  datatype Ask = Ask(at: U64, wait: nat)

  datatype Life = Life(markedAt: U64, rtt: U64, asks: seq<Ask>)

  // 1.1 times the round-trip time.
  function Pause(p: Peer): nat { Rtt(p) * 11 / 10 }

  // When the next request may be made.
  function Due(l: Life): nat {
    if l.asks == [] then l.markedAt + l.rtt else l.asks[|l.asks| - 1].at + l.asks[|l.asks| - 1].wait
  }

  // What a pass adds to the lives of the entries that stay.
  function LivesAfter(entries: seq<Entry>, lives: seq<Life>, i: nat, env: Env): (s: seq<Life>)
    requires |lives| == |entries| && i <= |entries|
    ensures |s| == |Survivors(entries, i, env)|
    decreases |entries| - i
  {
    if i == |entries| then []
    else
      match Decide(entries[i], i, env)
      case Remove => LivesAfter(entries, lives, i + 1, env)
      case Keep => [lives[i]] + LivesAfter(entries, lives, i + 1, env)
      case Retry =>
        var ask := Ask(env.now(i), Pause(env.peers(entries[i].peer)));
        [lives[i].(asks := lives[i].asks + [ask])] + LivesAfter(entries, lives, i + 1, env)
  }

  // The queued entries of a run, told as lives.
  ghost function Lives(events: seq<Event>, shortSeq: bool, retries: nat -> nat): (s: seq<Life>)
    requires forall e :: e in events ==> EventOk(e, shortSeq, retries)
    ensures |s| == |Run(events, shortSeq, retries).entries|
  {
    hide Sound, EventOk, Decide, Marked, Survivors, LivesAfter;
    if events == [] then []
    else
      var before := Lives(events[..|events| - 1], shortSeq, retries);
      match events[|events| - 1]
      case Mark(g, clock) => before + seq(Marked(g), k requires 0 <= k < Marked(g) => Life(clock(k), g.rtt, []))
      case Flush => []
      case Pass(env) => LivesAfter(Run(events[..|events| - 1], shortSeq, retries).entries, before, 0, env)
  }

  // No sum of times leaves 64 bits.
  ghost predicate Unwrapped(e: Event) {
    match e
    case Mark(g, clock) => forall k: nat :: clock(k) + g.rtt < 0x1_0000_0000_0000_0000
    case Flush => true
    case Pass(env) =>
      forall i: nat, p: nat :: env.now(i) + Pause(env.peers(p)) < 0x1_0000_0000_0000_0000
  }

  // Each request comes no sooner than the one before allows, and the first no sooner than a round trip after marking.
  ghost predicate Spaced(l: Life) {
    && (l.asks != [] ==> l.asks[0].at >= l.markedAt + l.rtt)
    && forall k :: 0 < k < |l.asks| ==> l.asks[k].at >= l.asks[k - 1].at + l.asks[k - 1].wait
  }

  ghost predicate Lived(e: Entry, l: Life) { e.nackCount == |l.asks| && e.nextNack == Due(l) && Spaced(l) }

  lemma AskedOnTime(e: Entry, l: Life, p: Peer, now: U64)
    requires Lived(e, l) && now >= e.nextNack && now + Pause(p) < 0x1_0000_0000_0000_0000
    ensures Lived(Asked(e, p, now), l.(asks := l.asks + [Ask(now, Pause(p))]))
  {
  }

  lemma RetryIsDue(e: Entry, i: nat, env: Env)
    requires Decide(e, i, env).Retry?
    ensures env.now(i) >= e.nextNack
  {
  }

  ghost predicate AllLived(entries: seq<Entry>, lives: seq<Life>) {
    |lives| == |entries| && forall k :: 0 <= k < |entries| ==> Lived(entries[k], lives[k])
  }

  lemma {:induction false} PassKeepsLives(entries: seq<Entry>, lives: seq<Life>, i: nat, env: Env)
    requires AllLived(entries, lives) && i <= |entries| && Unwrapped(Pass(env))
    ensures AllLived(Survivors(entries, i, env), LivesAfter(entries, lives, i, env))
    decreases |entries| - i
  {
    hide Decide, Lived, Asked, Rtt;
    if i < |entries| {
      var e := entries[i];
      assert Lived(e, lives[i]);
      PassKeepsLives(entries, lives, i + 1, env);
      if Decide(e, i, env).Retry? {
        RetryIsDue(e, i, env);
        assert env.now(i) + Pause(env.peers(e.peer)) < 0x1_0000_0000_0000_0000;
        AskedOnTime(e, lives[i], env.peers(e.peer), env.now(i));
      }
    }
  }

  // The time of the k-th number of a gap, before it is held against the buffer.
  function MarkTime(g: Gap, k: nat): U64 {
    Wrap64(g.timeLast + (k + 1) * (Wrap64(g.timeNow - g.timeLast) / ((g.current - g.last) % 0x1_0000 + 1)))
  }

  lemma MarkedFields(g: Gap, k: nat, clock: nat -> U64)
    ensures var e := GapEntry(g, k, clock);
      && e.nackCount == 0 && e.nextNack == Wrap64(clock(k) + g.rtt)
      && e.insertionTime == DueTime(MarkTime(g, k), clock(k), g.recovery)
  {
    hide DueTime, Wrap64, Modulus;
  }

  lemma MarkedLives(g: Gap, k: nat, clock: nat -> U64)
    requires Unwrapped(Mark(g, clock))
    ensures Lived(GapEntry(g, k, clock), Life(clock(k), g.rtt, []))
  {
    hide GapEntry, DueTime;
    MarkedFields(g, k, clock);
    assert clock(k) + g.rtt < 0x1_0000_0000_0000_0000;
  }

  // In every run each queued entry has been asked for as often as it says, the next request is due when its history
  // says, and two successive requests lie at least 1.1 times the peer's bounded round-trip time apart.
  lemma {:induction false} RequestsAreSpaced(events: seq<Event>, shortSeq: bool, retries: nat -> nat)
    requires forall e :: e in events ==> EventOk(e, shortSeq, retries) && Unwrapped(e)
    ensures AllLived(Run(events, shortSeq, retries).entries, Lives(events, shortSeq, retries))
  {
    hide Sound, EventOk, Survivors, LivesAfter, Lived, Unwrapped, Marked, Counted, NackPass, GapEntry;
    if events != [] {
      RequestsAreSpaced(events[..|events| - 1], shortSeq, retries);
      var before := Run(events[..|events| - 1], shortSeq, retries);
      var lives := Lives(events[..|events| - 1], shortSeq, retries);
      match events[|events| - 1]
      case Mark(g, clock) =>
        forall k | 0 <= k < Marked(g)
          ensures Lived(GapEntries(g, Marked(g), clock)[k], Life(clock(k), g.rtt, []))
        {
          MarkedLives(g, k, clock);
        }
      case Flush =>
      case Pass(env) => PassKeepsLives(before.entries, lives, 0, env);
    }
  }

  // The round-trip time used is the measured one, kept within the peer's limits.
  lemma RttIsBounded(p: Peer)
    requires p.rttMin <= p.rttMax
    ensures p.rttMin <= Rtt(p) <= p.rttMax
    ensures p.rttMin <= p.eightTimesRtt / 8 <= p.rttMax ==> Rtt(p) == p.eightTimesRtt / 8
    ensures Rtt(p) == p.rttMin || Rtt(p) == p.rttMax || Rtt(p) == p.eightTimesRtt / 8
  {
  }

  // In every run the next pass asks for an entry exactly if the packet is still missing, its peer neither has recovery
  // switched off nor a bloated buffer, it has been asked for fewer times than the peer allows, it is no older than 1.1
  // times the buffer, and the last request lies far enough back.
  lemma AskedExactlyWhenDue(events: seq<Event>, shortSeq: bool, retries: nat -> nat, env: Env, k: nat)
    requires forall e :: e in events ==> EventOk(e, shortSeq, retries) && Unwrapped(e)
    requires EventOk(Pass(env), shortSeq, retries)
    requires k < |Run(events, shortSeq, retries).entries|
    ensures
      var e, l := Run(events, shortSeq, retries).entries[k], Lives(events, shortSeq, retries)[k];
      Decide(e, k, env).Retry? <==>
        && env.ring(e.seqNum).Nobody? && !env.peers(e.peer).recoveryOff && !env.peers(e.peer).bloated
        && |l.asks| < retries(e.peer) && 10 * Wrap64(env.now(k) - e.insertionTime) <= 11 * env.recovery
        && env.now(k) >= Due(l)
  {
    hide Run, Lives, Due;
    RequestsAreSpaced(events, shortSeq, retries);
    var e := Run(events, shortSeq, retries).entries[k];
    assert env.peers(e.peer).maxRetries == retries(e.peer);
  }

  // It gives an entry up exactly if the packet has arrived, its peer has recovery switched off, or it is old or has
  // been asked for as often as allowed; for a peer with a bloated buffer, if that peer reacts to congestion
  // aggressively, or normally and the entry has been asked for more than four times.
  lemma GivenUpExactly(events: seq<Event>, shortSeq: bool, retries: nat -> nat, env: Env, k: nat)
    requires forall e :: e in events ==> EventOk(e, shortSeq, retries) && Unwrapped(e)
    requires EventOk(Pass(env), shortSeq, retries)
    requires k < |Run(events, shortSeq, retries).entries|
    ensures
      var e, l := Run(events, shortSeq, retries).entries[k], Lives(events, shortSeq, retries)[k];
      var p := env.peers(e.peer);
      Decide(e, k, env).Remove? <==>
        || p.recoveryOff || env.ring(e.seqNum).Packet?
        || (if p.bloated then p.congestion.Aggressive? || (p.congestion.Normal? && |l.asks| > 4)
            else |l.asks| >= retries(e.peer) || 10 * Wrap64(env.now(k) - e.insertionTime) > 11 * env.recovery)
  {
    hide Run, Lives;
    RequestsAreSpaced(events, shortSeq, retries);
    var e := Run(events, shortSeq, retries).entries[k];
    assert env.peers(e.peer).maxRetries == retries(e.peer);
  }

  // The requests of a pass are for exactly the entries decided so, in the order of the queue.
  lemma {:induction false} RequestsAre(entries: seq<Entry>, i: nat, env: Env, n: U32)
    requires i <= |entries|
    ensures n in Requests(entries, i, env) <==>
      exists k :: i <= k < |entries| && Decide(entries[k], k, env).Retry? && entries[k].seqNum == n
    decreases |entries| - i
  {
    hide Decide;
    if i < |entries| { RequestsAre(entries, i + 1, env, n); }
  }

  // ---- when a missing packet is taken to have been due ----

  // A time within the buffer before now is kept, any other is replaced by now.
  lemma DueTimeWithin(time: U64, now: U64, recovery: U64)
    requires recovery <= now
    ensures now - recovery <= DueTime(time, now, recovery) <= now
    ensures DueTime(time, now, recovery) == if now - recovery <= time <= now then time else now
  {
  }

  lemma StepsWithin(d: nat, n: nat, k: nat)
    requires 0 < k <= n
    ensures 0 <= k * (d / n) <= d
  {
    var q := d / n;
    assert n * q <= d;
    MonotoneProduct(k, n, q);
  }

  lemma MonotoneProduct(k: nat, n: nat, q: nat)
    requires k <= n
    ensures k * q <= n * q
  {
  }

  lemma MarkTimeWithin(g: Gap, k: nat)
    requires g.timeLast <= g.timeNow && k <= (g.current - g.last) % 0x1_0000
    ensures MarkTime(g, k) == g.timeLast + (k + 1) * ((g.timeNow - g.timeLast) / ((g.current - g.last) % 0x1_0000 + 1))
    ensures g.timeLast <= MarkTime(g, k) <= g.timeNow
  {
    var n := (g.current - g.last) % 0x1_0000;
    StepsWithin(g.timeNow - g.timeLast, n + 1, k + 1);
    assert Wrap64(g.timeNow - g.timeLast) == g.timeNow - g.timeLast;
  }

  // The times of a gap run from that of the packet before it towards that of the packet after it, in equal steps; one
  // that does not lie within the buffer before now is replaced by now.
  lemma GapTimesSpread(g: Gap, k: nat, clock: nat -> U64)
    requires g.timeLast <= g.timeNow && k <= (g.current - g.last) % 0x1_0000 && g.recovery <= clock(k)
    ensures
      var time := g.timeLast + (k + 1) * ((g.timeNow - g.timeLast) / ((g.current - g.last) % 0x1_0000 + 1));
      && g.timeLast <= time <= g.timeNow
      && GapEntry(g, k, clock).insertionTime == if clock(k) - g.recovery <= time <= clock(k) then time else clock(k)
  {
    hide GapEntry, MarkTime;
    MarkedFields(g, k, clock);
    MarkTimeWithin(g, k);
    DueTimeWithin(MarkTime(g, k), clock(k), g.recovery);
  }
}
