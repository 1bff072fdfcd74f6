// The ten-slot ring of validation failure times behind the circuit breaker's second trigger.
module FailureWindow {
  import opened Bytes

  const VALIDATION_FAILURE_THRESHOLD: nat := 10
  const VALIDATION_FAILURE_WINDOW_US: U64 := 10_000_000

  datatype Ring = Ring(times: seq<U64>, index: nat) {
    ghost predicate Valid() {
      |times| == VALIDATION_FAILURE_THRESHOLD && index < VALIDATION_FAILURE_THRESHOLD
    }
  }

  const CLEARED: Ring := Ring([0, 0, 0, 0, 0, 0, 0, 0, 0, 0], 0)

  function Record(r: Ring, now: U64): (r': Ring)
    requires r.Valid()
    ensures r'.Valid()
  {
    Ring(r.times[r.index := now], (r.index + 1) % VALIDATION_FAILURE_THRESHOLD)
  }

  function CountFrom(times: seq<U64>, threshold: U64): (n: nat)
    ensures n <= |times|
  {
    if times == [] then 0
    else CountFrom(times[..|times| - 1], threshold) + if times[|times| - 1] >= threshold then 1 else 0
  }

  predicate ThresholdReached(r: Ring, now: U64) {
    CountFrom(r.times, Wrap64(now - VALIDATION_FAILURE_WINDOW_US)) >= VALIDATION_FAILURE_THRESHOLD
  }

  // ---- what the ring stands for: the whole history since it was last cleared ----

  ghost predicate Nondecreasing(history: seq<U64>) {
    forall i, j :: 0 <= i <= j < |history| ==> history[i] <= history[j]
  }

  // Replaying a history of recorded failures into a cleared ring.
  function Replay(history: seq<U64>): (r: Ring)
    ensures r.Valid()
  {
    if history == [] then CLEARED
    else Record(Replay(history[..|history| - 1]), history[|history| - 1])
  }

  // The latest entry of the history whose position is k modulo ten, if there is one.
  function LatestAt(history: seq<U64>, k: nat): U64 {
    var back := (|history| - 1 - k) % 10;
    if |history| <= back then 0 else history[|history| - 1 - back]
  }

  ghost predicate Represents(r: Ring, history: seq<U64>) {
    && r.Valid()
    && r.index == |history| % 10
    && forall k :: 0 <= k < 10 ==> r.times[k] == LatestAt(history, k)
  }

  lemma BackOneMore(n: nat, k: nat)
    requires n > 0 && k < 10
    ensures (n - 1 - k) % 10 == if k == (n - 1) % 10 then 0 else (n - 2 - k) % 10 + 1
  {
  }

  lemma OldestSlot(n: nat)
    ensures (n - 1 - n % 10) % 10 == 9
  {
  }

  lemma LatestAfter(front: seq<U64>, t: U64, k: nat)
    requires k < 10
    ensures LatestAt(front + [t], k) == if k == |front| % 10 then t else LatestAt(front, k)
  {
    BackOneMore(|front| + 1, k);
  }

  lemma {:induction false} ReplayRepresents(history: seq<U64>)
    ensures Represents(Replay(history), history)
  {
    if history == [] {
      assert forall k :: 0 <= k < 10 ==> CLEARED.times[k] == 0;
    } else {
      hide LatestAt;
      var front, t := history[..|history| - 1], history[|history| - 1];
      ReplayRepresents(front);
      assert history == front + [t];
      forall k | 0 <= k < 10
        ensures Replay(history).times[k] == LatestAt(history, k)
      {
        LatestAfter(front, t, k);
      }
    }
  }

  lemma {:induction false} CountAll(times: seq<U64>, threshold: U64)
    ensures CountFrom(times, threshold) == |times| <==> forall k :: 0 <= k < |times| ==> times[k] >= threshold
  {
    if times != [] {
      CountAll(times[..|times| - 1], threshold);
    }
  }

  // The oldest slot holds the tenth most recent failure, and no slot holds an older one.
  lemma OldestIsTenth(history: seq<U64>)
    requires Nondecreasing(history)
    ensures LatestAt(history, |history| % 10) == if |history| < 10 then 0 else history[|history| - 10]
    ensures |history| >= 10 ==> forall k :: 0 <= k < 10 ==> LatestAt(history, k) >= history[|history| - 10]
  {
    OldestSlot(|history|);
  }

  lemma SlotsNotAfter(history: seq<U64>, now: U64, k: nat)
    requires forall i :: 0 <= i < |history| ==> history[i] <= now
    requires k < 10
    ensures LatestAt(history, k) <= now
  {
  }

  // The test on the ring, for every clock value: past the window it is exactly "ten failures were
  // recorded and the tenth most recent lies within ten seconds"; at the very instant the clock equals the
  // window it always holds, the cleared slots counting as failures at time zero; before that it
  // never holds.
  lemma ThresholdOfHistory(history: seq<U64>, now: U64)
    requires Nondecreasing(history)
    requires forall i :: 0 <= i < |history| ==> history[i] <= now
    ensures ThresholdReached(Replay(history), now) <==>
      now == VALIDATION_FAILURE_WINDOW_US ||
      (now > VALIDATION_FAILURE_WINDOW_US && |history| >= 10 &&
       now - history[|history| - 10] <= VALIDATION_FAILURE_WINDOW_US)
  {
    hide LatestAt, Replay, CountFrom;
    var r := Replay(history);
    var threshold := Wrap64(now - VALIDATION_FAILURE_WINDOW_US);
    ReplayRepresents(history);
    CountAll(r.times, threshold);
    OldestIsTenth(history);
    if now < VALIDATION_FAILURE_WINDOW_US {
      SlotsNotAfter(history, now, 0);
      assert r.times[0] < threshold;
    } else if now > VALIDATION_FAILURE_WINDOW_US {
      assert threshold == now - VALIDATION_FAILURE_WINDOW_US;
      assert r.times[|history| % 10] == LatestAt(history, |history| % 10);
    } else {
      assert threshold == 0;
    }
  }
}
