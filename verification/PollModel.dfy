/** The poll loop on values: which sources a round polls, when they are polled again, and the jobs that are queued. */
module PollModel {
  import opened Arithmetic
  import opened TickClock
  import opened FlatWheelModel
  import opened WheelRuns

  function SlotAt(index: nat, d: nat, n: nat): (j: nat)
    requires 0 < n
    ensures j < n
  {
    (index + d) % n
  }

  /** What comes up `d` ticks from now. */
  function Ahead<T>(s: FlatState<T>, d: nat): (bucket: seq<T>)
    requires 0 < |s.buckets|
  {
    s.buckets[SlotAt(s.index, d, |s.buckets|)]
  }

  /** The sources of a list that wait `d` ticks, on a wheel of `n`, until they are polled again. */
  function WithDelay<Source>(ready: seq<Source>, frequency: Source -> nat, tick: nat, n: nat, d: nat): (r: seq<Source>)
    requires 0 < tick && 0 < n
    decreases |ready|
  {
    if ready == [] then []
    else
      var last := ready[|ready| - 1];
      WithDelay(ready[..|ready| - 1], frequency, tick, n, d) + if frequency(last) / tick % n == d then [last] else []
  }

  /** Each source scheduled again at its own frequency, in order. */
  function PutAllBack<Source>(tick: nat, s: FlatState<Source>, ready: seq<Source>, frequency: Source -> nat)
    : (r: FlatState<Source>)
    requires 0 < tick && 0 < |s.buckets|
    ensures |r.buckets| == |s.buckets|
    decreases |ready|
  {
    if ready == [] then s
    else
      var last := ready[|ready| - 1];
      FlatStep(tick, PutAllBack(tick, s, ready[..|ready| - 1], frequency), ScheduleOp(frequency(last), last)).0
  }

  /** One round: the wheel after it, and the sources polled. */
  function PollStep<Source>(tick: nat, s: FlatState<Source>, now: int, frequency: Source -> nat)
    : (r: (FlatState<Source>, seq<Source>))
    requires 0 < tick && 0 < |s.buckets|
    ensures |r.0.buckets| == |s.buckets|
  {
    var (advanced, ready) := FlatStep(tick, s, AdvanceOp(now));
    (PutAllBack(tick, advanced, ready, frequency), ready)
  }

  /** The wheel after rounds at the given readings. */
  function PollAfter<Source>(tick: nat, s: FlatState<Source>, readings: seq<int>, frequency: Source -> nat)
    : (r: FlatState<Source>)
    requires 0 < tick && 0 < |s.buckets|
    ensures |r.buckets| == |s.buckets|
    decreases |readings|
  {
    if readings == [] then s
    else
      PollStep(tick, PollAfter(tick, s, readings[..|readings| - 1], frequency), readings[|readings| - 1], frequency).0
  }

  // ---------- Distances on the wheel ----------

  /** Different distances of less than a turn are different slots. */
  lemma OtherSlot(index: nat, d: nat, e: nat, n: nat)
    requires d < n && e < n && d != e
    ensures SlotAt(index, d, n) != SlotAt(index, e, n)
  {
    SlotFromCursor(index, d, n);
    SlotFromCursor(index, e, n);
  }

  lemma SlotFromCursor(index: nat, d: nat, n: nat)
    requires d < n
    ensures SlotAt(index, d, n) == if index % n + d < n then index % n + d else index % n + d - n
  {
    var c := index % n;
    ModAdd(index, d, n);
    DivModUnique(c + d, n, if c + d < n then 0 else 1, if c + d < n then c + d else c + d - n);
  }

  lemma SlotOfDelay(index: nat, t: nat, n: nat)
    requires 0 < n
    ensures t % n < n && SlotAt(index, t, n) == SlotAt(index, t % n, n)
  {
    ModAdd(t, index, n);
  }

  lemma ScheduleAtSlot<T>(s: FlatState<T>, t: nat, timer: T)
    requires 0 < |s.buckets|
    ensures var j := SlotAt(s.index, t, |s.buckets|);
      FlatSchedule(s.buckets, s.index, t, timer) == s.buckets[j := s.buckets[j] + [timer]]
  {
  }

  /** A source scheduled with a delay of `t` ticks comes up `t` mod `n` ticks from now, after those there. */
  lemma ScheduledAhead<T>(s: FlatState<T>, t: nat, timer: T, d: nat)
    requires 0 < |s.buckets| && d < |s.buckets|
    ensures var later := s.(buckets := FlatSchedule(s.buckets, s.index, t, timer));
      Ahead(later, d) == Ahead(s, d) + if t % |s.buckets| == d then [timer] else []
  {
    hide SlotAt, FlatSchedule;
    var n := |s.buckets|;
    SlotOfDelay(s.index, t, n);
    ScheduleAtSlot(s, t, timer);
    var e := t % n;
    if e != d {
      OtherSlot(s.index, e, d, n);
    }
  }

  /** Putting the sources of a round back leaves the clock and the index, and adds each at its own delay, in order. */
  lemma {:induction false} PutBackAhead<Source>(tick: nat, s: FlatState<Source>, ready: seq<Source>, frequency: Source -> nat, d: nat)
    requires 0 < tick && d < |s.buckets|
    ensures var after := PutAllBack(tick, s, ready, frequency);
      && after.last == s.last && after.index == s.index
      && Ahead(after, d) == Ahead(s, d) + WithDelay(ready, frequency, tick, |s.buckets|, d)
    decreases |ready|
  {
    hide Ahead, FlatSchedule;
    if ready != [] {
      var low, last := ready[..|ready| - 1], ready[|ready| - 1];
      PutBackAhead(tick, s, low, frequency, d);
      ScheduledAhead(PutAllBack(tick, s, low, frequency), frequency(last) / tick, last, d);
    }
  }

  /** Putting back holds the sources again. */
  lemma {:induction false} PutBackHolds<Source>(tick: nat, s: FlatState<Source>, ready: seq<Source>, frequency: Source -> nat)
    requires 0 < tick && 0 < |s.buckets|
    ensures AllTimers(PutAllBack(tick, s, ready, frequency).buckets) == AllTimers(s.buckets) + multiset(ready)
    decreases |ready|
  {
    hide AllTimers, FlatSchedule;
    if ready != [] {
      var low, last := ready[..|ready| - 1], ready[|ready| - 1];
      PutBackHolds(tick, s, low, frequency);
      var before := PutAllBack(tick, s, low, frequency);
      FlatScheduleConserves(before.buckets, before.index, frequency(last) / tick, last);
      assert ready == low + [last];
    }
  }

  /** A drain of at most `d` ticks leaves what comes up `d` ticks from now; a longer one returns it. */
  lemma {:induction false} DrainAhead<T>(s: FlatState<T>, k: nat, d: nat)
    requires d < |s.buckets|
    ensures var (buckets, fired) := FlatDrain(s.buckets, s.index, k);
      && (k <= d ==> buckets[SlotAt(s.index, d, |s.buckets|)] == Ahead(s, d))
      && (k > d ==> forall x :: x in Ahead(s, d) ==> x in fired)
    decreases k
  {
    hide SlotAt;
    if k > 0 {
      DrainAhead(s, k - 1, d);
      DrainOne(s, k);
      if k <= d {
        OtherSlot(s.index, k - 1, d, |s.buckets|);
      }
    }
  }

  lemma DrainOne<T>(s: FlatState<T>, k: nat)
    requires 0 < |s.buckets| && 0 < k
    ensures var (before, fired) := FlatDrain(s.buckets, s.index, k - 1);
      var j := SlotAt(s.index, k - 1, |s.buckets|);
      FlatDrain(s.buckets, s.index, k) == (before[j := []], fired + before[j])
  {
  }

  /** What comes up in `d` ticks is `k` ticks closer after `k` of them. */
  lemma AdvanceAhead<T>(tick: nat, s: FlatState<T>, now: int, d: nat)
    requires 0 < tick && d < |s.buckets|
    ensures var (after, fired) := FlatStep(tick, s, AdvanceOp(now));
      var k := ElapsedTicks(tick, s.last, now);
      && (k <= d ==> Ahead(after, d - k) == Ahead(s, d))
      && (k > d ==> forall x :: x in Ahead(s, d) ==> x in fired)
  {
    var k := ElapsedTicks(tick, s.last, now);
    DrainAhead(s, k, d);
    if k <= d {
      assert s.index + k + (d - k) == s.index + d;
    }
  }

  lemma {:induction false} BucketHeld<T>(buckets: seq<seq<T>>, j: nat, x: T)
    requires j < |buckets| && x in buckets[j]
    ensures x in AllTimers(buckets)
    decreases |buckets|
  {
    if j < |buckets| - 1 {
      BucketHeld(buckets[..|buckets| - 1], j, x);
    }
  }

  // ---------- Rounds ----------

  /** A round keeps every source as often as it was held. */
  lemma PollHolds<Source>(tick: nat, s: FlatState<Source>, now: int, frequency: Source -> nat)
    requires 0 < tick && 0 < |s.buckets|
    ensures AllTimers(PollStep(tick, s, now, frequency).0.buckets) == AllTimers(s.buckets)
  {
    hide AllTimers, PutAllBack;
    var (advanced, ready) := FlatStep(tick, s, AdvanceOp(now));
    FlatDrainConserves(s.buckets, s.index, ElapsedTicks(tick, s.last, now));
    PutBackHolds(tick, advanced, ready, frequency);
  }

  /**
   * One round: what comes up within the ticks it completes is polled; the rest comes closer by them, and of it at least
   * one occurrence is not polled.
   */
  lemma PollAhead<Source>(tick: nat, s: FlatState<Source>, now: int, frequency: Source -> nat, d: nat, x: Source)
    requires 0 < tick && d < |s.buckets| && x in Ahead(s, d)
    ensures var (after, ready) := PollStep(tick, s, now, frequency);
      var k := ElapsedTicks(tick, s.last, now);
      && after.last == NextLast(tick, s.last, now) && after.index == s.index + k
      && (k > d ==> x in ready)
      && (k <= d ==> x in Ahead(after, d - k) && multiset(ready)[x] < AllTimers(s.buckets)[x])
  {
    hide AllTimers, Ahead, PutAllBack, FlatDrain, NextLast;
    var (advanced, ready) := FlatStep(tick, s, AdvanceOp(now));
    var k := ElapsedTicks(tick, s.last, now);
    AdvanceAhead(tick, s, now, d);
    PutBackAhead(tick, advanced, ready, frequency, 0);
    if k <= d {
      PutBackAhead(tick, advanced, ready, frequency, d - k);
      FlatDrainConserves(s.buckets, s.index, k);
      HeldAhead(advanced, d - k, x);
      assert AllTimers(s.buckets) == AllTimers(advanced.buckets) + multiset(ready);
    }
  }

  lemma HeldAhead<T>(s: FlatState<T>, d: nat, x: T)
    requires 0 < |s.buckets| && x in Ahead(s, d)
    ensures x in AllTimers(s.buckets)
  {
    BucketHeld(s.buckets, SlotAt(s.index, d, |s.buckets|), x);
  }

  /** The index and the clock after rounds: the ticks the readings complete, from the last reading to complete one. */
  lemma {:induction false} PollTicks<Source>(tick: nat, s: FlatState<Source>, readings: seq<int>, frequency: Source -> nat)
    requires 0 < tick && 0 < |s.buckets|
    ensures var after := PollAfter(tick, s, readings, frequency);
      && after.last == LastAfter(tick, s.last, readings)
      && after.index == s.index + TotalElapsed(tick, s.last, readings)
      && AllTimers(after.buckets) == AllTimers(s.buckets)
    decreases |readings|
  {
    hide AllTimers, FlatDrain, NextLast, ElapsedTicks;
    if readings != [] {
      var before, now := readings[..|readings| - 1], readings[|readings| - 1];
      PollTicks(tick, s, before, frequency);
      var mid := PollAfter(tick, s, before, frequency);
      PollHolds(tick, mid, now, frequency);
      var (advanced, ready) := FlatStep(tick, mid, AdvanceOp(now));
      PutBackAhead(tick, advanced, ready, frequency, 0);
    }
  }

  /** Until more than `d` ticks are complete, what came up in `d` ticks waits, coming closer by the ticks completed. */
  lemma {:induction false} WaitsItsTurn<Source>(tick: nat, s: FlatState<Source>, readings: seq<int>, frequency: Source -> nat,
                                                d: nat, x: Source)
    requires 0 < tick && d < |s.buckets| && x in Ahead(s, d) && TotalElapsed(tick, s.last, readings) <= d
    ensures x in Ahead(PollAfter(tick, s, readings, frequency), d - TotalElapsed(tick, s.last, readings))
    decreases |readings|
  {
    hide AllTimers, Ahead, PollStep, ElapsedTicks;
    if readings != [] {
      var before, now := readings[..|readings| - 1], readings[|readings| - 1];
      WaitsItsTurn(tick, s, before, frequency, d, x);
      PollTicks(tick, s, before, frequency);
      PollAhead(tick, PollAfter(tick, s, before, frequency), now, frequency, d - TotalElapsed(tick, s.last, before), x);
    }
  }

  /**
   * A source that comes up in `d` ticks is polled in the first round by which more than `d` ticks are complete. In no
   * round before that are all its occurrences polled: none, if the wheel holds it once.
   */
  lemma PolledInTurn<Source>(tick: nat, s: FlatState<Source>, readings: seq<int>, now: int, frequency: Source -> nat,
                             d: nat, x: Source)
    requires 0 < tick && d < |s.buckets| && x in Ahead(s, d) && TotalElapsed(tick, s.last, readings) <= d
    ensures var ready := PollStep(tick, PollAfter(tick, s, readings, frequency), now, frequency).1;
      var k := TotalElapsed(tick, s.last, readings + [now]);
      && (d < k ==> x in ready)
      && (k <= d ==> multiset(ready)[x] < AllTimers(s.buckets)[x])
      && (AllTimers(s.buckets)[x] == 1 ==> (x in ready <==> d < k))
  {
    hide AllTimers, Ahead, PollStep, ElapsedTicks;
    var all := readings + [now];
    assert all[..|all| - 1] == readings;
    WaitsItsTurn(tick, s, readings, frequency, d, x);
    PollTicks(tick, s, readings, frequency);
    PollAhead(tick, PollAfter(tick, s, readings, frequency), now, frequency, d - TotalElapsed(tick, s.last, readings), x);
  }

  /** A source that a round polls is put back its own frequency ahead, and the ticks until its turn count from that round's reading. */
  lemma PutBackAtFrequency<Source>(tick: nat, s: FlatState<Source>, now: int, frequency: Source -> nat, x: Source)
    requires 0 < tick && 0 < |s.buckets| && x in PollStep(tick, s, now, frequency).1
    ensures var after := PollStep(tick, s, now, frequency).0;
      after.last == now && x in Ahead(after, frequency(x) / tick % |s.buckets|)
  {
    hide Ahead, PutAllBack, WithDelay;
    var (advanced, ready) := FlatStep(tick, s, AdvanceOp(now));
    var d := frequency(x) / tick % |s.buckets|;
    PutBackAhead(tick, advanced, ready, frequency, d);
    InWithDelay(ready, frequency, tick, |s.buckets|, x);
  }

  lemma {:induction false} InWithDelay<Source>(ready: seq<Source>, frequency: Source -> nat, tick: nat, n: nat, x: Source)
    requires 0 < tick && 0 < n && x in ready
    ensures x in WithDelay(ready, frequency, tick, n, frequency(x) / tick % n)
    decreases |ready|
  {
    var low, last := ready[..|ready| - 1], ready[|ready| - 1];
    assert ready == low + [last];
    if x in low {
      InWithDelay(low, frequency, tick, n, x);
    }
  }

  /**
   * The period of a source. Polled in the round at `now`, it is polled next in the first later round by which
   * (frequency / tick mod n) + 1 ticks have completed since `now`, and, if the wheel holds it once, in none before.
   */
  lemma PollPeriod<Source>(tick: nat, s: FlatState<Source>, now: int, readings: seq<int>, later: int,
                           frequency: Source -> nat, x: Source)
    requires 0 < tick && 0 < |s.buckets| && x in PollStep(tick, s, now, frequency).1
    requires TotalElapsed(tick, now, readings) <= frequency(x) / tick % |s.buckets|
    ensures var after := PollStep(tick, s, now, frequency).0;
      var ready := PollStep(tick, PollAfter(tick, after, readings, frequency), later, frequency).1;
      var k, p := TotalElapsed(tick, now, readings + [later]), frequency(x) / tick % |s.buckets| + 1;
      && (p <= k ==> x in ready)
      && (k < p ==> multiset(ready)[x] < AllTimers(s.buckets)[x])
      && (AllTimers(s.buckets)[x] == 1 ==> (x in ready <==> p <= k))
  {
    hide AllTimers, Ahead, PollStep, ElapsedTicks;
    var after := PollStep(tick, s, now, frequency).0;
    PutBackAtFrequency(tick, s, now, frequency, x);
    PollHolds(tick, s, now, frequency);
    PolledInTurn(tick, after, readings, later, frequency, frequency(x) / tick % |s.buckets|, x);
  }

  // ---------- The loop from its start ----------

  /** Ticks of 10 ms that span a minute. */
  const POLL_TICK: nat := 10
  const POLL_TICKS: nat := 60000 / 10

  /** Every source comes up with the first tick. */
  function PollStart<Source>(sources: seq<Source>, created: int): (s: FlatState<Source>)
    ensures |s.buckets| == POLL_TICKS && s.last == created && Ahead(s, 0) == sources
  {
    FlatState(created, 0, EmptyBuckets(POLL_TICKS)[0 := sources])
  }

  lemma StartHolds<Source>(sources: seq<Source>, created: int)
    ensures AllTimers(PollStart(sources, created).buckets) == multiset(sources)
  {
    hide AllTimers;
    EmptyHoldsNothing<Source>(POLL_TICKS);
    var empty := EmptyBuckets<Source>(POLL_TICKS);
    AllTimersUpdate(empty, 0, sources);
    assert empty[0] == [];
    assert AllTimers(empty[0 := sources]) == AllTimers(empty[0 := sources]) + multiset(empty[0]);
    assert AllTimers(empty) + multiset(sources) == multiset(sources);
  }

  lemma {:induction false} EmptyHoldsNothing<T>(n: nat)
    ensures AllTimers(EmptyBuckets<T>(n)) == multiset{}
  {
    if n > 0 {
      EmptyHoldsNothing<T>(n - 1);
      assert EmptyBuckets<T>(n)[..n - 1] == EmptyBuckets<T>(n - 1);
    }
  }

  /** Every source is polled for the first time in the first round by which a tick is complete. */
  lemma FirstPoll<Source>(sources: seq<Source>, created: int, readings: seq<int>, now: int, frequency: Source -> nat, x: Source)
    requires x in sources && TotalElapsed(POLL_TICK, created, readings) == 0
    ensures var ready := PollStep(POLL_TICK, PollAfter(POLL_TICK, PollStart(sources, created), readings, frequency), now, frequency).1;
      && (now - created >= POLL_TICK ==> x in ready)
      && (now - created < POLL_TICK ==> multiset(ready)[x] < multiset(sources)[x])
  {
    hide AllTimers, Ahead, PollStep, PollStart;
    StartHolds(sources, created);
    var s := PollStart(sources, created);
    NothingYet(POLL_TICK, created, readings, now);
    PolledInTurn(POLL_TICK, s, readings, now, frequency, 0, x);
  }

  lemma {:induction false} NothingYet(tick: nat, last: int, readings: seq<int>, now: int)
    requires 0 < tick && TotalElapsed(tick, last, readings) == 0
    ensures LastAfter(tick, last, readings) == last
    ensures TotalElapsed(tick, last, readings + [now]) > 0 <==> now - last >= tick
  {
    DriftBounds(tick, last, readings);
    assert (readings + [now])[..|readings|] == readings;
  }

  /** The jobs of the polled sources, in polling order. */
  function Jobs<Source, Job>(ready: seq<Source>, poll: Source -> seq<Job>): (r: seq<Job>)
    decreases |ready|
  {
    if ready == [] then [] else Jobs(ready[..|ready| - 1], poll) + poll(ready[|ready| - 1])
  }

  /** The jobs that rounds at the given readings queue; `poll(i)` is what polling gives in round `i`. */
  function JobsQueued<Source, Job>(tick: nat, s: FlatState<Source>, readings: seq<int>, frequency: Source -> nat,
                                   poll: nat -> Source -> seq<Job>): (r: seq<Job>)
    requires 0 < tick && 0 < |s.buckets|
    decreases |readings|
  {
    if readings == [] then []
    else
      var n := |readings| - 1;
      JobsQueued(tick, s, readings[..n], frequency, poll)
        + Jobs(PollStep(tick, PollAfter(tick, s, readings[..n], frequency), readings[n], frequency).1, poll(n))
  }
}
