/** The flat timing wheel as a value, and why it behaves as a hierarchy of one wheel. */
module FlatWheelModel {
  import opened Arithmetic
  import opened TickClock
  import opened WheelModel
  import opened WheelRuns
  import TimerAgenda
  import WheelRefinement

  /** `index` grows without being reduced by the number of buckets. */
  datatype FlatState<T> = FlatState(last: int, index: nat, buckets: seq<seq<T>>)

  function FlatSchedule<T>(buckets: seq<seq<T>>, index: nat, t: nat, timer: T): (r: seq<seq<T>>)
    requires 0 < |buckets|
    ensures |r| == |buckets|
  {
    var j := (index + t) % |buckets|;
    buckets[j := buckets[j] + [timer]]
  }

  /** Reads and clears the buckets of `k` ticks from `index` on. */
  function FlatDrain<T>(buckets: seq<seq<T>>, index: nat, k: nat): (r: (seq<seq<T>>, seq<T>))
    requires 0 < |buckets|
    ensures |r.0| == |buckets|
  {
    if k == 0 then (buckets, [])
    else
      var (bs, before) := FlatDrain(buckets, index, k - 1);
      var j := (index + (k - 1)) % |buckets|;
      (bs[j := []], before + bs[j])
  }

  function FlatStep<T>(tick: nat, s: FlatState<T>, op: Op<T>): (r: (FlatState<T>, seq<T>))
    requires 0 < tick && 0 < |s.buckets|
    ensures |r.0.buckets| == |s.buckets|
  {
    match op
    case ScheduleOp(delay, timer) => (s.(buckets := FlatSchedule(s.buckets, s.index, delay / tick, timer)), [])
    case AdvanceOp(now) =>
      var k := ElapsedTicks(tick, s.last, now);
      var (buckets, fired) := FlatDrain(s.buckets, s.index, k);
      (FlatState(NextLast(tick, s.last, now), s.index + k, buckets), fired)
  }

  function FlatRun<T>(tick: nat, s: FlatState<T>, ops: seq<Op<T>>): (r: seq<seq<T>>)
    requires 0 < tick && 0 < |s.buckets|
    decreases |ops|
  {
    if ops == [] then []
    else
      var (s', fired) := FlatStep(tick, s, ops[0]);
      [fired] + FlatRun(tick, s', ops[1..])
  }

  // ---------- Bisimulation with a hierarchy of one wheel ----------

  /** Same buckets, and the cursor of the one wheel is the flat index reduced by their number. */
  ghost predicate SameBuckets<T>(ws: seq<Wheel<T>>, buckets: seq<seq<T>>, index: nat) {
    && WellFormed(ws)
    && |ws| == 1
    && ws[0].numBuckets == |buckets|
    && ws[0].curr == index % |buckets|
    && (forall j :: 0 <= j < |buckets| ==> Timers(ws[0].buckets[j]) == buckets[j])
  }

  lemma SameAfterSchedule<T>(ws: seq<Wheel<T>>, buckets: seq<seq<T>>, index: nat, t: nat, timer: T)
    requires SameBuckets(ws, buckets, index)
    ensures SameBuckets(Schedule(ws, t, timer), FlatSchedule(buckets, index, t, timer), index)
  {
    assert Determine(ws, 0, t) == (0, t);
    DivModUnique(t, 1, t, 0);
    ModAdd(index, t, |buckets|);
    var j := (index + t) % |buckets|;
    assert Schedule(ws, t, timer)[0] == ws[0].Push(j, Entry(0, timer));
    assert Timers(ws[0].buckets[j] + [Entry(0, timer)]) == Timers(ws[0].buckets[j]) + [timer];
  }

  lemma SameAfterTick<T>(ws: seq<Wheel<T>>, buckets: seq<seq<T>>, index: nat)
    requires SameBuckets(ws, buckets, index)
    ensures var j := index % |buckets|;
      SameBuckets(Tick(ws).0, buckets[j := []], index + 1) && Tick(ws).1 == buckets[j]
  {
    DivModSuccessor(index, |buckets|);
    assert Tick(ws).0 == [ws[0].Step()];
    assert Timers<T>([]) == [];
  }

  lemma {:induction false} SameAfterTicks<T>(ws: seq<Wheel<T>>, buckets: seq<seq<T>>, index: nat, k: nat, end: nat)
    requires SameBuckets(ws, buckets, index) && end == index + k
    ensures SameBuckets(TickMany(ws, k).0, FlatDrain(buckets, index, k).0, end)
    ensures TickMany(ws, k).1 == FlatDrain(buckets, index, k).1
    decreases k
  {
    if k > 0 {
      SameAfterTicks(ws, buckets, index, k - 1, end - 1);
      SameAfterTick(TickMany(ws, k - 1).0, FlatDrain(buckets, index, k - 1).0, end - 1);
      TickManyStep(ws, k);
      assert index + (k - 1) == end - 1;
    }
  }

  ghost predicate Bisimilar<T>(s: WheelState<T>, f: FlatState<T>) {
    SameBuckets(s.wheels, f.buckets, f.index) && s.last == f.last
  }

  lemma StepBisimilar<T>(tick: nat, s: WheelState<T>, f: FlatState<T>, op: Op<T>)
    requires 0 < tick && Bisimilar(s, f)
    ensures Bisimilar(WheelStep(tick, s, op).0, FlatStep(tick, f, op).0)
    ensures WheelStep(tick, s, op).1 == FlatStep(tick, f, op).1
  {
    match op
    case ScheduleOp(delay, timer) => SameAfterSchedule(s.wheels, f.buckets, f.index, delay / tick, timer);
    case AdvanceOp(now) =>
      var k := ElapsedTicks(tick, s.last, now);
      SameAfterTicks(s.wheels, f.buckets, f.index, k, f.index + k);
  }

  lemma {:induction false} RunBisimilar<T>(tick: nat, s: WheelState<T>, f: FlatState<T>, ops: seq<Op<T>>)
    requires 0 < tick && Bisimilar(s, f)
    ensures WheelRun(tick, s, ops) == FlatRun(tick, f, ops)
    decreases |ops|
  {
    if ops != [] {
      StepBisimilar(tick, s, f, ops[0]);
      RunBisimilar(tick, WheelStep(tick, s, ops[0]).0, FlatStep(tick, f, ops[0]).0, ops[1..]);
    }
  }

  function EmptyBuckets<T>(n: nat): (r: seq<seq<T>>) {
    seq(n, i => [])
  }

  /** A new flat wheel of `n` ticks returns what a one-level hierarchy of size `n` and the plain list return. */
  lemma FlatWheelRefinesList<T>(n: nat, tick: nat, created: int, ops: seq<Op<T>>)
    requires 0 < tick && 0 < n <= HALF_SIZE_MODULUS
    ensures WellFormed(NewWheels<T>([n]))
    ensures FlatRun(tick, FlatState(created, 0, EmptyBuckets<T>(n)), ops)
         == WheelRun(tick, WheelState(created, NewWheels<T>([n])), ops)
         == AgendaRun([n], tick, AgendaState(created, 0, []), ops)
  {
    OneSize(n);
    HierarchyRefinesList([n], tick, created, ops);
    var ws := NewWheels<T>([n]);
    NewWheelAt<T>([n], 0);
    DivModUnique(0, n, 0, 0);
    assert Timers<T>([]) == [];
    RunBisimilar(tick, WheelState(created, ws), FlatState(created, 0, EmptyBuckets<T>(n)), ops);
  }

  lemma OneSize(n: nat)
    requires 0 < n <= HALF_SIZE_MODULUS
    ensures ValidSizes([n]) && Span([n]) == n
  {
    var sizes: seq<nat> := [n];
    assert sizes[..0] == [];
    assert Span(sizes) == Span(sizes[..0]) * n;
  }

  /** On a flat wheel of `n` ticks, a delay of `t` ticks is due `t mod n` ticks on; on time exactly when t < n. */
  lemma FlatDueTick(n: nat, now: nat, t: nat)
    requires 0 < n <= HALF_SIZE_MODULUS
    ensures TimerAgenda.DueTick([n], now, t) == now + t % n
    ensures TimerAgenda.DueTick([n], now, t) == now + t <==> t < n
  {
    OneSize(n);
    assert TimerAgenda.SlotOf([n], now, t) == TimerAgenda.Slot(0, now, t, false);
    if t < n {
      DivModUnique(t, n, 0, t);
    }
  }

  // ---------- Conservation ----------

  ghost function AllTimers<T>(buckets: seq<seq<T>>): (r: multiset<T>)
    decreases |buckets|
  {
    if buckets == [] then multiset{}
    else AllTimers(buckets[..|buckets| - 1]) + multiset(buckets[|buckets| - 1])
  }

  lemma AddToBoth<T>(a: multiset<T>, b: multiset<T>, c: multiset<T>, d: multiset<T>, m: multiset<T>)
    requires a + b == c + d
    ensures a + m + b == c + m + d
  {
    assert a + m + b == a + b + m;
    assert c + m + d == c + d + m;
  }

  lemma Cancel<T>(a: multiset<T>, b: multiset<T>, c: multiset<T>)
    requires a + b == c + b
    ensures a == c
  {
    assert a == a + b - b;
    assert c == c + b - b;
  }

  lemma {:induction false} AllTimersUpdate<T>(buckets: seq<seq<T>>, j: nat, bucket: seq<T>)
    requires j < |buckets|
    ensures AllTimers(buckets[j := bucket]) + multiset(buckets[j]) == AllTimers(buckets) + multiset(bucket)
    decreases |buckets|
  {
    var low, last, updated := buckets[..|buckets| - 1], buckets[|buckets| - 1], buckets[j := bucket];
    if j < |low| {
      AllTimersUpdate(low, j, bucket);
      assert updated[..|low|] == low[j := bucket];
      AddToBoth(AllTimers(low[j := bucket]), multiset(buckets[j]), AllTimers(low), multiset(bucket), multiset(last));
    } else {
      assert updated[..|low|] == low;
    }
  }

  /** Scheduling holds one timer more. */
  lemma FlatScheduleConserves<T>(buckets: seq<seq<T>>, index: nat, t: nat, timer: T)
    requires 0 < |buckets|
    ensures AllTimers(FlatSchedule(buckets, index, t, timer)) == AllTimers(buckets) + multiset{timer}
  {
    var j := (index + t) % |buckets|;
    var bucket, after := buckets[j], AllTimers(FlatSchedule(buckets, index, t, timer));
    AllTimersUpdate(buckets, j, bucket + [timer]);
    hide *;
    assert multiset(bucket + [timer]) == multiset(bucket) + multiset{timer};
    AddToBoth(AllTimers(buckets), multiset{timer}, AllTimers(buckets), multiset{timer}, multiset(bucket));
    assert after + multiset(bucket) == (AllTimers(buckets) + multiset{timer}) + multiset(bucket);
    Cancel(after, multiset(bucket), AllTimers(buckets) + multiset{timer});
  }

  /** Draining returns or keeps every timer, each as often as it was held. */
  lemma {:induction false} FlatDrainConserves<T>(buckets: seq<seq<T>>, index: nat, k: nat)
    requires 0 < |buckets|
    ensures AllTimers(buckets) == AllTimers(FlatDrain(buckets, index, k).0) + multiset(FlatDrain(buckets, index, k).1)
    decreases k
  {
    if k > 0 {
      FlatDrainConserves(buckets, index, k - 1);
      var (bs, before) := FlatDrain(buckets, index, k - 1);
      var j := (index + (k - 1)) % |buckets|;
      AllTimersUpdate(bs, j, []);
      assert FlatDrain(buckets, index, k) == (bs[j := []], before + bs[j]);
      TakenOut(AllTimers(bs[j := []]), bs[j], AllTimers(bs), before);
    }
  }

  /** What leaves a bucket joins what was returned before. */
  lemma TakenOut<T>(left: multiset<T>, bucket: seq<T>, held: multiset<T>, before: seq<T>)
    requires left + multiset(bucket) == held + multiset([])
    ensures held + multiset(before) == left + multiset(before + bucket)
  {
    assert multiset(before + bucket) == multiset(before) + multiset(bucket);
    assert held == held + multiset([]);
  }
}
