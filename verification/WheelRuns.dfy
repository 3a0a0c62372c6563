/** Whole runs of the hierarchical wheel against the plain list. */
module WheelRuns {
  import opened Arithmetic
  import opened TickClock
  import opened WheelModel
  import opened WheelMeaning
  import opened WheelCascade
  import opened TimerAgenda
  import opened WheelRefinement

  // ---------- Scheduling ----------

  /** Climbing the sizes finds the wheel, the window and the ticks that the code finds on its wheels. */
  lemma {:induction false} ClimbMatches<T>(ws: seq<Wheel<T>>, w: nat, q: nat, start: nat, left: nat, wrapped: bool)
    requires WellFormed(ws) && w < |ws| && Odometer(ws, w, q)
    ensures var slot := ClimbFrom(Sizes(ws), w, q, ws[w].ticksPerBucket, start, left, wrapped);
      && (slot.wheel, slot.left) == Determine(ws, w, left)
      && slot.start == WindowStart(ws, w, start, slot.wheel)
    decreases |ws| - w
  {
    if !Fits(ws, w, left) {
      var n, b := ws[w].numBuckets, ws[w].ticksPerBucket;
      assert ws[w + 1].ticksPerBucket == ws[w].Capacity() == b * n;
      ClimbMatches(ws, w + 1, q / n, WindowEnd(ws, w, start), SizeSub(left, n * b), wrapped || left < n * b);
    }
  }

  lemma DueTickMatches<T>(ws: seq<Wheel<T>>, now: nat, t: nat)
    requires Inv(ws, now)
    ensures var (w, left) := Determine(ws, 0, t);
      DueTick(Sizes(ws), now, t) == PlacedTick(ws, w, WindowStart(ws, 0, now, w), left)
    ensures now <= DueTick(Sizes(ws), now, t)
  {
    ClimbMatches(ws, 0, now, now, t, false);
    var slot := SlotOf(Sizes(ws), now, t);
    TicksPerBucketIsSpan(ws, slot.wheel);
    assert Sizes(ws)[..|ws|] == Sizes(ws);
    assert now <= WindowStart(ws, 0, now, slot.wheel);
  }

  /** Scheduling adds the timer last among those due at its due tick, and changes nothing else. */
  lemma ScheduleMeaning<T>(ws: seq<Wheel<T>>, now: nat, t: nat, timer: T, due: nat)
    requires Inv(ws, now) && now <= due
    ensures View(Schedule(ws, t, timer), now, due)
         == View(ws, now, due) + (if due == DueTick(Sizes(ws), now, t) then [timer] else [])
  {
    var (w, left) := Determine(ws, 0, t);
    PlaceMeaning(ws, 0, now, w, left, timer, due);
    DueTickMatches(ws, now, t);
  }

  lemma PushOk<T>(wheel: Wheel<T>, left: nat, timer: T)
    requires wheel.WellFormed() && OffsetsBounded(wheel)
    ensures var b, n := wheel.ticksPerBucket, wheel.numBuckets;
      var pushed := wheel.Push((wheel.curr + left / b) % n, Entry(left % b, timer));
      && OffsetsBounded(pushed)
      && (wheel.curr + left / b < n && BehindEmpty(wheel) ==> BehindEmpty(pushed))
  {
    hide OffsetsBounded, BehindEmpty;
    var b, n := wheel.ticksPerBucket, wheel.numBuckets;
    SlotBounds(wheel.curr, left, b, n);
    PushAtOk(wheel, (wheel.curr + left / b) % n, Entry(left % b, timer));
  }

  lemma SlotBounds(c: nat, left: nat, b: nat, n: nat)
    requires 0 < b && 0 < n
    ensures 0 <= left / b && left % b < b && (c + left / b) % n < n
    ensures c + left / b < n ==> (c + left / b) % n == c + left / b
  {
    var j := c + left / b;
    if j < n {
      DivModUnique(j, n, 0, j);
    }
  }

  /** An entry within its bucket keeps offsets bounded; at or past the cursor it leaves nothing behind it. */
  lemma PushAtOk<T>(wheel: Wheel<T>, j: nat, e: Entry<T>)
    requires wheel.WellFormed() && OffsetsBounded(wheel) && j < wheel.numBuckets && e.offset < wheel.ticksPerBucket
    ensures OffsetsBounded(wheel.Push(j, e))
    ensures wheel.curr <= j && BehindEmpty(wheel) ==> BehindEmpty(wheel.Push(j, e))
  {
  }

  lemma ScheduleOk<T>(ws: seq<Wheel<T>>, now: nat, t: nat, timer: T)
    requires Inv(ws, now)
    ensures Inv(Schedule(ws, t, timer), now)
  {
    var (w, left) := Determine(ws, 0, t);
    var vs := Schedule(ws, t, timer);
    OdometerFramed(ws, vs, 0, now);
    assert WheelOk(ws, w);
    PushOk(ws[w], left, timer);
    assert WheelOk(vs, w);
    forall i | 0 <= i < |vs| && i != w ensures WheelOk(vs, i) {
      assert WheelOk(ws, i) && vs[i] == ws[i];
    }
  }

  // ---------- Refinement ----------

  /** The wheels and the list hold the same timers at every due tick, in the same order. */
  ghost predicate Refines<T>(ws: seq<Wheel<T>>, now: nat, pending: seq<(nat, T)>) {
    && Inv(ws, now)
    && ValidSizes(Sizes(ws))
    && (forall i :: 0 <= i < |pending| ==> now <= pending[i].0)
    && (forall due {:trigger View(ws, now, due)} :: now <= due ==> View(ws, now, due) == DueTimers(pending, due))
  }

  lemma RefinesSchedule<T>(ws: seq<Wheel<T>>, now: nat, pending: seq<(nat, T)>, t: nat, timer: T)
    requires Refines(ws, now, pending)
    ensures Refines(Schedule(ws, t, timer), now, pending + [(DueTick(Sizes(ws), now, t), timer)])
  {
    var vs, p := Schedule(ws, t, timer), (DueTick(Sizes(ws), now, t), timer);
    ScheduleOk(ws, now, t, timer);
    SizesSame(ws, vs);
    DueTickMatches(ws, now, t);
    forall due | now <= due ensures View(vs, now, due) == DueTimers(pending + [p], due) {
      ScheduleMeaning(ws, now, t, timer, due);
      DueTimersPush(pending, p, due);
    }
  }

  lemma RefinesTick<T>(ws: seq<Wheel<T>>, now: nat, pending: seq<(nat, T)>)
    requires Refines(ws, now, pending)
    ensures Tick(ws).1 == DueTimers(pending, now)
    ensures Refines(Tick(ws).0, now + 1, NotBefore(pending, now + 1))
  {
    var vs, next := Tick(ws).0, now + 1;
    BoundedByTotal(ws);
    TickOk(ws, now);
    TickFires(ws, now);
    SizesSame(ws, vs);
    forall due | next <= due ensures View(vs, next, due) == DueTimers(NotBefore(pending, next), due) {
      TickMeaning(ws, now, due);
      NotBeforeKeeps(pending, next, due);
    }
  }

  /** The same with the list as it was before any tick. */
  lemma RefinesNextTick<T>(ws: seq<Wheel<T>>, mid: nat, next: nat, pending: seq<(nat, T)>)
    requires next == mid + 1 && Refines(ws, mid, NotBefore(pending, mid))
    ensures Tick(ws).1 == DueTimers(pending, mid)
    ensures Refines(Tick(ws).0, next, NotBefore(pending, next))
  {
    RefinesTick(ws, mid, NotBefore(pending, mid));
    NotBeforeKeeps(pending, mid, mid);
    NotBeforeTwice(pending, mid, next);
  }

  lemma RefinesWellFormed<T>(ws: seq<Wheel<T>>, now: nat, pending: seq<(nat, T)>)
    requires Refines(ws, now, pending)
    ensures WheelModel.WellFormed(ws)
  {
  }

  lemma RefinesNoTick<T>(ws: seq<Wheel<T>>, now: nat, pending: seq<(nat, T)>)
    requires Refines(ws, now, pending)
    ensures TickMany(ws, 0).1 == DueWithin(pending, now, 0)
    ensures Refines(TickMany(ws, 0).0, now, NotBefore(pending, now))
  {
    NotBeforeAll(pending, now);
  }

  /** One tick more, after k - 1. */
  lemma RefinesOneMore<T>(ws: seq<Wheel<T>>, now: nat, pending: seq<(nat, T)>, k: nat, last: nat, end: nat)
    requires WheelModel.WellFormed(ws) && 0 < k && last == now + (k - 1) && end == last + 1
    requires TickMany(ws, k - 1).1 == DueWithin(pending, now, k - 1)
    requires Refines(TickMany(ws, k - 1).0, last, NotBefore(pending, last))
    ensures TickMany(ws, k).1 == DueWithin(pending, now, k)
    ensures Refines(TickMany(ws, k).0, end, NotBefore(pending, end))
  {
    RefinesNextTick(TickMany(ws, k - 1).0, last, end, pending);
    hide Refines, NotBefore;
    TickManySplit(ws, now, pending, k, last);
  }

  /**
   * Advancing k ticks returns exactly the timers due in [now, now + k), by due tick and then in the
   * order they were scheduled, and leaves exactly the later ones.
   */
  lemma {:induction false} RefinesTickMany<T>(ws: seq<Wheel<T>>, now: nat, pending: seq<(nat, T)>, k: nat, end: nat)
    requires Refines(ws, now, pending) && end == now + k
    ensures TickMany(ws, k).1 == DueWithin(pending, now, k)
    ensures Refines(TickMany(ws, k).0, end, NotBefore(pending, end))
    decreases k
  {
    hide Refines, WheelModel.WellFormed;
    RefinesWellFormed(ws, now, pending);
    if k == 0 {
      RefinesNoTick(ws, now, pending);
    } else {
      RefinesTickMany(ws, now, pending, k - 1, end - 1);
      RefinesOneMore(ws, now, pending, k, end - 1, end);
    }
  }

  lemma TickManySplit<T>(ws: seq<Wheel<T>>, now: nat, pending: seq<(nat, T)>, k: nat, last: nat)
    requires WellFormed(ws) && 0 < k && last == now + (k - 1)
    requires TickMany(ws, k - 1).1 == DueWithin(pending, now, k - 1)
    requires Tick(TickMany(ws, k - 1).0).1 == DueTimers(pending, last)
    ensures TickMany(ws, k).0 == Tick(TickMany(ws, k - 1).0).0
    ensures TickMany(ws, k).1 == DueWithin(pending, now, k)
  {
  }

  lemma {:induction false} NotBeforeAll<T>(pending: seq<(nat, T)>, now: nat)
    requires forall i :: 0 <= i < |pending| ==> now <= pending[i].0
    ensures NotBefore(pending, now) == pending
    decreases |pending|
  {
    if pending != [] {
      var low, last := pending[..|pending| - 1], pending[|pending| - 1];
      NotBeforeAll(low, now);
      assert low + [last] == pending;
    }
  }

  lemma {:induction false} NotBeforeTwice<T>(pending: seq<(nat, T)>, now: nat, later: nat)
    requires now <= later
    ensures NotBefore(NotBefore(pending, now), later) == NotBefore(pending, later)
    decreases |pending|
  {
    if pending != [] {
      var low, last := pending[..|pending| - 1], pending[|pending| - 1];
      NotBeforeTwice(low, now, later);
      var kept := NotBefore(low, now);
      if now <= last.0 {
        assert (kept + [last])[..|kept|] == kept;
      } else {
        assert NotBefore(pending, now) == kept;
        assert NotBefore(pending, later) == NotBefore(low, later);
      }
    }
  }

  lemma {:induction false} FreshView<T>(ws: seq<Wheel<T>>, w: nat, start: nat, due: nat)
    requires WellFormed(ws) && w <= |ws| && start <= due
    requires forall i :: 0 <= i < |ws| ==> ws[i].IsEmpty()
    ensures ViewFrom(ws, w, start, due) == []
    decreases |ws| - w
  {
    if w < |ws| && due >= WindowEnd(ws, w, start) {
      FreshView(ws, w + 1, WindowEnd(ws, w, start), due);
    }
  }

  /** A newly built hierarchy refines the empty list at tick zero. */
  lemma RefinesInitially<T>(sizes: seq<nat>)
    requires ValidSizes(sizes)
    ensures Refines<T>(NewWheels(sizes), 0, []) && Sizes<T>(NewWheels(sizes)) == sizes
  {
    var ws := NewWheels<T>(sizes);
    NewWheelsWellFormed<T>(sizes);
    forall w | 0 <= w < |ws|
      ensures ws[w].IsEmpty() && ws[w].curr == 0 && WheelOk(ws, w) && ws[w].numBuckets == sizes[w]
    {
      NewWheelAt<T>(sizes, w);
    }
    FreshOdometer(ws, 0);
    assert Sizes(ws) == sizes;
    forall due: nat ensures View(ws, 0, due) == DueTimers<T>([], due) {
      FreshView(ws, 0, 0, due);
    }
  }

  // ---------- Runs ----------

  /** One call on a wheel: a schedule with its delay, or an advance with the clock reading it sees. */
  datatype Op<T> = ScheduleOp(delay: nat, timer: T) | AdvanceOp(now: int)

  datatype WheelState<T> = WheelState(last: int, wheels: seq<Wheel<T>>)

  datatype AgendaState<T> = AgendaState(last: int, ticks: nat, pending: seq<(nat, T)>)

  function WheelStep<T>(tick: nat, s: WheelState<T>, op: Op<T>): (r: (WheelState<T>, seq<T>))
    requires 0 < tick && WellFormed(s.wheels)
    ensures WellFormed(r.0.wheels) && SameSizes(s.wheels, r.0.wheels)
  {
    match op
    case ScheduleOp(delay, timer) => (s.(wheels := Schedule(s.wheels, delay / tick, timer)), [])
    case AdvanceOp(now) =>
      var (wheels, fired) := TickMany(s.wheels, ElapsedTicks(tick, s.last, now));
      (WheelState(NextLast(tick, s.last, now), wheels), fired)
  }

  function AgendaStep<T>(sizes: seq<nat>, tick: nat, a: AgendaState<T>, op: Op<T>): (r: (AgendaState<T>, seq<T>))
    requires 0 < tick && 0 < |sizes| && forall i :: 0 <= i < |sizes| ==> 0 < sizes[i]
  {
    match op
    case ScheduleOp(delay, timer) =>
      (a.(pending := a.pending + [(DueTick(sizes, a.ticks, delay / tick), timer)]), [])
    case AdvanceOp(now) =>
      var k := ElapsedTicks(tick, a.last, now);
      (AgendaState(NextLast(tick, a.last, now), a.ticks + k, NotBefore(a.pending, a.ticks + k)),
       DueWithin(a.pending, a.ticks, k))
  }

  /** The lists of timers a run of calls returns. */
  function WheelRun<T>(tick: nat, s: WheelState<T>, ops: seq<Op<T>>): (r: seq<seq<T>>)
    requires 0 < tick && WellFormed(s.wheels)
    decreases |ops|
  {
    if ops == [] then []
    else
      var (s', fired) := WheelStep(tick, s, ops[0]);
      [fired] + WheelRun(tick, s', ops[1..])
  }

  function AgendaRun<T>(sizes: seq<nat>, tick: nat, a: AgendaState<T>, ops: seq<Op<T>>): (r: seq<seq<T>>)
    requires 0 < tick && 0 < |sizes| && forall i :: 0 <= i < |sizes| ==> 0 < sizes[i]
    decreases |ops|
  {
    if ops == [] then []
    else
      var (a', fired) := AgendaStep(sizes, tick, a, ops[0]);
      [fired] + AgendaRun(sizes, tick, a', ops[1..])
  }

  ghost predicate StateRefines<T>(sizes: seq<nat>, s: WheelState<T>, a: AgendaState<T>) {
    Refines(s.wheels, a.ticks, a.pending) && s.last == a.last && Sizes(s.wheels) == sizes
  }

  lemma StepRefines<T>(sizes: seq<nat>, tick: nat, s: WheelState<T>, a: AgendaState<T>, op: Op<T>)
    requires 0 < tick && StateRefines(sizes, s, a)
    ensures StateRefines(sizes, WheelStep(tick, s, op).0, AgendaStep(sizes, tick, a, op).0)
    ensures WheelStep(tick, s, op).1 == AgendaStep(sizes, tick, a, op).1
  {
    hide View, Odometer, OkFrom, WheelModel.WellFormed;
    match op
    case ScheduleOp(delay, timer) =>
      RefinesSchedule(s.wheels, a.ticks, a.pending, delay / tick, timer);
      SizesSame(s.wheels, WheelStep(tick, s, op).0.wheels);
    case AdvanceOp(now) =>
      var k := ElapsedTicks(tick, s.last, now);
      RefinesTickMany(s.wheels, a.ticks, a.pending, k, a.ticks + k);
      SizesSame(s.wheels, WheelStep(tick, s, op).0.wheels);
  }

  lemma {:induction false} RunRefines<T>(sizes: seq<nat>, tick: nat, s: WheelState<T>, a: AgendaState<T>, ops: seq<Op<T>>)
    requires 0 < tick && StateRefines(sizes, s, a)
    ensures WheelRun(tick, s, ops) == AgendaRun(sizes, tick, a, ops)
    decreases |ops|
  {
    if ops != [] {
      StepRefines(sizes, tick, s, a, ops[0]);
      RunRefines(sizes, tick, WheelStep(tick, s, ops[0]).0, AgendaStep(sizes, tick, a, ops[0]).0, ops[1..]);
    }
  }

  /** Every run of a new hierarchical wheel returns what the plain list returns. */
  lemma HierarchyRefinesList<T>(sizes: seq<nat>, tick: nat, created: int, ops: seq<Op<T>>)
    requires 0 < tick && ValidSizes(sizes)
    ensures WellFormed(NewWheels<T>(sizes))
    ensures WheelRun(tick, WheelState(created, NewWheels<T>(sizes)), ops)
         == AgendaRun(sizes, tick, AgendaState(created, 0, []), ops)
  {
    NewWheelsWellFormed<T>(sizes);
    RefinesInitially<T>(sizes);
    RunRefines(sizes, tick, WheelState(created, NewWheels<T>(sizes)), AgendaState(created, 0, []), ops);
  }
}
