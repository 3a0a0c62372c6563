/** The hierarchical timing wheel as the source has it: an object whose methods update its wheels in place. */
module HierarchicalTimingWheels {
  import opened Arithmetic
  import opened TickClock
  import opened WheelModel
  import opened WheelRefinement
  import opened WheelRuns
  import opened TimerAgenda

  class HierarchicalTimingWheel<T> {
    const tickSize: nat
    var lastAdvancementTime: int
    var wheels: seq<Wheel<T>>

    // The list view: the sizes, the bottom ticks processed, and every timer not yet returned with its due tick.
    ghost const sizes: seq<nat>
    ghost var ticks: nat
    ghost var pending: seq<(nat, T)>

    ghost function Agenda(): (a: AgendaState<T>)
      reads this
    {
      AgendaState(lastAdvancementTime, ticks, pending)
    }

    /** The wheels refine the list. */
    ghost predicate Valid()
      reads this
    {
      0 < tickSize && ValidSizes(sizes) && StateRefines(sizes, State(), Agenda())
    }

    ghost predicate WheelsValid()
      reads this
    {
      0 < tickSize && WellFormed(wheels)
    }

    /** The state the step functions of the model speak about. */
    function State(): (s: WheelState<T>)
      reads this
    {
      WheelState(lastAdvancementTime, wheels)
    }

    constructor (tickSize: nat, wheelSizes: seq<nat>, now: int)
      requires 0 < tickSize && ValidSizes(wheelSizes)
      ensures Valid() && this.tickSize == tickSize
      ensures State() == WheelState(now, NewWheels(wheelSizes))
      ensures Agenda() == AgendaState(now, 0, []) && sizes == wheelSizes
    {
      this.tickSize := tickSize;
      lastAdvancementTime := now;
      sizes, ticks, pending := wheelSizes, 0, [];
      var made: seq<Wheel<T>> := [];
      var totalTicksInLastWheel := 1;
      for i := 0 to |wheelSizes|
        invariant totalTicksInLastWheel == Span(wheelSizes[..i])
        invariant made == NewWheels<T>(wheelSizes)[..i]
      {
        SpanPrefix(wheelSizes, i);
        made := made + [EmptyWheel(wheelSizes[i], totalTicksInLastWheel)];
        totalTicksInLastWheel := totalTicksInLastWheel * wheelSizes[i];
      }
      wheels := made;
      NewWheelsWellFormed<T>(wheelSizes);
      RefinesInitially<T>(wheelSizes);
      assert NewWheels<T>(wheelSizes)[..|wheelSizes|] == NewWheels<T>(wheelSizes);
    }

    /** Walks up until the delay fits; the result is the one the model's `Determine` gives. */
    method DetermineTimerWheel(ticks: nat) returns (wheel: nat, ticksToFit: nat)
      requires WheelsValid()
      ensures (wheel, ticksToFit) == Determine(wheels, 0, ticks)
      ensures wheel < |wheels|
    {
      wheel, ticksToFit := 0, ticks;
      while !(wheel == |wheels| - 1
              || wheels[wheel].curr + ticksToFit / wheels[wheel].ticksPerBucket < wheels[wheel].numBuckets)
        invariant wheel < |wheels|
        invariant Determine(wheels, wheel, ticksToFit) == Determine(wheels, 0, ticks)
        decreases |wheels| - wheel
      {
        ticksToFit := SizeSub(ticksToFit, wheels[wheel].numBuckets * wheels[wheel].ticksPerBucket);
        wheel := wheel + 1;
      }
    }

    /** Schedules a timer; in the list, it is appended at its due tick. */
    method Schedule(durationFromLastAdvancement: nat, timer: T)
      requires Valid()
      modifies this`wheels, this`pending
      ensures Valid()
      ensures State() == WheelStep(tickSize, old(State()), ScheduleOp(durationFromLastAdvancement, timer)).0
      ensures Agenda() == AgendaStep(sizes, tickSize, old(Agenda()), ScheduleOp(durationFromLastAdvancement, timer)).0
    {
      StepRefines(sizes, tickSize, State(), Agenda(), ScheduleOp(durationFromLastAdvancement, timer));
      hide StateRefines;
      var ticksToFit := durationFromLastAdvancement / tickSize;
      var w, ticksLeft := DetermineTimerWheel(ticksToFit);
      var wheel := wheels[w];
      var timerBucketIndex := (wheel.curr + ticksLeft / wheel.ticksPerBucket) % wheel.numBuckets;
      var tickOffsetIntoBucket := ticksLeft % wheel.ticksPerBucket;
      wheels := wheels[w := wheel.Push(timerBucketIndex, Entry(tickOffsetIntoBucket, timer))];
      pending := pending + [(DueTick(sizes, ticks, ticksToFit), timer)];
    }

    /** Cascades the current bucket of a wheel into the one below, and further up on each wrap. */
    method LoadTimersFromWheel(wheelNum: nat)
      requires WheelsValid()
      modifies this`wheels
      ensures WheelsValid() && wheels == Load(old(wheels), wheelNum)
      decreases |wheels| - wheelNum
    {
      if wheelNum >= |wheels| || wheelNum == 0 {
        return;
      }
      var moving := wheels[wheelNum].buckets[wheels[wheelNum].curr];
      var below := wheels[wheelNum - 1];
      for i := 0 to |moving|
        invariant below == PlaceAllBelow(old(wheels)[wheelNum - 1], moving[..i])
      {
        assert moving[..i + 1][..i] == moving[..i];
        var bucketIndex := (below.curr + moving[i].offset / below.ticksPerBucket) % below.numBuckets;
        var newOffset := SizeSub(moving[i].offset, bucketIndex * below.ticksPerBucket);
        below := below.Push(bucketIndex, Entry(newOffset, moving[i].timer));
      }
      assert moving[..|moving|] == moving;
      wheels := wheels[wheelNum - 1 := below][wheelNum := wheels[wheelNum].Step()];
      assert wheels == LoadOne(old(wheels), wheelNum);
      if wheels[wheelNum].curr == 0 {
        LoadTimersFromWheel(wheelNum + 1);
      }
    }

    /** Drains the bottom bucket, steps the cursor and cascades on a wrap. */
    method AdvanceOneTick(resolved: seq<T>) returns (r: seq<T>)
      requires WheelsValid()
      modifies this`wheels
      ensures WheelsValid() && wheels == Tick(old(wheels)).0
      ensures r == resolved + Tick(old(wheels)).1
    {
      var bucket := wheels[0].buckets[wheels[0].curr];
      r := resolved;
      for i := 0 to |bucket|
        invariant r == resolved + Timers(bucket)[..i]
      {
        r := r + [bucket[i].timer];
      }
      assert Timers(bucket)[..|bucket|] == Timers(bucket);
      wheels := wheels[0 := wheels[0].Step()];
      if wheels[0].curr == 0 {
        LoadTimersFromWheel(1);
      }
    }

    /** The loop of an advance: reads and clears one bottom bucket per completed tick. */
    method AdvanceTicks(completed: nat) returns (resolved: seq<T>)
      requires WheelsValid()
      modifies this`wheels
      ensures WheelsValid() && (wheels, resolved) == TickMany(old(wheels), completed)
    {
      resolved := [];
      for i := 0 to completed
        invariant WheelsValid()
        invariant (wheels, resolved) == TickMany(old(wheels), i)
      {
        TickManyStep(old(wheels), i + 1);
        resolved := AdvanceOneTick(resolved);
      }
    }

    /**
     * Advances to the clock reading `now`: returns the timers of the list that are due within the elapsed
     * ticks, by due tick and then in scheduling order, and keeps the later ones.
     */
    method Advance(now: int) returns (resolved: seq<T>)
      requires Valid()
      modifies this`wheels, this`lastAdvancementTime, this`ticks, this`pending
      ensures Valid()
      ensures (State(), resolved) == WheelStep(tickSize, old(State()), AdvanceOp(now))
      ensures (Agenda(), resolved) == AgendaStep(sizes, tickSize, old(Agenda()), AdvanceOp(now))
      ensures if now - old(lastAdvancementTime) < tickSize
              then resolved == [] && State() == old(State()) && Agenda() == old(Agenda())
              else lastAdvancementTime == now
    {
      StepRefines(sizes, tickSize, State(), Agenda(), AdvanceOp(now));
      NotBeforeAll(pending, ticks);
      assert WheelsValid();
      hide StateRefines, WellFormed;
      ghost var next := AgendaStep(sizes, tickSize, Agenda(), AdvanceOp(now)).0;
      if now - lastAdvancementTime < tickSize {
        resolved := [];
      } else {
        resolved := AdvanceTicks((now - lastAdvancementTime) / tickSize);
        lastAdvancementTime := now;
      }
      ticks, pending := next.ticks, next.pending;
    }
  }
}
