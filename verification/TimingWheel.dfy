/** The flat timing wheel object, and the poll loop that runs on it. */
module TimingWheels {
  import opened Arithmetic
  import opened TickClock
  import opened FlatWheelModel
  import opened PollModel
  import opened WheelRuns

  /** A duration lies within the tick that its quotient names. */
  lemma TickContains(elapsed: nat, tick: nat)
    requires 0 < tick
    ensures elapsed / tick * tick <= elapsed < (elapsed / tick + 1) * tick
  {
    assert elapsed == elapsed / tick * tick + elapsed % tick;
  }

  /** And within no other. */
  lemma OnlyTick(elapsed: nat, tick: nat, k: nat)
    requires 0 < tick && k * tick <= elapsed < (k + 1) * tick
    ensures k == elapsed / tick
  {
    DivModUnique(elapsed, tick, k, elapsed - k * tick);
  }

  class TimingWheel<T> {
    const wheel: array<seq<T>>
    const wheelTickSize: nat
    var lastAdvancementTime: int
    var currentWheelIndex: nat

    ghost predicate Valid()
      reads this
    {
      0 < wheelTickSize && 0 < wheel.Length
    }

    ghost function State(): (s: FlatState<T>)
      reads this, wheel
    {
      FlatState(lastAdvancementTime, currentWheelIndex, wheel[..])
    }

    constructor (wheelTickSize: nat, numTicks: nat, now: int)
      requires 0 < wheelTickSize && 0 < numTicks
      ensures Valid() && fresh(wheel)
      ensures this.wheelTickSize == wheelTickSize && State() == FlatState(now, 0, EmptyBuckets(numTicks))
    {
      this.wheelTickSize := wheelTickSize;
      wheel := new seq<T>[numTicks](i => []);
      lastAdvancementTime, currentWheelIndex := now, 0;
      new;
      assert wheel[..] == EmptyBuckets(numTicks);
    }

    /** The bucket a time falls into, not yet reduced by the number of buckets: the one whose tick contains it. */
    method NonWrappedWheelIndex(time: int) returns (index: nat)
      requires Valid() && lastAdvancementTime <= time
      ensures currentWheelIndex <= index
      ensures (index - currentWheelIndex) * wheelTickSize <= time - lastAdvancementTime
      ensures time - lastAdvancementTime < (index - currentWheelIndex + 1) * wheelTickSize
    {
      var elapsed := time - lastAdvancementTime;
      index := currentWheelIndex + elapsed / wheelTickSize;
      TickContains(elapsed, wheelTickSize);
    }

    method Schedule(durationFromLastAdvancement: nat, timer: T)
      requires Valid()
      modifies wheel
      ensures State() == FlatStep(wheelTickSize, old(State()), ScheduleOp(durationFromLastAdvancement, timer)).0
      ensures AllTimers(wheel[..]) == old(AllTimers(wheel[..])) + multiset{timer}
    {
      FlatScheduleConserves(wheel[..], currentWheelIndex, durationFromLastAdvancement / wheelTickSize, timer);
      var index := NonWrappedWheelIndex(lastAdvancementTime + durationFromLastAdvancement);
      OnlyTick(durationFromLastAdvancement, wheelTickSize, index - currentWheelIndex);
      var timeBucket := index % wheel.Length;
      wheel[timeBucket] := wheel[timeBucket] + [timer];
    }

    method Advance(now: int) returns (resolved: seq<T>)
      requires Valid()
      modifies this`lastAdvancementTime, this`currentWheelIndex, wheel
      ensures (State(), resolved) == FlatStep(wheelTickSize, old(State()), AdvanceOp(now))
      ensures if now - old(lastAdvancementTime) < wheelTickSize then resolved == [] && State() == old(State())
              else lastAdvancementTime == now
      ensures old(AllTimers(wheel[..])) == AllTimers(wheel[..]) + multiset(resolved)
    {
      hide AllTimers;
      FlatDrainConserves(wheel[..], currentWheelIndex, ElapsedTicks(wheelTickSize, lastAdvancementTime, now));
      resolved := [];
      if now - lastAdvancementTime < wheelTickSize {
        return;
      }
      var end := NonWrappedWheelIndex(now);
      OnlyTick(now - lastAdvancementTime, wheelTickSize, end - currentWheelIndex);
      for i := currentWheelIndex to end
        invariant lastAdvancementTime == old(lastAdvancementTime) && currentWheelIndex == old(currentWheelIndex)
        invariant (wheel[..], resolved) == FlatDrain(old(wheel[..]), currentWheelIndex, i - currentWheelIndex)
      {
        var idx := i % wheel.Length;
        resolved := resolved + wheel[idx];
        wheel[idx] := [];
      }
      currentWheelIndex := end;
      lastAdvancementTime := now;
    }
  }

  /**
   * One round of the poll loop: every source whose bucket has come up is polled once, its jobs are queued, and it is
   * put back at its own frequency, counted from this round: behind what comes up then, the sources of that delay, in
   * order. The wheel holds after the round exactly the sources it held before, each as often.
   */
  method PollRound<Source, Job>(wheel: TimingWheel<Source>, now: int, frequency: Source -> nat, poll: Source -> seq<Job>)
    returns (queued: seq<Job>, ready: seq<Source>)
    requires wheel.Valid()
    modifies wheel`lastAdvancementTime, wheel`currentWheelIndex, wheel.wheel
    ensures AllTimers(wheel.wheel[..]) == old(AllTimers(wheel.wheel[..]))
    ensures queued == Jobs(ready, poll)
    ensures (wheel.State(), ready) == PollStep(wheel.wheelTickSize, old(wheel.State()), now, frequency)
    ensures var (advanced, due) := FlatStep(wheel.wheelTickSize, old(wheel.State()), AdvanceOp(now));
      && ready == due && wheel.lastAdvancementTime == advanced.last && wheel.currentWheelIndex == advanced.index
      && forall d :: 0 <= d < wheel.wheel.Length ==>
          Ahead(wheel.State(), d)
            == Ahead(advanced, d) + WithDelay(ready, frequency, wheel.wheelTickSize, wheel.wheel.Length, d)
  {
    hide AllTimers, FlatStep, Jobs, Ahead, WithDelay;
    PollHolds(wheel.wheelTickSize, wheel.State(), now, frequency);
    ready := wheel.Advance(now);
    ghost var advanced := wheel.State();
    queued := [];
    NothingPolled(ready, poll);
    for i := 0 to |ready|
      invariant queued == Jobs(ready[..i], poll)
      invariant wheel.State() == PutAllBack(wheel.wheelTickSize, advanced, ready[..i], frequency)
    {
      assert ready[..i + 1][..i] == ready[..i];
      queued := queued + poll(ready[i]);
      wheel.Schedule(frequency(ready[i]), ready[i]);
      PolledOne(ready, i, poll);
    }
    assert ready[..|ready|] == ready;
    forall d | 0 <= d < wheel.wheel.Length
      ensures Ahead(wheel.State(), d)
        == Ahead(advanced, d) + WithDelay(ready, frequency, wheel.wheelTickSize, wheel.wheel.Length, d)
    {
      PutBackAhead(wheel.wheelTickSize, advanced, ready, frequency, d);
    }
    PutBackAhead(wheel.wheelTickSize, advanced, ready, frequency, 0);
  }

  lemma NothingPolled<Source, Job>(ready: seq<Source>, poll: Source -> seq<Job>)
    ensures Jobs(ready[..0], poll) == []
  {
  }

  lemma PolledOne<Source, Job>(ready: seq<Source>, i: nat, poll: Source -> seq<Job>)
    requires i < |ready|
    ensures Jobs(ready[..i + 1], poll) == Jobs(ready[..i], poll) + poll(ready[i])
  {
    assert ready[..i + 1][..i] == ready[..i];
  }

  /** The poll loop starts with every source in the bucket of the first tick, in order, on a wheel of 10 ms ticks spanning a minute. */
  method SchedulePollSources<Source>(sources: seq<Source>, now: int) returns (wheel: TimingWheel<Source>)
    ensures fresh(wheel) && fresh(wheel.wheel) && wheel.Valid()
    ensures wheel.wheelTickSize == 10 && wheel.wheel.Length == 6000
    ensures wheel.lastAdvancementTime == now && wheel.currentWheelIndex == 0
    ensures wheel.wheel[0] == sources && forall j :: 0 < j < 6000 ==> wheel.wheel[j] == []
    ensures wheel.State() == PollStart(sources, now)
  {
    wheel := new TimingWheel<Source>(10, 60000 / 10, now);
    for i := 0 to |sources|
      invariant wheel.State() == PollStart(sources[..i], now)
    {
      assert sources[..i + 1] == sources[..i] + [sources[i]];
      wheel.Schedule(0, sources[i]);
    }
    assert sources[..|sources|] == sources;
  }

  /**
   * The poll loop over the clock readings of a run. The jobs queued are, round after round, those of the sources that
   * come up in the round; `poll(i)` is what polling gives in round `i`. Every source stays in the wheel exactly as
   * often as given.
   */
  method BeginPoll<Source, Job>(sources: seq<Source>, created: int, readings: seq<int>,
                                frequency: Source -> nat, poll: nat -> Source -> seq<Job>)
    returns (wheel: TimingWheel<Source>, queued: seq<Job>)
    ensures wheel.Valid() && AllTimers(wheel.wheel[..]) == multiset(sources)
    ensures wheel.wheelTickSize == POLL_TICK
    ensures wheel.State() == PollAfter(POLL_TICK, PollStart(sources, created), readings, frequency)
    ensures queued == JobsQueued(POLL_TICK, PollStart(sources, created), readings, frequency, poll)
  {
    hide PollStart, Jobs, PollStep, AllTimers;
    wheel := SchedulePollSources(sources, created);
    queued := [];
    ghost var start := PollStart(sources, created);
    StartHolds(sources, created);
    for i := 0 to |readings|
      invariant fresh(wheel) && fresh(wheel.wheel) && wheel.Valid() && wheel.wheelTickSize == POLL_TICK
      invariant AllTimers(wheel.wheel[..]) == multiset(sources)
      invariant wheel.State() == PollAfter(POLL_TICK, start, readings[..i], frequency)
      invariant queued == JobsQueued(POLL_TICK, start, readings[..i], frequency, poll)
    {
      assert readings[..i + 1][..i] == readings[..i];
      var jobs, _ := PollRound(wheel, readings[i], frequency, poll(i));
      queued := queued + jobs;
    }
    assert readings[..|readings|] == readings;
  }
}
