/** How often cascades move each timer, over whole runs of schedules and advances. */
module WheelRunCost {
  import opened Arithmetic
  import opened TickClock
  import opened WheelModel
  import opened WheelCascade
  import opened WheelCost
  import opened WheelRuns

  // ---------- Height ----------

  /**
   * The wheels that the stored timers can still fall, each timer counted with its weight: with the indicator of a
   * timer, how often that timer can still be moved.
   */
  ghost function Height<T>(ws: seq<Wheel<T>>, f: T -> nat): (r: nat)
    decreases |ws|
  {
    if ws == [] then 0 else Height(ws[..|ws| - 1], f) + (|ws| - 1) * BucketSum(ws[|ws| - 1].buckets, f)
  }

  lemma {:induction false} HeightUpdate<T>(ws: seq<Wheel<T>>, w: nat, wheel: Wheel<T>, f: T -> nat)
    requires w < |ws|
    ensures Height(ws[w := wheel], f) + w * BucketSum(ws[w].buckets, f) == Height(ws, f) + w * BucketSum(wheel.buckets, f)
    decreases |ws|
  {
    var low, updated := ws[..|ws| - 1], ws[w := wheel];
    if w < |low| {
      HeightUpdate(low, w, wheel, f);
      assert updated[..|low|] == low[w := wheel];
    } else {
      assert updated[..|low|] == low;
    }
  }

  // ---------- Moves ----------

  /** The weight of the timers that a cascade moves down one wheel, each as often as it is moved. */
  ghost function LoadMoves<T>(ws: seq<Wheel<T>>, w: nat, f: T -> nat): (r: nat)
    requires WellFormed(ws)
    decreases |ws| - w
  {
    if w >= |ws| || w == 0 then 0
    else
      var ws1 := LoadOne(ws, w);
      Sum(Timers(ws[w].buckets[ws[w].curr]), f) + if ws1[w].curr == 0 then LoadMoves(ws1, w + 1, f) else 0
  }

  ghost function TickMoves<T>(ws: seq<Wheel<T>>, f: T -> nat): (r: nat)
    requires WellFormed(ws)
  {
    if BottomStep(ws)[0].curr == 0 then LoadMoves(BottomStep(ws), 1, f) else 0
  }

  lemma LoadOneHeight<T>(ws: seq<Wheel<T>>, w: nat, f: T -> nat)
    requires WellFormed(ws) && 1 <= w < |ws|
    ensures Height(LoadOne(ws, w), f) + Sum(Timers(ws[w].buckets[ws[w].curr]), f) == Height(ws, f)
  {
    var above, below := ws[w], ws[w - 1];
    assert above.WellFormed() && below.WellFormed();
    var moving, stepped := above.buckets[above.curr], above.Step();
    var filled := PlaceAllBelow(below, moving);
    assert LoadOne(ws, w) == ws[w - 1 := filled][w := stepped];
    PlaceAllHeld(below, moving, f);
    StepHeld(above, f);
    TwoHeights(ws, w, filled, stepped, Sum(Timers(moving), f), f);
  }

  /** Weight that moves from wheel `w` to the one below loses one wheel of height. */
  lemma TwoHeights<T>(ws: seq<Wheel<T>>, w: nat, filled: Wheel<T>, stepped: Wheel<T>, moved: nat, f: T -> nat)
    requires 1 <= w < |ws|
    requires BucketSum(filled.buckets, f) == BucketSum(ws[w - 1].buckets, f) + moved
    requires BucketSum(ws[w].buckets, f) == BucketSum(stepped.buckets, f) + moved
    ensures Height(ws[w - 1 := filled][w := stepped], f) + moved == Height(ws, f)
  {
    hide Height, BucketSum;
    HeightUpdate(ws, w - 1, filled, f);
    HeightUpdate(ws[w - 1 := filled], w, stepped, f);
    var below, left := BucketSum(ws[w - 1].buckets, f), BucketSum(stepped.buckets, f);
    assert (w - 1) * (below + moved) == (w - 1) * below + w * moved - moved;
    assert w * (left + moved) == w * left + w * moved;
  }

  lemma {:induction false} LoadHeight<T>(ws: seq<Wheel<T>>, w: nat, f: T -> nat)
    requires WellFormed(ws)
    ensures Height(Load(ws, w), f) + LoadMoves(ws, w, f) == Height(ws, f)
    decreases |ws| - w
  {
    hide Height;
    if 1 <= w < |ws| {
      LoadOneHeight(ws, w, f);
      if LoadOne(ws, w)[w].curr == 0 {
        LoadHeight(LoadOne(ws, w), w + 1, f);
      }
    }
  }

  /** The weight that a tick moves is the height it loses. */
  lemma TickMovesPaid<T>(ws: seq<Wheel<T>>, f: T -> nat)
    requires WellFormed(ws)
    ensures Height(Tick(ws).0, f) + TickMoves(ws, f) == Height(ws, f)
  {
    HeightUpdate(ws, 0, ws[0].Step(), f);
    LoadHeight(BottomStep(ws), 1, f);
  }

  /** Scheduling into wheel `w` adds the weight of the timer `w` times. */
  lemma ScheduleHeight<T>(ws: seq<Wheel<T>>, t: nat, timer: T, f: T -> nat)
    requires WellFormed(ws)
    ensures Height(Schedule(ws, t, timer), f) == Height(ws, f) + Determine(ws, 0, t).0 * f(timer)
    ensures Determine(ws, 0, t).0 * f(timer) <= (|ws| - 1) * f(timer)
  {
    hide Height, BucketSum;
    var (w, left) := Determine(ws, 0, t);
    var b := ws[w].ticksPerBucket;
    var j := (ws[w].curr + left / b) % ws[w].numBuckets;
    var e := Entry(left % b, timer);
    HeightUpdate(ws, w, ws[w].Push(j, e), f);
    PushHeld(ws[w], j, e, f);
    assert Schedule(ws, t, timer) == ws[w := ws[w].Push(j, e)];
    var held := BucketSum(ws[w].buckets, f);
    assert w * (held + f(timer)) == w * held + w * f(timer);
    MulMonotone(w, |ws| - 1, f(timer));
  }

  // ---------- Whole runs ----------

  /** The weight of the timers that `k` ticks move down one wheel. */
  ghost function ManyMoves<T>(ws: seq<Wheel<T>>, k: nat, f: T -> nat): (n: nat)
    requires WellFormed(ws)
  {
    if k == 0 then 0 else ManyMoves(ws, k - 1, f) + TickMoves(TickMany(ws, k - 1).0, f)
  }

  lemma {:induction false} ManyMovesPaid<T>(ws: seq<Wheel<T>>, k: nat, f: T -> nat)
    requires WellFormed(ws)
    ensures Height(TickMany(ws, k).0, f) + ManyMoves(ws, k, f) == Height(ws, f)
    decreases k
  {
    hide WellFormed, Height, TickMoves, Tick;
    if k > 0 {
      ManyMovesPaid(ws, k - 1, f);
      TickManyStep(ws, k);
      TickMovesPaid(TickMany(ws, k - 1).0, f);
    }
  }

  ghost function RunMoves<T>(tick: nat, s: WheelState<T>, ops: seq<Op<T>>, f: T -> nat): (n: nat)
    requires 0 < tick && WellFormed(s.wheels)
    decreases |ops|
  {
    if ops == [] then 0
    else
      (match ops[0]
       case ScheduleOp(_, _) => 0
       case AdvanceOp(now) => ManyMoves(s.wheels, ElapsedTicks(tick, s.last, now), f))
      + RunMoves(tick, WheelStep(tick, s, ops[0]).0, ops[1..], f)
  }

  /** The weight of the timers that a run schedules. */
  ghost function Scheduled<T>(ops: seq<Op<T>>, f: T -> nat): (n: nat)
    decreases |ops|
  {
    if ops == [] then 0 else (if ops[0].ScheduleOp? then f(ops[0].timer) else 0) + Scheduled(ops[1..], f)
  }

  lemma {:induction false} RunMovesPaid<T>(tick: nat, s: WheelState<T>, ops: seq<Op<T>>, most: nat, f: T -> nat)
    requires 0 < tick && WellFormed(s.wheels) && |s.wheels| == most + 1
    ensures RunMoves(tick, s, ops, f) <= Height(s.wheels, f) + most * Scheduled(ops, f)
    decreases |ops|
  {
    hide WellFormed, Height, TickMany, ManyMoves, Schedule, ElapsedTicks;
    if ops != [] {
      RunMovesPaid(tick, WheelStep(tick, s, ops[0]).0, ops[1..], most, f);
      match ops[0]
      case ScheduleOp(delay, timer) =>
        ScheduleHeight(s.wheels, delay / tick, timer, f);
        assert most * (f(timer) + Scheduled(ops[1..], f)) == most * f(timer) + most * Scheduled(ops[1..], f);
      case AdvanceOp(now) => ManyMovesPaid(s.wheels, ElapsedTicks(tick, s.last, now), f);
    }
  }

  lemma {:induction false} EmptySum<T>(buckets: seq<seq<Entry<T>>>, f: T -> nat)
    requires forall j :: 0 <= j < |buckets| ==> buckets[j] == []
    ensures BucketSum(buckets, f) == 0
    decreases |buckets|
  {
    if buckets != [] {
      EmptySum(buckets[..|buckets| - 1], f);
      assert Timers(buckets[|buckets| - 1]) == [];
    }
  }

  lemma {:induction false} EmptyHeight<T>(ws: seq<Wheel<T>>, f: T -> nat)
    requires forall w :: 0 <= w < |ws| ==> ws[w].IsEmpty()
    ensures Height(ws, f) == 0
    decreases |ws|
  {
    if ws != [] {
      EmptyHeight(ws[..|ws| - 1], f);
      EmptySum(ws[|ws| - 1].buckets, f);
    }
  }

  /** Over any run of a new hierarchy and under any weights, the weight moved is at most (wheels - 1) times the weight scheduled. */
  lemma WeightMoved<T>(sizes: seq<nat>, tick: nat, created: int, ops: seq<Op<T>>, f: T -> nat)
    requires 0 < tick && 0 < |sizes| && forall i :: 0 <= i < |sizes| ==> 0 < sizes[i]
    ensures WellFormed(NewWheels<T>(sizes))
    ensures RunMoves(tick, WheelState(created, NewWheels<T>(sizes)), ops, f) <= (|sizes| - 1) * Scheduled(ops, f)
  {
    hide WellFormed, RunMoves, Height;
    NewWheelsWellFormed<T>(sizes);
    var ws := NewWheels<T>(sizes);
    forall w | 0 <= w < |ws| ensures ws[w].IsEmpty() {
      NewWheelAt<T>(sizes, w);
    }
    EmptyHeight(ws, f);
    RunMovesPaid(tick, WheelState(created, ws), ops, |sizes| - 1, f);
  }

  // ---------- One timer ----------

  /** Counts timer `x` and no other. */
  ghost function Only<T>(x: T): (f: T -> nat) {
    (t: T) => if t == x then 1 else 0
  }

  /** How often a run schedules timer `x`. */
  ghost function TimesScheduled<T>(ops: seq<Op<T>>, x: T): (n: nat)
    decreases |ops|
  {
    if ops == [] then 0
    else (if ops[0].ScheduleOp? && ops[0].timer == x then 1 else 0) + TimesScheduled(ops[1..], x)
  }

  /**
   * Each timer cascades at most (wheels - 1) times: over any run of a new hierarchy, a timer scheduled once is
   * moved at most once per wheel below the top, however often others are moved.
   */
  lemma MovesPerTimer<T>(sizes: seq<nat>, tick: nat, created: int, ops: seq<Op<T>>, x: T)
    requires 0 < tick && 0 < |sizes| && forall i :: 0 <= i < |sizes| ==> 0 < sizes[i]
    ensures WellFormed(NewWheels<T>(sizes))
    ensures RunMoves(tick, WheelState(created, NewWheels<T>(sizes)), ops, Only(x)) <= (|sizes| - 1) * TimesScheduled(ops, x)
  {
    hide WellFormed, RunMoves, Height;
    WeightMoved(sizes, tick, created, ops, Only(x));
    OnlyScheduled(ops, x);
  }

  lemma {:induction false} OnlyScheduled<T>(ops: seq<Op<T>>, x: T)
    ensures Scheduled(ops, Only(x)) == TimesScheduled(ops, x)
    decreases |ops|
  {
    if ops != [] {
      OnlyScheduled(ops[1..], x);
    }
  }
}
