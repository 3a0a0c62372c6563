/** Where a schedule puts a timer, told by the cursors; and the variant of the climb that puts it on time. */
module WheelPlacement {
  import opened Arithmetic
  import opened WheelModel
  import opened WheelMeaning
  import opened WheelCascade
  import opened TimerAgenda
  import opened WheelRefinement
  import opened WheelRuns

  // ---------- The placement law by the cursors ----------

  /** The ticks already past in the wheels below `w`: the sum of c_i * b_i over i < w. */
  ghost function PastTicks<T>(ws: seq<Wheel<T>>, w: nat): (r: nat)
    requires w <= |ws|
  {
    if w == 0 then 0
    else
      assert 0 <= ws[w - 1].curr * ws[w - 1].ticksPerBucket;
      PastTicks(ws, w - 1) + ws[w - 1].curr * ws[w - 1].ticksPerBucket
  }

  /** They are the ticks processed, modulo the bucket size of wheel `w`. */
  lemma {:induction false} PastTicksAre<T>(ws: seq<Wheel<T>>, w: nat, now: nat)
    requires WellFormed(ws) && Odometer(ws, 0, now) && w < |ws|
    ensures PastTicks(ws, w) == now % ws[w].ticksPerBucket
  {
    if w == 0 {
      DivModUnique(now, 1, now, 0);
    } else {
      var below := ws[w - 1];
      PastTicksAre(ws, w - 1, now);
      CursorClosedForm(ws, w - 1, now);
      DivModProduct(now, below.ticksPerBucket, below.numBuckets);
      assert ws[w].ticksPerBucket == below.Capacity() == below.ticksPerBucket * below.numBuckets;
    }
  }

  ghost predicate CursorsAtZero<T>(ws: seq<Wheel<T>>, w: nat)
    requires w <= |ws|
  {
    forall i :: 0 <= i < w ==> ws[i].curr == 0
  }

  lemma {:induction false} NothingPast<T>(ws: seq<Wheel<T>>, w: nat)
    requires WellFormed(ws) && w <= |ws|
    ensures PastTicks(ws, w) == 0 <==> CursorsAtZero(ws, w)
  {
    if w > 0 {
      NothingPast(ws, w - 1);
      var below := ws[w - 1];
      if below.curr > 0 {
        MulPositive(below.curr, below.ticksPerBucket);
      }
    }
  }

  /** The slot of a delay, seen on the wheels. */
  lemma SlotOnWheels<T>(ws: seq<Wheel<T>>, now: nat, t: nat)
    requires Inv(ws, now)
    ensures var w := Determine(ws, 0, t).0;
      && SlotOf(Sizes(ws), now, t).wheel == w
      && ws[w].ticksPerBucket == Span(Sizes(ws)[..w])
      && PastTicks(ws, w) == now % ws[w].ticksPerBucket
  {
    hide View, ViewFrom, PastTicks, OkFrom;
    ClimbMatches(ws, 0, now, now, t, false);
    var w := Determine(ws, 0, t).0;
    TicksPerBucketIsSpan(ws, w);
    PastTicksAre(ws, w, now);
  }

  /**
   * Placement law. If no subtraction wraps and the top wheel has room, a schedule adds the timer, last, at the tick
   * asked for less the ticks already past below its wheel, and changes nothing else. So it is on time exactly when
   * the cursors below its wheel stand at zero.
   */
  lemma ScheduledAt<T>(ws: seq<Wheel<T>>, now: nat, t: nat, timer: T, due: nat)
    requires Inv(ws, now) && ValidSizes(Sizes(ws)) && t < SIZE_MODULUS && now <= due
    requires InRange(Sizes(ws), now, t) && !SlotOf(Sizes(ws), now, t).wrapped
    ensures var w := Determine(ws, 0, t).0;
      && View(Schedule(ws, t, timer), now, due)
         == View(ws, now, due) + (if due == now + t - PastTicks(ws, w) then [timer] else [])
      && (PastTicks(ws, w) == 0 <==> CursorsAtZero(ws, w))
  {
    hide View, ViewFrom, PastTicks, OkFrom, Odometer, Schedule, CursorsAtZero, InRange, SlotOf, DueTick, Span;
    var w := Determine(ws, 0, t).0;
    SlotOnWheels(ws, now, t);
    NothingPast(ws, w);
    PlacementLaw(Sizes(ws), now, t);
    ScheduleMeaning(ws, now, t, timer, due);
  }

  /** When the cursors below the wheel found stand at zero, nothing has wrapped and the timer is added at the tick asked for. */
  lemma OnTimeByCursors<T>(ws: seq<Wheel<T>>, now: nat, t: nat, timer: T, due: nat)
    requires Inv(ws, now) && ValidSizes(Sizes(ws)) && t < SIZE_MODULUS && now <= due
    requires InRange(Sizes(ws), now, t) && CursorsAtZero(ws, Determine(ws, 0, t).0)
    ensures !SlotOf(Sizes(ws), now, t).wrapped
    ensures View(Schedule(ws, t, timer), now, due) == View(ws, now, due) + (if due == now + t then [timer] else [])
  {
    hide View, ViewFrom, PastTicks, OkFrom, Odometer, Schedule, CursorsAtZero, InRange, SlotOf, DueTick, Span;
    SlotOnWheels(ws, now, t);
    NothingPast(ws, Determine(ws, 0, t).0);
    TimerAgenda.OnTimeWhenAligned(Sizes(ws), now, t);
    ScheduleMeaning(ws, now, t, timer, due);
  }

  // ---------- The variant that subtracts the remaining ticks ----------

  /** The ticks from the cursor of a wheel to its end. */
  function RemainingTicks<T>(wheel: Wheel<T>): (r: nat)
    requires wheel.WellFormed()
  {
    MulMonotone(0, wheel.numBuckets - wheel.curr, wheel.ticksPerBucket);
    (wheel.numBuckets - wheel.curr) * wheel.ticksPerBucket
  }

  lemma RemainingFits<T>(wheel: Wheel<T>, left: nat)
    requires wheel.WellFormed() && wheel.curr + left / wheel.ticksPerBucket >= wheel.numBuckets
    ensures RemainingTicks(wheel) <= left
  {
    DivBelow(left, wheel.ticksPerBucket, wheel.numBuckets - wheel.curr);
  }

  /** The climb with the ticks remaining in each wheel, (n_w - c_w) * b_w, subtracted instead of all of them. */
  function DetermineRemaining<T>(ws: seq<Wheel<T>>, w: nat, left: nat): (r: (nat, nat))
    requires WellFormed(ws) && w < |ws|
    ensures w <= r.0 < |ws| && Fits(ws, r.0, r.1)
    decreases |ws| - w
  {
    if Fits(ws, w, left) then (w, left)
    else
      RemainingFits(ws[w], left);
      DetermineRemaining(ws, w + 1, left - RemainingTicks(ws[w]))
  }

  function ScheduleRemaining<T>(ws: seq<Wheel<T>>, t: nat, timer: T): (r: seq<Wheel<T>>)
    requires WellFormed(ws)
    ensures WellFormed(r) && SameSizes(ws, r)
  {
    var (w, left) := DetermineRemaining(ws, 0, t);
    PlaceAt(ws, w, left, timer)
  }

  /** The start of the wheel found and the ticks left for it add up to the tick asked for. */
  lemma {:induction false} RemainingBalance<T>(ws: seq<Wheel<T>>, w: nat, start: nat, left: nat)
    requires WellFormed(ws) && w < |ws|
    ensures var (v, rest) := DetermineRemaining(ws, w, left); WindowStart(ws, w, start, v) + rest == start + left
    decreases |ws| - w
  {
    if !Fits(ws, w, left) {
      RemainingFits(ws[w], left);
      RemainingBalance(ws, w + 1, WindowEnd(ws, w, start), left - RemainingTicks(ws[w]));
    }
  }

  /** The top wheel has room for the delay, if the climb reaches it. */
  ghost predicate HasRoom<T>(ws: seq<Wheel<T>>, t: nat)
    requires WellFormed(ws)
  {
    var (w, left) := DetermineRemaining(ws, 0, t);
    w == |ws| - 1 ==> left < ws[w].Capacity()
  }

  /**
   * With the remaining ticks subtracted, a schedule adds the timer, last, at one tick and changes nothing else;
   * that tick is the one asked for exactly when the top wheel has room.
   */
  lemma RemainingIsOnTime<T>(ws: seq<Wheel<T>>, now: nat, t: nat, timer: T, due: nat)
    requires WellFormed(ws) && now <= due
    ensures var (w, left) := DetermineRemaining(ws, 0, t);
      var placed := PlacedTick(ws, w, WindowStart(ws, 0, now, w), left);
      && View(ScheduleRemaining(ws, t, timer), now, due) == View(ws, now, due) + (if due == placed then [timer] else [])
      && (placed == now + t <==> HasRoom(ws, t))
  {
    hide ViewFrom, WindowStart, DetermineRemaining;
    var (w, left) := DetermineRemaining(ws, 0, t);
    RemainingBalance(ws, 0, now, t);
    PlaceMeaning(ws, 0, now, w, left, timer, due);
    MulPositive(ws[w].numBuckets, ws[w].ticksPerBucket);
    if left < ws[w].Capacity() {
      DivModUnique(left, ws[w].Capacity(), 0, left);
    }
  }
}
