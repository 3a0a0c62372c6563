/** Cascades of any depth, and the tick built on them, keep every due tick and every timer. */
module WheelCascade {
  import opened Arithmetic
  import opened WheelModel
  import opened WheelMeaning

  /** A cascade of any depth keeps the invariant and touches no wheel below `w - 1`. */
  lemma {:induction false} LoadOk<T>(ws: seq<Wheel<T>>, w: nat)
    requires LoadReady(ws, w) && Bounded(ws)
    ensures OkFrom(Load(ws, w), w - 1)
    ensures Load(ws, w)[w - 1].curr == 0
    ensures forall i :: 0 <= i < w - 1 ==> Load(ws, w)[i] == ws[i]
    decreases |ws| - w
  {
    var ws1 := LoadOne(ws, w);
    LoadOneOk(ws, w);
    if ws1[w].curr == 0 && w < |ws| - 1 {
      LoadOk(ws1, w + 1);
      assert WheelOk(ws1, w - 1);
      var ws2 := Load(ws1, w + 1);
      assert ws2[w - 1] == ws1[w - 1];
      assert WheelOk(ws2, w - 1);
      forall i | w - 1 <= i < |ws2| ensures WheelOk(ws2, i) {
      }
    }
  }

  /** A cascade is its first step, and on a wrap the cascade one wheel up. */
  lemma LoadUnfolds<T>(ws: seq<Wheel<T>>, w: nat)
    requires LoadReady(ws, w) && Bounded(ws)
    ensures var ws1 := LoadOne(ws, w);
      && Bounded(ws1) && ws1[w] == ws[w].Step() && (forall i :: w < i < |ws| ==> ws1[i] == ws[i])
      && (w < |ws| - 1 && ws1[w].curr == 0 ==> LoadReady(ws1, w + 1) && Load(ws, w) == Load(ws1, w + 1))
      && (w == |ws| - 1 || ws1[w].curr != 0 ==> Load(ws, w) == ws1)
  {
    hide PlaceAllBelow, OkFrom;
    LoadOneOk(ws, w);
  }

  /** The view from the last bucket of a wheel on is the view from the wheel above. */
  lemma WrapSkips<T>(ws: seq<Wheel<T>>, w: nat, start: nat, due: nat)
    requires WellFormed(ws) && w < |ws| - 1 && ws[w].Step().curr == 0 && start + ws[w].ticksPerBucket <= due
    ensures ViewFrom(ws, w, start, due) == ViewFrom(ws, w + 1, start + ws[w].ticksPerBucket, due)
  {
    hide BucketAt, Pick;
    StepWraps(ws[w]);
    assert WindowEnd(ws, w, start) == start + ws[w].ticksPerBucket;
  }

  /** A cascade of any depth shows, from wheel `w - 1`, exactly what wheel `w` showed before. */
  lemma {:induction false} LoadMeaning<T>(ws: seq<Wheel<T>>, w: nat, start: nat, due: nat)
    requires LoadReady(ws, w) && Bounded(ws) && start <= due
    ensures ViewFrom(Load(ws, w), w - 1, start, due) == ViewFrom(ws, w, start, due)
    decreases |ws| - w
  {
    hide ViewFrom, Load, LoadOne, WindowEnd, OkFrom, Bounded;
    var b := ws[w].ticksPerBucket;
    if due < start + b {
      FirstBucket(ws, w, start, due);
    } else {
      SkipBelow(ws, w, start, due);
      LoadUnfolds(ws, w);
      var ws1 := LoadOne(ws, w);
      StepWraps(ws[w]);
      if w == |ws| - 1 {
        StepMeaningTop(ws, ws1, start, due);
      } else if ws1[w].curr == 0 {
        LoadMeaning(ws1, w + 1, start + b, due);
        ViewFramed(ws, ws1, w + 1, start + b, due);
        WrapSkips(ws, w, start, due);
      } else {
        StepMeaningLower(ws, ws1, w, start, due);
      }
    }
  }

  /** The wheel a cascade fills is only changed by the first bucket it moves. */
  lemma LoadFrame<T>(ws: seq<Wheel<T>>, w: nat)
    requires LoadReady(ws, w) && Bounded(ws)
    ensures Load(ws, w)[w - 1] == PlaceAllBelow(ws[w - 1], ws[w].buckets[ws[w].curr])
  {
    LoadOneOk(ws, w);
    var ws1 := LoadOne(ws, w);
    if ws1[w].curr == 0 && w < |ws| - 1 {
      LoadOk(ws1, w + 1);
    }
  }

  /** Past the moved bucket, the view continues at wheel `w`. */
  lemma SkipBelow<T>(ws: seq<Wheel<T>>, w: nat, start: nat, due: nat)
    requires LoadReady(ws, w) && Bounded(ws) && start + ws[w].ticksPerBucket <= due
    ensures ViewFrom(Load(ws, w), w - 1, start, due)
         == ViewFrom(Load(ws, w), w, start + ws[w].ticksPerBucket, due)
  {
    var vs := Load(ws, w);
    LoadOk(ws, w);
    assert ws[w].ticksPerBucket == ws[w - 1].Capacity();
    assert WindowEnd(vs, w - 1, start) == start + ws[w].ticksPerBucket;
  }

  lemma StepWraps<T>(wheel: Wheel<T>)
    requires wheel.WellFormed()
    ensures wheel.Step().curr == 0 <==> wheel.curr + 1 == wheel.numBuckets
    ensures wheel.Step().curr != 0 ==> wheel.Step().curr == wheel.curr + 1
    ensures wheel.Step().curr == 0 ==> (wheel.numBuckets - wheel.curr) * wheel.ticksPerBucket == wheel.ticksPerBucket
  {
  }

  /** The ticks of the moved bucket are found again in the wheel below. */
  lemma FirstBucket<T>(ws: seq<Wheel<T>>, w: nat, start: nat, due: nat)
    requires LoadReady(ws, w) && Bounded(ws)
    requires start <= due < start + ws[w].ticksPerBucket
    ensures ViewFrom(Load(ws, w), w - 1, start, due) == ViewFrom(ws, w, start, due)
  {
    var vs := Load(ws, w);
    var b, n, c := ws[w].ticksPerBucket, ws[w].numBuckets, ws[w].curr;
    var delay := due - start;
    var moving := ws[w].buckets[c];
    assert WheelOk(ws, w);
    assert b == ws[w - 1].Capacity() && b <= HALF_SIZE_MODULUS;
    PlaceAllMeaning(ws[w - 1], moving, delay);
    LoadFrame(ws, w);
    assert WindowEnd(vs, w - 1, start) == start + b;
    DivModUnique(delay, b, 0, delay);
    DivModUnique(c, n, 0, c);
    MulMonotone(1, n, b);
    MulMonotone(1, n - c, b);
    assert BucketAt(ws[w], delay) == moving;
  }

  // ---------- The odometer ----------

  lemma {:induction false} OdometerFramed<T>(ws: seq<Wheel<T>>, vs: seq<Wheel<T>>, w: nat, q: nat)
    requires WellFormed(ws) && WellFormed(vs) && |ws| == |vs|
    requires forall i :: w <= i < |ws| ==> vs[i].curr == ws[i].curr && vs[i].numBuckets == ws[i].numBuckets
    requires Odometer(ws, w, q)
    ensures Odometer(vs, w, q)
    decreases |ws| - w
  {
    if w < |ws| {
      OdometerFramed(ws, vs, w + 1, q / ws[w].numBuckets);
    }
  }

  /** With all cursors at zero the odometer reads zero. */
  lemma {:induction false} FreshOdometer<T>(ws: seq<Wheel<T>>, w: nat)
    requires WellFormed(ws) && forall i :: 0 <= i < |ws| ==> ws[i].curr == 0
    ensures Odometer(ws, w, 0)
    decreases |ws| - w
  {
    if w < |ws| {
      DivModUnique(0, ws[w].numBuckets, 0, 0);
      FreshOdometer(ws, w + 1);
    }
  }

  /** A cascade steps the odometer from wheel `w` up by one. */
  lemma {:induction false} LoadOdometer<T>(ws: seq<Wheel<T>>, w: nat, q: nat)
    requires WellFormed(ws) && 1 <= w && Odometer(ws, w, q)
    ensures Odometer(Load(ws, w), w, q + 1)
    ensures forall i :: 0 <= i < w && i < |ws| ==> Load(ws, w)[i].curr == ws[i].curr
    decreases |ws| - w
  {
    if w < |ws| {
      var ws1 := LoadOne(ws, w);
      var n := ws[w].numBuckets;
      DivModSuccessor(q, n);
      OdometerFramed(ws, ws1, w + 1, q / n);
      if ws1[w].curr == 0 {
        LoadOdometer(ws1, w + 1, q / n);
      }
    }
  }

  /** The cursor of wheel `w` after `now` ticks, in closed form. */
  lemma {:induction false} CursorClosedForm<T>(ws: seq<Wheel<T>>, w: nat, now: nat)
    requires WellFormed(ws) && Odometer(ws, 0, now) && w < |ws|
    ensures ws[w].curr == now / ws[w].ticksPerBucket % ws[w].numBuckets
    ensures Odometer(ws, w, now / ws[w].ticksPerBucket)
  {
    if w > 0 {
      CursorClosedForm(ws, w - 1, now);
      DivModProduct(now, ws[w - 1].ticksPerBucket, ws[w - 1].numBuckets);
      assert ws[w].ticksPerBucket == ws[w - 1].Capacity();
    }
  }

  // ---------- A tick ----------

  /** What a tick leaves before any cascade: the bottom wheel stepped. */
  function BottomStep<T>(ws: seq<Wheel<T>>): (r: seq<Wheel<T>>)
    requires WellFormed(ws)
    ensures WellFormed(r) && SameSizes(ws, r)
  {
    ws[0 := ws[0].Step()]
  }

  lemma BottomStepOk<T>(ws: seq<Wheel<T>>)
    requires WellFormed(ws) && OkFrom(ws, 0)
    ensures OkFrom(BottomStep(ws), 0)
    ensures BottomStep(ws)[0].curr == 0 && 1 < |ws| ==> LoadReady(BottomStep(ws), 1)
  {
    assert WheelOk(ws, 0);
    StepKeepsOk(ws[0]);
    forall i | 0 <= i < |ws| ensures WheelOk(BottomStep(ws), i) {
      assert WheelOk(ws, i);
    }
    assert OkFrom(BottomStep(ws), 1);
  }

  lemma TickOk<T>(ws: seq<Wheel<T>>, now: nat)
    requires Inv(ws, now) && Bounded(ws)
    ensures Inv(Tick(ws).0, now + 1) && Bounded(Tick(ws).0)
  {
    var ws1, vs := BottomStep(ws), Tick(ws).0;
    BottomStepOk(ws);
    BoundedSameSizes(ws, ws1);
    BoundedSameSizes(ws, vs);
    if ws1[0].curr == 0 && 1 < |ws| {
      LoadOk(ws1, 1);
    }
    var n := ws[0].numBuckets;
    DivModSuccessor(now, n);
    OdometerFramed(ws, ws1, 1, now / n);
    if ws1[0].curr == 0 {
      LoadOdometer(ws1, 1, now / n);
    }
  }

  /** A tick fires exactly the timers due now, in order, and changes what is due at no later tick. */
  lemma TickMeaning<T>(ws: seq<Wheel<T>>, now: nat, due: nat)
    requires Inv(ws, now) && Bounded(ws) && now < due
    ensures Tick(ws).1 == View(ws, now, now)
    ensures View(Tick(ws).0, now + 1, due) == View(ws, now, due)
  {
    TickFires(ws, now);
    var ws1, vs := BottomStep(ws), Tick(ws).0;
    BottomStepOk(ws);
    BoundedSameSizes(ws, ws1);
    StepWraps(ws[0]);
    if |ws| == 1 {
      StepMeaningTop(ws, vs, now, due);
    } else if ws1[0].curr == 0 {
      LoadMeaning(ws1, 1, now + 1, due);
      ViewFramed(ws, ws1, 1, now + 1, due);
      assert WindowEnd(ws, 0, now) == now + 1;
    } else {
      StepMeaningLower(ws, vs, 0, now, due);
    }
  }

  lemma TickFires<T>(ws: seq<Wheel<T>>, now: nat)
    requires Inv(ws, now)
    ensures Tick(ws).1 == View(ws, now, now)
  {
    var wheel := ws[0];
    assert WheelOk(ws, 0);
    DivModUnique(wheel.curr, wheel.numBuckets, 0, wheel.curr);
    MulMonotone(1, wheel.numBuckets - wheel.curr, 1);
    assert now < WindowEnd(ws, 0, now);
    assert BucketAt(wheel, 0) == wheel.buckets[wheel.curr];
    PickAll(wheel.buckets[wheel.curr], 0);
  }
}
