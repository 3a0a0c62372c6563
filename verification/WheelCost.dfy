/** Conservation of timers, and the amortised cost of cascading. */
module WheelCost {
  import opened Arithmetic
  import opened WheelModel
  import opened WheelMeaning
  import opened WheelCascade
  import opened WheelRefinement

  // ---------- No timer is lost or duplicated ----------

  /** The sum of `f` over a list of timers: with the indicator of a timer, how often it occurs. */
  ghost function Sum<T>(timers: seq<T>, f: T -> nat): (r: nat)
    decreases |timers|
  {
    if timers == [] then 0 else Sum(timers[..|timers| - 1], f) + f(timers[|timers| - 1])
  }

  ghost function BucketSum<T>(buckets: seq<seq<Entry<T>>>, f: T -> nat): (r: nat)
    decreases |buckets|
  {
    if buckets == [] then 0
    else BucketSum(buckets[..|buckets| - 1], f) + Sum(Timers(buckets[|buckets| - 1]), f)
  }

  /** The sum of `f` over every timer stored in the wheels. */
  ghost function Held<T>(ws: seq<Wheel<T>>, f: T -> nat): (r: nat)
    decreases |ws|
  {
    if ws == [] then 0 else Held(ws[..|ws| - 1], f) + BucketSum(ws[|ws| - 1].buckets, f)
  }

  lemma SumPush<T>(timers: seq<T>, timer: T, f: T -> nat)
    ensures Sum(timers + [timer], f) == Sum(timers, f) + f(timer)
  {
    assert (timers + [timer])[..|timers|] == timers;
  }

  lemma {:induction false} SumAppend<T>(first: seq<T>, second: seq<T>, f: T -> nat)
    ensures Sum(first + second, f) == Sum(first, f) + Sum(second, f)
    decreases |second|
  {
    if second == [] {
      assert first + second == first;
    } else {
      var low, last := second[..|second| - 1], second[|second| - 1];
      SumAppend(first, low, f);
      SumPush(first + low, last, f);
      assert first + second == first + low + [last];
    }
  }

  lemma {:induction false} BucketUpdate<T>(buckets: seq<seq<Entry<T>>>, j: nat, bucket: seq<Entry<T>>, f: T -> nat)
    requires j < |buckets|
    ensures BucketSum(buckets[j := bucket], f) + Sum(Timers(buckets[j]), f)
         == BucketSum(buckets, f) + Sum(Timers(bucket), f)
    decreases |buckets|
  {
    var low, updated := buckets[..|buckets| - 1], buckets[j := bucket];
    if j < |low| {
      BucketUpdate(low, j, bucket, f);
      assert updated[..|low|] == low[j := bucket];
    } else {
      assert updated[..|low|] == low;
    }
  }

  lemma {:induction false} HeldUpdate<T>(ws: seq<Wheel<T>>, w: nat, wheel: Wheel<T>, f: T -> nat)
    requires w < |ws|
    ensures Held(ws[w := wheel], f) + BucketSum(ws[w].buckets, f) == Held(ws, f) + BucketSum(wheel.buckets, f)
    decreases |ws|
  {
    var low, updated := ws[..|ws| - 1], ws[w := wheel];
    if w < |low| {
      HeldUpdate(low, w, wheel, f);
      assert updated[..|low|] == low[w := wheel];
    } else {
      assert updated[..|low|] == low;
    }
  }

  lemma PushHeld<T>(wheel: Wheel<T>, j: nat, e: Entry<T>, f: T -> nat)
    requires j < |wheel.buckets|
    ensures BucketSum(wheel.Push(j, e).buckets, f) == BucketSum(wheel.buckets, f) + f(e.timer)
  {
    BucketUpdate(wheel.buckets, j, wheel.buckets[j] + [e], f);
    assert Timers(wheel.buckets[j] + [e]) == Timers(wheel.buckets[j]) + [e.timer];
    SumPush(Timers(wheel.buckets[j]), e.timer, f);
  }

  lemma StepHeld<T>(wheel: Wheel<T>, f: T -> nat)
    requires wheel.WellFormed()
    ensures BucketSum(wheel.buckets, f) == BucketSum(wheel.Step().buckets, f) + Sum(Timers(wheel.buckets[wheel.curr]), f)
  {
    BucketUpdate(wheel.buckets, wheel.curr, [], f);
    assert Timers<T>([]) == [];
  }

  lemma {:induction false} PlaceAllHeld<T>(below: Wheel<T>, es: seq<Entry<T>>, f: T -> nat)
    requires below.WellFormed()
    ensures BucketSum(PlaceAllBelow(below, es).buckets, f) == BucketSum(below.buckets, f) + Sum(Timers(es), f)
    decreases |es|
  {
    if es == [] {
      assert Timers(es) == [];
    } else {
      var low, e := es[..|es| - 1], es[|es| - 1];
      PlaceAllHeld(below, low, f);
      var mid := PlaceAllBelow(below, low);
      var j := BucketBelow(mid, e.offset);
      PushHeld(mid, j, Entry(SizeSub(e.offset, j * mid.ticksPerBucket), e.timer), f);
      assert Timers(es) == Timers(low) + [e.timer];
      SumPush(Timers(low), e.timer, f);
    }
  }

  lemma LoadOneHeld<T>(ws: seq<Wheel<T>>, w: nat, f: T -> nat)
    requires WellFormed(ws) && 1 <= w < |ws|
    ensures Held(LoadOne(ws, w), f) == Held(ws, f)
  {
    var above, below := ws[w], ws[w - 1];
    assert above.WellFormed() && below.WellFormed();
    var moving, stepped := above.buckets[above.curr], above.Step();
    var filled := PlaceAllBelow(below, moving);
    assert LoadOne(ws, w) == ws[w - 1 := filled][w := stepped];
    PlaceAllHeld(below, moving, f);
    StepHeld(above, f);
    TwoHeld(ws, w, filled, stepped, Sum(Timers(moving), f), f);
  }

  /** Two wheels replaced, one holding as much more as the other holds less. */
  lemma TwoHeld<T>(ws: seq<Wheel<T>>, w: nat, filled: Wheel<T>, stepped: Wheel<T>, moved: nat, f: T -> nat)
    requires 1 <= w < |ws|
    requires BucketSum(filled.buckets, f) == BucketSum(ws[w - 1].buckets, f) + moved
    requires BucketSum(ws[w].buckets, f) == BucketSum(stepped.buckets, f) + moved
    ensures Held(ws[w - 1 := filled][w := stepped], f) == Held(ws, f)
  {
    HeldUpdate(ws, w - 1, filled, f);
    HeldUpdate(ws[w - 1 := filled], w, stepped, f);
    hide *;
  }

  lemma {:induction false} LoadHeld<T>(ws: seq<Wheel<T>>, w: nat, f: T -> nat)
    requires WellFormed(ws)
    ensures Held(Load(ws, w), f) == Held(ws, f)
    decreases |ws| - w
  {
    if 1 <= w < |ws| {
      LoadOneHeld(ws, w, f);
      if LoadOne(ws, w)[w].curr == 0 {
        LoadHeld(LoadOne(ws, w), w + 1, f);
      }
    }
  }

  lemma TickConserves<T>(ws: seq<Wheel<T>>, f: T -> nat)
    requires WellFormed(ws)
    ensures Held(ws, f) == Held(Tick(ws).0, f) + Sum(Tick(ws).1, f)
  {
    HeldUpdate(ws, 0, ws[0].Step(), f);
    StepHeld(ws[0], f);
    LoadHeld(BottomStep(ws), 1, f);
  }

  /**
   * Whatever the state, an advance hands out or keeps every timer held, each as often as it was held:
   * any sum over the timers splits into the sum kept and the sum returned.
   */
  lemma {:induction false} AdvanceConserves<T>(ws: seq<Wheel<T>>, k: nat, f: T -> nat)
    requires WellFormed(ws)
    ensures Held(ws, f) == Held(TickMany(ws, k).0, f) + Sum(TickMany(ws, k).1, f)
    decreases k
  {
    hide WellFormed, Held;
    if k > 0 {
      hide *;
      AdvanceConserves(ws, k - 1, f);
      TickManyStep(ws, k);
      var ws1 := TickMany(ws, k - 1).0;
      TickConserves(ws1, f);
      SumAppend(TickMany(ws, k - 1).1, Tick(ws1).1, f);
    }
  }

  /** Scheduling holds one timer more. */
  lemma ScheduleConserves<T>(ws: seq<Wheel<T>>, t: nat, timer: T, f: T -> nat)
    requires WellFormed(ws)
    ensures Held(Schedule(ws, t, timer), f) == Held(ws, f) + f(timer)
  {
    var (w, left) := Determine(ws, 0, t);
    var b := ws[w].ticksPerBucket;
    var j := (ws[w].curr + left / b) % ws[w].numBuckets;
    var e := Entry(left % b, timer);
    hide WellFormed, Held, BucketSum, Determine;
    HeldUpdate(ws, w, ws[w].Push(j, e), f);
    PushHeld(ws[w], j, e, f);
    assert Schedule(ws, t, timer) == ws[w := ws[w].Push(j, e)];
  }

  // ---------- Cursor steps ----------

  /** The cursor steps a cascade into wheel `w - 1` makes. */
  ghost function LoadSteps<T>(ws: seq<Wheel<T>>, w: nat): (r: nat)
    requires WellFormed(ws)
    decreases |ws| - w
  {
    if w >= |ws| || w == 0 then 0
    else
      var ws1 := LoadOne(ws, w);
      1 + if ws1[w].curr == 0 then LoadSteps(ws1, w + 1) else 0
  }

  ghost function TickSteps<T>(ws: seq<Wheel<T>>): (r: nat)
    requires WellFormed(ws)
  {
    1 + if BottomStep(ws)[0].curr == 0 then LoadSteps(BottomStep(ws), 1) else 0
  }

  ghost function TotalSteps<T>(ws: seq<Wheel<T>>, k: nat): (r: nat)
    requires WellFormed(ws)
  {
    if k == 0 then 0 else TotalSteps(ws, k - 1) + TickSteps(TickMany(ws, k - 1).0)
  }

  /** The steps of wheels `w` and above when wheel `w` has made `q`: q + q/n_w + q/(n_w n_{w+1}) + ... */
  ghost function StepsFrom(sizes: seq<nat>, w: nat, q: nat): (r: nat)
    requires forall i :: 0 <= i < |sizes| ==> 0 < sizes[i]
    decreases |sizes| - w
  {
    if w >= |sizes| then 0 else q + StepsFrom(sizes, w + 1, q / sizes[w])
  }

  lemma {:induction false} LoadStepsCount<T>(ws: seq<Wheel<T>>, sizes: seq<nat>, w: nat, q: nat)
    requires WellFormed(ws) && sizes == Sizes(ws) && 1 <= w <= |ws| && Odometer(ws, w, q)
    ensures LoadSteps(ws, w) == StepsFrom(sizes, w, q + 1) - StepsFrom(sizes, w, q)
    decreases |ws| - w
  {
    if w < |ws| {
      var ws1, n := LoadOne(ws, w), sizes[w];
      DivModSuccessor(q, n);
      if ws1[w].curr == 0 {
        OdometerFramed(ws, ws1, w + 1, q / n);
        SizesSame(ws, ws1);
        LoadStepsCount(ws1, sizes, w + 1, q / n);
      }
    }
  }

  lemma TickStepsCount<T>(ws: seq<Wheel<T>>, sizes: seq<nat>, now: nat)
    requires WellFormed(ws) && sizes == Sizes(ws) && Odometer(ws, 0, now)
    ensures TickSteps(ws) == StepsFrom(sizes, 0, now + 1) - StepsFrom(sizes, 0, now)
  {
    var ws1, n := BottomStep(ws), sizes[0];
    DivModSuccessor(now, n);
    if ws1[0].curr == 0 {
      OdometerFramed(ws, ws1, 1, now / n);
      SizesSame(ws, ws1);
      LoadStepsCount(ws1, sizes, 1, now / n);
    }
  }

  lemma TickOdometer<T>(ws: seq<Wheel<T>>, now: nat)
    requires WellFormed(ws) && Odometer(ws, 0, now)
    ensures Odometer(Tick(ws).0, 0, now + 1)
  {
    hide Load, Timers;
    var ws1, n := BottomStep(ws), ws[0].numBuckets;
    DivModSuccessor(now, n);
    OdometerFramed(ws, ws1, 1, now / n);
    if ws1[0].curr == 0 {
      LoadOdometer(ws1, 1, now / n);
    }
  }

  lemma {:induction false} TotalStepsCount<T>(ws: seq<Wheel<T>>, sizes: seq<nat>, now: nat, k: nat, end: nat)
    requires WellFormed(ws) && sizes == Sizes(ws) && Odometer(ws, 0, now) && end == now + k
    ensures Odometer(TickMany(ws, k).0, 0, end)
    ensures TotalSteps(ws, k) == StepsFrom(sizes, 0, end) - StepsFrom(sizes, 0, now)
    decreases k
  {
    hide WellFormed, Odometer, StepsFrom, TickSteps, Tick, Sizes;
    if k > 0 {
      TotalStepsCount(ws, sizes, now, k - 1, end - 1);
      TickManyStep(ws, k);
      var ws1 := TickMany(ws, k - 1).0;
      SizesSame(ws, ws1);
      TickStepsCount(ws1, sizes, end - 1);
      TickOdometer(ws1, end - 1);
      assert end - 1 + 1 == end;
    }
  }

  lemma {:induction false} StepsAtMostDouble(sizes: seq<nat>, w: nat, q: nat)
    requires forall i :: 0 <= i < |sizes| ==> 2 <= sizes[i]
    ensures StepsFrom(sizes, w, q) <= 2 * q
    decreases |sizes| - w
  {
    if w < |sizes| {
      var n := sizes[w];
      StepsAtMostDouble(sizes, w + 1, q / n);
      assert q == (q / n) * n + q % n;
      MulMonotone(2, n, q / n);
    }
  }

  lemma {:induction false} ZeroSteps(sizes: seq<nat>, w: nat)
    requires forall i :: 0 <= i < |sizes| ==> 0 < sizes[i]
    ensures StepsFrom(sizes, w, 0) == 0
    decreases |sizes| - w
  {
    if w < |sizes| {
      DivModUnique(0, sizes[w], 0, 0);
      ZeroSteps(sizes, w + 1);
    }
  }

  /**
   * Amortised cost: `k` ticks of a new hierarchy step the cursors exactly k + k/b_1 + k/b_2 + ... times,
   * at most 2k when every wheel has at least two buckets.
   */
  lemma CascadeCost<T>(sizes: seq<nat>, k: nat)
    requires 0 < |sizes| && forall i :: 0 <= i < |sizes| ==> 0 < sizes[i]
    ensures WellFormed(NewWheels<T>(sizes))
    ensures TotalSteps(NewWheels<T>(sizes), k) == StepsFrom(sizes, 0, k)
    ensures (forall i :: 0 <= i < |sizes| ==> 2 <= sizes[i]) ==> TotalSteps(NewWheels<T>(sizes), k) <= 2 * k
  {
    NewCursors<T>(sizes);
    hide *;
    var ws := NewWheels<T>(sizes);
    TotalStepsCount(ws, sizes, 0, k, k);
    ZeroSteps(sizes, 0);
    if forall i :: 0 <= i < |sizes| ==> 2 <= sizes[i] {
      StepsAtMostDouble(sizes, 0, k);
    }
  }

  lemma NewCursors<T>(sizes: seq<nat>)
    requires 0 < |sizes| && forall i :: 0 <= i < |sizes| ==> 0 < sizes[i]
    ensures WellFormed(NewWheels<T>(sizes)) && Sizes(NewWheels<T>(sizes)) == sizes
    ensures Odometer(NewWheels<T>(sizes), 0, 0)
  {
    var ws := NewWheels<T>(sizes);
    NewWheelsWellFormed<T>(sizes);
    forall w | 0 <= w < |ws| ensures ws[w].curr == 0 && ws[w].numBuckets == sizes[w] {
      NewWheelAt<T>(sizes, w);
    }
    assert Sizes(ws) == sizes;
    FreshOdometer(ws, 0);
  }

  // ---------- The cursor of one wheel ----------

  /** The cursor steps of wheel `v` alone that a cascade into wheel `w - 1` makes. */
  ghost function LoadStepsOf<T>(ws: seq<Wheel<T>>, w: nat, v: nat): (r: nat)
    requires WellFormed(ws)
    decreases |ws| - w
  {
    if w >= |ws| || w == 0 then 0
    else
      var ws1 := LoadOne(ws, w);
      (if w == v then 1 else 0) + if ws1[w].curr == 0 then LoadStepsOf(ws1, w + 1, v) else 0
  }

  ghost function TickStepsOf<T>(ws: seq<Wheel<T>>, v: nat): (r: nat)
    requires WellFormed(ws)
  {
    (if v == 0 then 1 else 0) + if BottomStep(ws)[0].curr == 0 then LoadStepsOf(BottomStep(ws), 1, v) else 0
  }

  ghost function StepsOf<T>(ws: seq<Wheel<T>>, k: nat, v: nat): (r: nat)
    requires WellFormed(ws)
  {
    if k == 0 then 0 else StepsOf(ws, k - 1, v) + TickStepsOf(TickMany(ws, k - 1).0, v)
  }

  /** The steps wheel `v` has made when wheel `w` below it has made `q`. */
  ghost function Carried(sizes: seq<nat>, w: nat, q: nat, v: nat): (r: nat)
    requires forall i :: 0 <= i < |sizes| ==> 0 < sizes[i]
    decreases |sizes| - w
  {
    if w >= |sizes| then 0 else if w == v then q else Carried(sizes, w + 1, q / sizes[w], v)
  }

  lemma {:induction false} PastSteps<T>(ws: seq<Wheel<T>>, w: nat, v: nat)
    requires WellFormed(ws) && v < w
    ensures LoadStepsOf(ws, w, v) == 0
    decreases |ws| - w
  {
    if w < |ws| && LoadOne(ws, w)[w].curr == 0 {
      PastSteps(LoadOne(ws, w), w + 1, v);
    }
  }

  lemma {:induction false} LoadStepsOfCount<T>(ws: seq<Wheel<T>>, sizes: seq<nat>, w: nat, q: nat, v: nat)
    requires WellFormed(ws) && sizes == Sizes(ws) && 1 <= w <= |ws| && Odometer(ws, w, q) && w <= v
    ensures LoadStepsOf(ws, w, v) == Carried(sizes, w, q + 1, v) - Carried(sizes, w, q, v)
    decreases |ws| - w
  {
    if w < |ws| {
      var ws1, n := LoadOne(ws, w), sizes[w];
      DivModSuccessor(q, n);
      if ws1[w].curr == 0 {
        if w == v {
          PastSteps(ws1, w + 1, v);
        } else {
          OdometerFramed(ws, ws1, w + 1, q / n);
          SizesSame(ws, ws1);
          LoadStepsOfCount(ws1, sizes, w + 1, q / n, v);
        }
      }
    }
  }

  lemma TickStepsOfCount<T>(ws: seq<Wheel<T>>, sizes: seq<nat>, now: nat, v: nat)
    requires WellFormed(ws) && sizes == Sizes(ws) && Odometer(ws, 0, now)
    ensures TickStepsOf(ws, v) == Carried(sizes, 0, now + 1, v) - Carried(sizes, 0, now, v)
  {
    var ws1, n := BottomStep(ws), sizes[0];
    DivModSuccessor(now, n);
    if ws1[0].curr == 0 {
      if v == 0 {
        PastSteps(ws1, 1, v);
      } else {
        OdometerFramed(ws, ws1, 1, now / n);
        SizesSame(ws, ws1);
        LoadStepsOfCount(ws1, sizes, 1, now / n, v);
      }
    }
  }

  lemma {:induction false} StepsOfCount<T>(ws: seq<Wheel<T>>, sizes: seq<nat>, now: nat, k: nat, end: nat, v: nat)
    requires WellFormed(ws) && sizes == Sizes(ws) && Odometer(ws, 0, now) && end == now + k
    ensures Odometer(TickMany(ws, k).0, 0, end)
    ensures StepsOf(ws, k, v) == Carried(sizes, 0, end, v) - Carried(sizes, 0, now, v)
    decreases k
  {
    hide WellFormed, Odometer, Carried, TickStepsOf, Tick, Sizes;
    if k > 0 {
      StepsOfCount(ws, sizes, now, k - 1, end - 1, v);
      TickManyStep(ws, k);
      var ws1 := TickMany(ws, k - 1).0;
      SizesSame(ws, ws1);
      TickStepsOfCount(ws1, sizes, end - 1, v);
      TickOdometer(ws1, end - 1);
      assert end - 1 + 1 == end;
    }
  }

  lemma {:induction false} CarriedClosedForm(sizes: seq<nat>, w: nat, b: nat, now: nat, v: nat)
    requires forall i :: 0 <= i < |sizes| ==> 0 < sizes[i]
    requires w <= v < |sizes| && b == Span(sizes[..w]) && 0 < b
    ensures 0 < Span(sizes[..v]) && Carried(sizes, w, now / b, v) == now / Span(sizes[..v])
    decreases |sizes| - w
  {
    if w < v {
      SpanPrefix(sizes, w);
      DivModProduct(now, b, sizes[w]);
      CarriedClosedForm(sizes, w + 1, b * sizes[w], now, v);
    }
  }

  /** After `k` ticks of a new hierarchy the cursor of wheel `v` has stepped exactly k / b_v times. */
  lemma StepsOfWheel<T>(sizes: seq<nat>, k: nat, v: nat)
    requires v < |sizes| && forall i :: 0 <= i < |sizes| ==> 0 < sizes[i]
    ensures WellFormed(NewWheels<T>(sizes)) && 0 < Span(sizes[..v])
    ensures StepsOf(NewWheels<T>(sizes), k, v) == k / Span(sizes[..v])
  {
    hide WellFormed, NewWheels, StepsOf, Odometer, TickMany, Carried;
    NewCursors<T>(sizes);
    StepsOfCount(NewWheels<T>(sizes), sizes, 0, k, k, v);
    EmptySpan(sizes);
    CarriedClosedForm(sizes, 0, 1, k, v);
    CarriedClosedForm(sizes, 0, 1, 0, v);
    DivModUnique(0, Span(sizes[..v]), 0, 0);
    DivModUnique(k, 1, k, 0);
    DivModUnique(0, 1, 0, 0);
  }

  lemma EmptySpan(sizes: seq<nat>)
    ensures Span(sizes[..0]) == 1
  {
    assert sizes[..0] == [];
  }
}
