/** The hierarchical wheel refines the plain list of (due tick, timer) pairs. */
module WheelRefinement {
  import opened Arithmetic
  import opened WheelModel
  import opened WheelMeaning
  import opened WheelCascade
  import opened TimerAgenda

  ghost function Sizes<T>(ws: seq<Wheel<T>>): (r: seq<nat>)
    requires WellFormed(ws)
    ensures |r| == |ws|
    ensures forall i :: 0 <= i < |r| ==> 0 < r[i] == ws[i].numBuckets
  {
    seq(|ws|, i requires 0 <= i < |ws| => ws[i].numBuckets)
  }

  lemma SizesSame<T>(ws: seq<Wheel<T>>, vs: seq<Wheel<T>>)
    requires WellFormed(ws) && WellFormed(vs) && SameSizes(ws, vs)
    ensures Sizes(ws) == Sizes(vs)
  {
  }

  lemma {:induction false} TicksPerBucketIsSpan<T>(ws: seq<Wheel<T>>, w: nat)
    requires WellFormed(ws) && w < |ws|
    ensures ws[w].ticksPerBucket == Span(Sizes(ws)[..w])
    ensures ws[w].Capacity() == Span(Sizes(ws)[..w + 1])
  {
    if w > 0 {
      TicksPerBucketIsSpan(ws, w - 1);
      assert ws[w].ticksPerBucket == ws[w - 1].Capacity();
    }
    SpanPrefix(Sizes(ws), w);
  }

  lemma BoundedByTotal<T>(ws: seq<Wheel<T>>)
    requires WellFormed(ws) && ValidSizes(Sizes(ws))
    ensures Bounded(ws)
  {
    forall w | 0 <= w < |ws| ensures ws[w].Capacity() <= HALF_SIZE_MODULUS {
      TicksPerBucketIsSpan(ws, w);
      TotalPrefix(Sizes(ws), w);
    }
  }

  // ---------- Placing one timer ----------

  lemma CircleInjective(c: nat, n: nat, x: nat, y: nat)
    requires c < n && x < n && y < n
    ensures (c + x) % n == (c + y) % n <==> x == y
  {
    DivModUnique(c + x, n, if c + x < n then 0 else 1, if c + x < n then c + x else c + x - n);
    DivModUnique(c + y, n, if c + y < n then 0 else 1, if c + y < n then c + y else c + y - n);
  }

  /** Within one wheel, a pushed timer shows for its own delay and no other. */
  lemma PushBucket<T>(wheel: Wheel<T>, left: nat, delay: nat, timer: T)
    requires wheel.WellFormed() && left < wheel.Capacity() && delay < wheel.Capacity()
    ensures var b := wheel.ticksPerBucket;
      var j := (wheel.curr + left / b) % wheel.numBuckets;
      Pick(BucketAt(wheel.Push(j, Entry(left % b, timer)), delay), delay % b)
      == Pick(BucketAt(wheel, delay), delay % b) + (if delay == left then [timer] else [])
  {
    var b, n, c := wheel.ticksPerBucket, wheel.numBuckets, wheel.curr;
    var j, jd := (c + left / b) % n, (c + delay / b) % n;
    var e := Entry(left % b, timer);
    SameSlot(c, n, b, left, delay);
    assert BucketAt(wheel, delay) == wheel.buckets[jd];
    assert BucketAt(wheel.Push(j, e), delay) == wheel.Push(j, e).buckets[jd];
    if jd == j {
      assert wheel.Push(j, e).buckets[jd] == wheel.buckets[j] + [e];
      PickPush(wheel.buckets[j], e, delay % b);
    } else {
      assert wheel.Push(j, e).buckets[jd] == wheel.buckets[jd];
    }
  }

  /** Two delays within a wheel share bucket and offset exactly when they are equal. */
  lemma SameSlot(c: nat, n: nat, b: nat, x: nat, y: nat)
    requires c < n && 0 < b && x < n * b && y < n * b
    ensures x == y <==> (c + x / b) % n == (c + y / b) % n && x % b == y % b
  {
    DivBelow(x, b, n);
    DivBelow(y, b, n);
    DivModDetermine(x, y, b);
    CircleInjective(c, n, x / b, y / b);
  }

  /** Reducing the ticks left by whole turns of the wheel changes neither bucket nor offset. */
  lemma PlaceModulo<T>(wheel: Wheel<T>, left: nat)
    requires wheel.WellFormed()
    ensures 0 < wheel.Capacity()
    ensures var b, n := wheel.ticksPerBucket, wheel.numBuckets;
      var left' := left % wheel.Capacity();
      && (wheel.curr + left / b) % n == (wheel.curr + left' / b) % n
      && left % b == left' % b
  {
    var b, n := wheel.ticksPerBucket, wheel.numBuckets;
    MulPositive(n, b);
    var k, left' := left / (n * b), left % (n * b);
    assert left == left' + k * (n * b);
    assert k * (n * b) == (k * n) * b;
    DivModShift(left', b, k * n);
    assert wheel.curr + left / b == (wheel.curr + left' / b) + k * n;
    DivModShift(wheel.curr + left' / b, n, k);
  }

  /** The tick a timer placed in wheel `w` with `left` ticks is due at, when that wheel's window begins at `start`. */
  ghost function PlacedTick<T>(ws: seq<Wheel<T>>, w: nat, start: nat, left: nat): (r: nat)
    requires WellFormed(ws) && w < |ws|
  {
    MulPositive(ws[w].numBuckets, ws[w].ticksPerBucket);
    start + if w == |ws| - 1 then left % ws[w].Capacity() else left
  }

  /** The tick wheel `w` begins at, counting windows from wheel `i` beginning at `start`. */
  ghost function WindowStart<T>(ws: seq<Wheel<T>>, i: nat, start: nat, w: nat): (r: nat)
    requires WellFormed(ws) && i <= w < |ws|
    ensures start <= r
    decreases w - i
  {
    if i == w then start
    else
      assert 0 <= (ws[i].numBuckets - ws[i].curr) * ws[i].ticksPerBucket by {
        MulMonotone(0, ws[i].numBuckets - ws[i].curr, ws[i].ticksPerBucket);
      }
      WindowStart(ws, i + 1, WindowEnd(ws, i, start), w)
  }

  lemma PlaceHere<T>(ws: seq<Wheel<T>>, w: nat, start: nat, left: nat, timer: T, due: nat)
    requires WellFormed(ws) && w < |ws| && Fits(ws, w, left) && start <= due
    ensures ViewFrom(PlaceAt(ws, w, left, timer), w, start, due)
         == ViewFrom(ws, w, start, due) + (if due == PlacedTick(ws, w, start, left) then [timer] else [])
  {
    var wheel, vs := ws[w], PlaceAt(ws, w, left, timer);
    var b, n, c := wheel.ticksPerBucket, wheel.numBuckets, wheel.curr;
    PlaceModulo(wheel, left);
    assert WindowEnd(vs, w, start) == WindowEnd(ws, w, start);
    var left' := PlacedTick(ws, w, start, left) - start;
    assert left' < wheel.Capacity() && start + left' < WindowEnd(ws, w, start) by {
      if w < |ws| - 1 {
        DivBelow(left, b, n - c);
        MulMonotone(n - c, n, b);
      }
    }
    if due < WindowEnd(ws, w, start) {
      if w < |ws| - 1 {
        MulMonotone(n - c, n, b);
      }
      PushBucket(wheel, left', due - start, timer);
    } else {
      ViewFramed(ws, vs, w + 1, WindowEnd(ws, w, start), due);
    }
  }

  lemma {:induction false} PlaceMeaning<T>(ws: seq<Wheel<T>>, i: nat, start: nat, w: nat, left: nat, timer: T, due: nat)
    requires WellFormed(ws) && i <= w < |ws| && Fits(ws, w, left) && start <= due
    ensures ViewFrom(PlaceAt(ws, w, left, timer), i, start, due)
         == ViewFrom(ws, i, start, due)
            + (if due == PlacedTick(ws, w, WindowStart(ws, i, start, w), left) then [timer] else [])
    decreases w - i
  {
    if i == w {
      PlaceHere(ws, w, start, left, timer, due);
    } else {
      var vs := PlaceAt(ws, w, left, timer);
      assert vs[i] == ws[i];
      var end := WindowEnd(ws, i, start);
      assert WindowEnd(vs, i, start) == end;
      if due < end {
        assert end <= WindowStart(ws, i, start, w);
      } else {
        PlaceMeaning(ws, i + 1, end, w, left, timer, due);
      }
    }
  }
}
