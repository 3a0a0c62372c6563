/** The absolute due tick of every stored timer, and why cascading and ticking never change it. */
module WheelMeaning {
  import opened Arithmetic
  import opened WheelModel

  /** The timers of a bucket stored at one offset, in order. */
  ghost function Pick<T>(bucket: seq<Entry<T>>, offset: nat): (r: seq<T>)
  {
    if bucket == [] then []
    else
      var last := bucket[|bucket| - 1];
      Pick(bucket[..|bucket| - 1], offset) + (if last.offset == offset then [last.timer] else [])
  }

  /** The first tick past wheel `w`, when `start` is the tick its current bucket begins at. */
  ghost function WindowEnd<T>(ws: seq<Wheel<T>>, w: nat, start: nat): (r: nat)
    requires WellFormed(ws) && w < |ws|
  {
    if w == |ws| - 1 then start + ws[w].Capacity()
    else start + (ws[w].numBuckets - ws[w].curr) * ws[w].ticksPerBucket
  }

  /** The bucket of `wheel` that stands for tick `start + delay`. */
  ghost function BucketAt<T>(wheel: Wheel<T>, delay: nat): (r: seq<Entry<T>>)
    requires wheel.WellFormed()
  {
    wheel.buckets[(wheel.curr + delay / wheel.ticksPerBucket) % wheel.numBuckets]
  }

  /** The timers in wheels `w` and above that are due at tick `due`, oldest first. */
  ghost function ViewFrom<T>(ws: seq<Wheel<T>>, w: nat, start: nat, due: nat): (r: seq<T>)
    requires WellFormed(ws) && w <= |ws| && start <= due
    decreases |ws| - w
  {
    if w == |ws| then []
    else if due < WindowEnd(ws, w, start) then
      Pick(BucketAt(ws[w], due - start), (due - start) % ws[w].ticksPerBucket)
    else ViewFrom(ws, w + 1, WindowEnd(ws, w, start), due)
  }

  /** The timers due at tick `due` when `now` ticks have been processed. */
  ghost function View<T>(ws: seq<Wheel<T>>, now: nat, due: nat): (r: seq<T>)
    requires WellFormed(ws) && now <= due
  {
    ViewFrom(ws, 0, now, due)
  }

  /** Offsets stay within their bucket. */
  ghost predicate OffsetsBounded<T>(wheel: Wheel<T>) {
    forall j, i :: 0 <= j < |wheel.buckets| && 0 <= i < |wheel.buckets[j]| ==>
      wheel.buckets[j][i].offset < wheel.ticksPerBucket
  }

  /** Nothing is stored behind the cursor. */
  ghost predicate BehindEmpty<T>(wheel: Wheel<T>) {
    forall j :: 0 <= j < wheel.curr && j < |wheel.buckets| ==> wheel.buckets[j] == []
  }

  ghost predicate WheelOk<T>(ws: seq<Wheel<T>>, w: nat)
    requires w < |ws|
  {
    OffsetsBounded(ws[w]) && (w < |ws| - 1 ==> BehindEmpty(ws[w]))
  }

  ghost predicate OkFrom<T>(ws: seq<Wheel<T>>, w: nat) {
    forall i :: w <= i < |ws| ==> WheelOk(ws, i)
  }

  /** The cursors read as an odometer: `q` is how often the cursor of wheel `w` has stepped. */
  ghost predicate Odometer<T>(ws: seq<Wheel<T>>, w: nat, q: nat)
    requires WellFormed(ws)
    decreases |ws| - w
  {
    w < |ws| ==> ws[w].curr == q % ws[w].numBuckets && Odometer(ws, w + 1, q / ws[w].numBuckets)
  }

  /** What holds of every reachable state after `now` ticks. */
  ghost predicate Inv<T>(ws: seq<Wheel<T>>, now: nat) {
    WellFormed(ws) && OkFrom(ws, 0) && Odometer(ws, 0, now)
  }

  // ---------- Picking ----------

  lemma PickPush<T>(bucket: seq<Entry<T>>, e: Entry<T>, offset: nat)
    ensures Pick(bucket + [e], offset) == Pick(bucket, offset) + (if e.offset == offset then [e.timer] else [])
  {
    assert (bucket + [e])[..|bucket|] == bucket;
  }

  /** If every offset of a bucket is `offset`, picking it returns all of its timers. */
  lemma {:induction false} PickAll<T>(bucket: seq<Entry<T>>, offset: nat)
    requires forall i :: 0 <= i < |bucket| ==> bucket[i].offset == offset
    ensures Pick(bucket, offset) == Timers(bucket)
  {
    if bucket != [] {
      var low := bucket[..|bucket| - 1];
      PickAll(low, offset);
      assert Timers(bucket) == Timers(low) + [bucket[|bucket| - 1].timer];
    }
  }

  // ---------- Cascading ----------

  /** Into an empty wheel at cursor 0, offset `o` of the bucket above lands in bucket `o / b` at offset `o % b`. */
  lemma {:induction false} PlaceAllMeaning<T>(below: Wheel<T>, es: seq<Entry<T>>, delay: nat)
    requires below.WellFormed() && below.curr == 0 && below.IsEmpty()
    requires delay < below.Capacity() <= HALF_SIZE_MODULUS
    requires forall i :: 0 <= i < |es| ==> es[i].offset < below.Capacity()
    ensures Pick(BucketAt(PlaceAllBelow(below, es), delay), delay % below.ticksPerBucket) == Pick(es, delay)
    decreases |es|
  {
    if es != [] {
      var low, e := es[..|es| - 1], es[|es| - 1];
      PlaceAllMeaning(below, low, delay);
      var mid := PlaceAllBelow(below, low);
      var b := below.ticksPerBucket;
      PlaceOneMeaning(mid, e, delay);
      assert PlaceAllBelow(below, es) == PlaceBelow(mid, e);
    }
  }

  lemma PlaceOneMeaning<T>(mid: Wheel<T>, e: Entry<T>, delay: nat)
    requires mid.WellFormed() && mid.curr == 0
    requires delay < mid.Capacity() <= HALF_SIZE_MODULUS && e.offset < mid.Capacity()
    ensures Pick(BucketAt(PlaceBelow(mid, e), delay), delay % mid.ticksPerBucket)
         == Pick(BucketAt(mid, delay), delay % mid.ticksPerBucket) + (if e.offset == delay then [e.timer] else [])
  {
    var b := mid.ticksPerBucket;
    LandsAt(mid, e.offset);
    LandsAt(mid, delay);
    var j := BucketBelow(mid, e.offset);
    var moved := Entry(e.offset % b, e.timer);
    assert PlaceBelow(mid, e) == mid.Push(j, moved);
    if j == delay / b {
      PickPush(mid.buckets[j], moved, delay % b);
    }
    DivModDetermine(e.offset, delay, b);
  }

  /** The arithmetic of a cascade never underflows: the new offset is the old one modulo the bucket size below. */
  lemma LandsAt<T>(below: Wheel<T>, offset: nat)
    requires below.WellFormed() && below.curr == 0 && offset < below.Capacity() <= HALF_SIZE_MODULUS
    ensures BucketBelow(below, offset) == offset / below.ticksPerBucket
    ensures SizeSub(offset, BucketBelow(below, offset) * below.ticksPerBucket) == offset % below.ticksPerBucket
  {
    var b := below.ticksPerBucket;
    var q, r := offset / b, offset % b;
    DivBelow(offset, b, below.numBuckets);
    DivModUnique(q, below.numBuckets, 0, q);
    assert offset == q * b + r && 0 <= q * b;
  }

  /** A cascade keeps offsets bounded in the wheel below. */
  lemma {:induction false} PlaceAllBounded<T>(below: Wheel<T>, es: seq<Entry<T>>)
    requires below.WellFormed() && below.curr == 0 && OffsetsBounded(below)
    requires below.Capacity() <= HALF_SIZE_MODULUS
    requires forall i :: 0 <= i < |es| ==> es[i].offset < below.Capacity()
    ensures OffsetsBounded(PlaceAllBelow(below, es))
    decreases |es|
  {
    if es != [] {
      PlaceAllBounded(below, es[..|es| - 1]);
      LandsAt(PlaceAllBelow(below, es[..|es| - 1]), es[|es| - 1].offset);
    }
  }

  /** Wheel `w - 1` has just wrapped: it is empty at cursor 0 and waits for the current bucket of `w`. */
  ghost predicate LoadReady<T>(ws: seq<Wheel<T>>, w: nat) {
    && WellFormed(ws)
    && 1 <= w < |ws|
    && ws[w - 1].curr == 0
    && ws[w - 1].IsEmpty()
    && OkFrom(ws, w)
  }

  /** No wheel spans more ticks than half the size type. */
  ghost predicate Bounded<T>(ws: seq<Wheel<T>>) {
    forall w :: 0 <= w < |ws| ==> ws[w].Capacity() <= HALF_SIZE_MODULUS
  }

  lemma LoadOneOk<T>(ws: seq<Wheel<T>>, w: nat)
    requires LoadReady(ws, w) && Bounded(ws)
    ensures var ws1 := LoadOne(ws, w);
      && ws1[w - 1].curr == 0
      && OkFrom(ws1, w - 1)
      && Bounded(ws1)
      && (forall i :: 0 <= i < |ws| && i != w && i != w - 1 ==> ws1[i] == ws[i])
      && (ws1[w].curr == 0 && w < |ws| - 1 ==> LoadReady(ws1, w + 1))
  {
    var ws1 := LoadOne(ws, w);
    var below, above := ws[w - 1], ws[w];
    assert WheelOk(ws, w);
    assert above.ticksPerBucket == below.Capacity();
    assert below.Capacity() <= HALF_SIZE_MODULUS;
    PlaceAllBounded(below, above.buckets[above.curr]);
    StepKeepsOk(above);
    assert ws1[w - 1] == PlaceAllBelow(below, above.buckets[above.curr]) && ws1[w] == above.Step();
    assert WheelOk(ws1, w - 1) && WheelOk(ws1, w);
    forall i | w + 1 <= i < |ws1| ensures WheelOk(ws1, i) {
      assert WheelOk(ws, i);
    }
    BoundedSameSizes(ws, ws1);
  }

  lemma BoundedSameSizes<T>(ws: seq<Wheel<T>>, vs: seq<Wheel<T>>)
    requires Bounded(ws) && SameSizes(ws, vs)
    ensures Bounded(vs)
  {
    forall i | 0 <= i < |vs| ensures vs[i].Capacity() <= HALF_SIZE_MODULUS {
      assert ws[i].Capacity() <= HALF_SIZE_MODULUS;
    }
  }

  /** Stepping keeps offsets bounded; a wheel with nothing behind its cursor keeps that, and is empty when it wraps. */
  lemma StepKeepsOk<T>(wheel: Wheel<T>)
    requires wheel.WellFormed() && OffsetsBounded(wheel)
    ensures OffsetsBounded(wheel.Step())
    ensures BehindEmpty(wheel) ==> BehindEmpty(wheel.Step())
    ensures BehindEmpty(wheel) && wheel.Step().curr == 0 ==> wheel.Step().IsEmpty()
  {
    var c, n := wheel.curr, wheel.numBuckets;
    DivModUnique(c + 1, n, if c + 1 == n then 1 else 0, if c + 1 == n then 0 else c + 1);
    assert forall j :: 0 <= j < n ==> wheel.Step().buckets[j] == if j == c then [] else wheel.buckets[j];
  }

  /** The bucket for a tick keeps its index when the cursor steps and the delay shrinks by one bucket. */
  lemma StepIndex<T>(wheel: Wheel<T>, delay: nat)
    requires wheel.WellFormed() && wheel.ticksPerBucket <= delay
    ensures var b, n, c := wheel.ticksPerBucket, wheel.numBuckets, wheel.curr;
      && ((c + 1) % n + (delay - b) / b) % n == (c + delay / b) % n
      && (delay - b) % b == delay % b
  {
    var b, n, c := wheel.ticksPerBucket, wheel.numBuckets, wheel.curr;
    DivModShift(delay - b, b, 1);
    ModAdd(c + 1, (delay - b) / b, n);
  }

  /** Stepping the top wheel frees its current bucket for the ticks one full turn later. */
  lemma TopStep<T>(wheel: Wheel<T>, delay: nat)
    requires wheel.WellFormed() && wheel.ticksPerBucket <= delay
    ensures var b, n, c := wheel.ticksPerBucket, wheel.numBuckets, wheel.curr;
      var j := (c + delay / b) % n;
      && (delay < n * b ==> j != c)
      && (n * b <= delay < n * b + b ==> j == c)
  {
    TurnIndex(wheel.curr, wheel.numBuckets, wheel.ticksPerBucket, delay);
  }

  /** Below the top, a bucket past the current one is untouched by a step. */
  lemma LowerStep<T>(wheel: Wheel<T>, delay: nat)
    requires wheel.WellFormed() && wheel.ticksPerBucket <= delay
    ensures var b, n, c := wheel.ticksPerBucket, wheel.numBuckets, wheel.curr;
      delay < (n - c) * b ==> (c + delay / b) % n == c + delay / b && delay / b > 0
  {
    var b, n, c := wheel.ticksPerBucket, wheel.numBuckets, wheel.curr;
    DivBelow(delay, b, n - c);
    DivBelow(delay, b, 1);
    if delay < (n - c) * b {
      DivModUnique(c + delay / b, n, 0, c + delay / b);
    }
  }

  /** Stepping a wheel moves its window forward by one bucket and changes no due tick in it. */
  lemma StepBucket<T>(wheel: Wheel<T>, delay: nat, top: bool)
    requires wheel.WellFormed() && wheel.ticksPerBucket <= delay
    requires delay < if top then wheel.Capacity() else (wheel.numBuckets - wheel.curr) * wheel.ticksPerBucket
    ensures BucketAt(wheel.Step(), delay - wheel.ticksPerBucket) == BucketAt(wheel, delay)
  {
    StepIndex(wheel, delay);
    if top { TopStep(wheel, delay); } else { LowerStep(wheel, delay); }
  }

  lemma StepMeaningLower<T>(ws: seq<Wheel<T>>, vs: seq<Wheel<T>>, w: nat, start: nat, due: nat)
    requires WellFormed(ws) && WellFormed(vs) && SameSizes(ws, vs) && w < |ws| - 1
    requires vs[w] == ws[w].Step() && ws[w].curr + 1 < ws[w].numBuckets
    requires forall i :: w < i < |ws| ==> vs[i] == ws[i]
    requires start + ws[w].ticksPerBucket <= due
    ensures ViewFrom(vs, w, start + ws[w].ticksPerBucket, due) == ViewFrom(ws, w, start, due)
  {
    var wheel := ws[w];
    var b := wheel.ticksPerBucket;
    assert (wheel.numBuckets - wheel.curr) * b == (wheel.numBuckets - (wheel.curr + 1)) * b + b;
    assert vs[w].curr == wheel.curr + 1;
    assert WindowEnd(vs, w, start + b) == WindowEnd(ws, w, start);
    hide WellFormed;
    if due < WindowEnd(ws, w, start) {
      StepIndex(wheel, due - start);
      StepBucket(wheel, due - start, false);
    } else {
      ViewFramed(ws, vs, w + 1, WindowEnd(ws, w, start), due);
    }
  }

  lemma StepMeaningTop<T>(ws: seq<Wheel<T>>, vs: seq<Wheel<T>>, start: nat, due: nat)
    requires WellFormed(ws) && WellFormed(vs) && SameSizes(ws, vs)
    requires vs[|ws| - 1] == ws[|ws| - 1].Step()
    requires start + ws[|ws| - 1].ticksPerBucket <= due
    ensures ViewFrom(vs, |ws| - 1, start + ws[|ws| - 1].ticksPerBucket, due) == ViewFrom(ws, |ws| - 1, start, due)
  {
    var w := |ws| - 1;
    var wheel := ws[w];
    var b := wheel.ticksPerBucket;
    StepIndex(wheel, due - start);
    if due < start + wheel.Capacity() {
      StepBucket(wheel, due - start, true);
    } else if due < start + b + wheel.Capacity() {
      TopStep(wheel, due - start);
      assert BucketAt(vs[w], due - start - b) == [];
    }
  }

  /** Wheels below `w` do not matter to the view from `w`. */
  lemma {:induction false} ViewFramed<T>(ws: seq<Wheel<T>>, vs: seq<Wheel<T>>, w: nat, start: nat, due: nat)
    requires WellFormed(ws) && WellFormed(vs) && |ws| == |vs| && w <= |ws|
    requires forall i :: w <= i < |ws| ==> vs[i] == ws[i]
    ensures start <= due ==> ViewFrom(vs, w, start, due) == ViewFrom(ws, w, start, due)
    decreases |ws| - w
  {
    if start <= due && w < |ws| && due >= WindowEnd(ws, w, start) {
      ViewFramed(ws, vs, w + 1, WindowEnd(ws, w, start), due);
    }
  }
}
