/** The hierarchical timing wheel as a value: its wheels, and what each operation does to them. */
module WheelModel {
  import opened Arithmetic

  /** Sizes are 64-bit unsigned in the source, and subtraction on them wraps. */
  const SIZE_MODULUS: nat := 0x1_0000_0000_0000_0000
  const HALF_SIZE_MODULUS: nat := 0x8000_0000_0000_0000

  function SizeSub(a: nat, b: nat): (r: nat)
    ensures r < SIZE_MODULUS
    ensures b <= a < SIZE_MODULUS ==> r == a - b
    ensures a < b <= SIZE_MODULUS ==> r == a - b + SIZE_MODULUS
  {
    if b <= a < SIZE_MODULUS then a - b
    else if a < b <= SIZE_MODULUS then a - b + SIZE_MODULUS
    else (a - b) % SIZE_MODULUS
  }

  datatype Entry<T> = Entry(offset: nat, timer: T)

  datatype Wheel<T> = Wheel(numBuckets: nat, ticksPerBucket: nat, curr: nat, buckets: seq<seq<Entry<T>>>) {
    ghost predicate WellFormed() {
      curr < numBuckets == |buckets| && 0 < ticksPerBucket
    }

    ghost predicate IsEmpty() {
      forall j :: 0 <= j < |buckets| ==> buckets[j] == []
    }

    function Capacity(): nat {
      numBuckets * ticksPerBucket
    }

    /** Appends one entry to bucket `j`. */
    function Push(j: nat, e: Entry<T>): (r: Wheel<T>)
      requires j < |buckets|
    {
      this.(buckets := buckets[j := buckets[j] + [e]])
    }

    /** Empties the current bucket and steps the cursor. */
    function Step(): (r: Wheel<T>)
      requires WellFormed()
    {
      this.(buckets := buckets[curr := []], curr := (curr + 1) % numBuckets)
    }
  }

  function Timers<T>(bucket: seq<Entry<T>>): (r: seq<T>)
    ensures |r| == |bucket|
    ensures forall i :: 0 <= i < |r| ==> r[i] == bucket[i].timer
  {
    seq(|bucket|, i requires 0 <= i < |bucket| => bucket[i].timer)
  }

  /** Every wheel fits into one bucket of the wheel above it. */
  ghost predicate WellFormed<T>(ws: seq<Wheel<T>>) {
    && 0 < |ws|
    && ws[0].ticksPerBucket == 1
    && (forall w :: 0 <= w < |ws| ==> ws[w].WellFormed())
    && (forall w :: 0 <= w < |ws| - 1 ==> ws[w + 1].ticksPerBucket == ws[w].Capacity())
  }

  ghost predicate SameSizes<T>(ws: seq<Wheel<T>>, vs: seq<Wheel<T>>) {
    && |ws| == |vs|
    && forall w :: 0 <= w < |ws| ==>
        ws[w].numBuckets == vs[w].numBuckets && ws[w].ticksPerBucket == vs[w].ticksPerBucket
  }

  // ---------- Cascading ----------

  function BucketBelow<T>(below: Wheel<T>, offset: nat): (j: nat)
    requires below.WellFormed()
    ensures j < |below.buckets|
  {
    (below.curr + offset / below.ticksPerBucket) % below.numBuckets
  }

  function PlaceBelow<T>(below: Wheel<T>, e: Entry<T>): (r: Wheel<T>)
    requires below.WellFormed()
    ensures r.WellFormed() && r.(buckets := below.buckets) == below
  {
    var j := BucketBelow(below, e.offset);
    below.Push(j, Entry(SizeSub(e.offset, j * below.ticksPerBucket), e.timer))
  }

  function PlaceAllBelow<T>(below: Wheel<T>, es: seq<Entry<T>>): (r: Wheel<T>)
    requires below.WellFormed()
    ensures r.WellFormed() && r.(buckets := below.buckets) == below
    decreases |es|
  {
    if es == [] then below
    else PlaceBelow(PlaceAllBelow(below, es[..|es| - 1]), es[|es| - 1])
  }

  /** Moves the current bucket of wheel `w` into wheel `w - 1` and steps the cursor of `w`. */
  function LoadOne<T>(ws: seq<Wheel<T>>, w: nat): (r: seq<Wheel<T>>)
    requires WellFormed(ws) && 1 <= w < |ws|
    ensures WellFormed(r) && SameSizes(ws, r)
  {
    ws[w - 1 := PlaceAllBelow(ws[w - 1], ws[w].buckets[ws[w].curr])][w := ws[w].Step()]
  }

  function Load<T>(ws: seq<Wheel<T>>, w: nat): (r: seq<Wheel<T>>)
    requires WellFormed(ws)
    ensures WellFormed(r) && SameSizes(ws, r)
    decreases |ws| - w
  {
    if w >= |ws| || w == 0 then ws
    else
      var ws1 := LoadOne(ws, w);
      if ws1[w].curr == 0 then Load(ws1, w + 1) else ws1
  }

  // ---------- Ticking ----------

  function Tick<T>(ws: seq<Wheel<T>>): (r: (seq<Wheel<T>>, seq<T>))
    requires WellFormed(ws)
    ensures WellFormed(r.0) && SameSizes(ws, r.0)
  {
    var fired := Timers(ws[0].buckets[ws[0].curr]);
    var ws1 := ws[0 := ws[0].Step()];
    (if ws1[0].curr == 0 then Load(ws1, 1) else ws1, fired)
  }

  function TickMany<T>(ws: seq<Wheel<T>>, k: nat): (r: (seq<Wheel<T>>, seq<T>))
    requires WellFormed(ws)
    ensures WellFormed(r.0) && SameSizes(ws, r.0)
  {
    if k == 0 then (ws, [])
    else
      var (ws1, before) := TickMany(ws, k - 1);
      var (ws2, fired) := Tick(ws1);
      (ws2, before + fired)
  }

  lemma TickManyStep<T>(ws: seq<Wheel<T>>, k: nat)
    requires WellFormed(ws) && 0 < k
    ensures TickMany(ws, k).0 == Tick(TickMany(ws, k - 1).0).0
    ensures TickMany(ws, k).1 == TickMany(ws, k - 1).1 + Tick(TickMany(ws, k - 1).0).1
  {
  }

  // ---------- Scheduling ----------

  predicate Fits<T>(ws: seq<Wheel<T>>, w: nat, left: nat)
    requires WellFormed(ws) && w < |ws|
  {
    w == |ws| - 1 || ws[w].curr + left / ws[w].ticksPerBucket < ws[w].numBuckets
  }

  /** The wheel a timer goes to and the ticks left for it there, exactly as the source subtracts. */
  function Determine<T>(ws: seq<Wheel<T>>, w: nat, left: nat): (r: (nat, nat))
    requires WellFormed(ws) && w < |ws|
    ensures w <= r.0 < |ws| && Fits(ws, r.0, r.1)
    decreases |ws| - w
  {
    if Fits(ws, w, left) then (w, left)
    else Determine(ws, w + 1, SizeSub(left, ws[w].Capacity()))
  }

  function PlaceAt<T>(ws: seq<Wheel<T>>, w: nat, left: nat, timer: T): (r: seq<Wheel<T>>)
    requires WellFormed(ws) && w < |ws|
    ensures WellFormed(r) && SameSizes(ws, r)
  {
    var b := ws[w].ticksPerBucket;
    var j := (ws[w].curr + left / b) % ws[w].numBuckets;
    ws[w := ws[w].Push(j, Entry(left % b, timer))]
  }

  function Schedule<T>(ws: seq<Wheel<T>>, t: nat, timer: T): (r: seq<Wheel<T>>)
    requires WellFormed(ws)
    ensures WellFormed(r) && SameSizes(ws, r)
  {
    var (w, left) := Determine(ws, 0, t);
    PlaceAt(ws, w, left, timer)
  }

  // ---------- Construction ----------

  /** The product of the sizes: how many ticks the whole hierarchy spans. */
  function Span(sizes: seq<nat>): (r: nat)
    decreases |sizes|
  {
    if sizes == [] then 1 else Span(sizes[..|sizes| - 1]) * sizes[|sizes| - 1]
  }

  function EmptyWheel<T>(size: nat, ticksPerBucket: nat): (r: Wheel<T>)
  {
    Wheel(size, ticksPerBucket, 0, seq(size, i => []))
  }

  function NewWheels<T>(sizes: seq<nat>): (r: seq<Wheel<T>>)
  {
    seq(|sizes|, w requires 0 <= w < |sizes| => EmptyWheel(sizes[w], Span(sizes[..w])))
  }

  /** How many ticks all wheels hold in total. */
  function TotalTicks(sizes: seq<nat>): (r: nat)
    decreases |sizes|
  {
    if sizes == [] then 0 else TotalTicks(sizes[..|sizes| - 1]) + Span(sizes)
  }

  /** At least one wheel, no wheel of size zero, and tick counts that a size can hold. */
  ghost predicate ValidSizes(sizes: seq<nat>) {
    && 0 < |sizes|
    && (forall w :: 0 <= w < |sizes| ==> 0 < sizes[w])
    && TotalTicks(sizes) <= HALF_SIZE_MODULUS
  }

  lemma {:induction false} SpanPositive(sizes: seq<nat>)
    requires forall w :: 0 <= w < |sizes| ==> 0 < sizes[w]
    ensures 0 < Span(sizes)
    decreases |sizes|
  {
    if sizes != [] {
      SpanPositive(sizes[..|sizes| - 1]);
      MulPositive(Span(sizes[..|sizes| - 1]), sizes[|sizes| - 1]);
    }
  }

  lemma SpanPrefix(sizes: seq<nat>, w: nat)
    requires w < |sizes|
    ensures Span(sizes[..w + 1]) == Span(sizes[..w]) * sizes[w]
  {
    var low := sizes[..w + 1];
    assert low[..|low| - 1] == sizes[..w] && low[|low| - 1] == sizes[w];
  }

  lemma {:induction false} TotalPrefix(sizes: seq<nat>, w: nat)
    requires w < |sizes|
    ensures TotalTicks(sizes[..w + 1]) == TotalTicks(sizes[..w]) + Span(sizes[..w + 1])
    ensures TotalTicks(sizes[..w + 1]) <= TotalTicks(sizes)
    decreases |sizes|
  {
    var low := sizes[..|sizes| - 1];
    if w == |sizes| - 1 {
      assert sizes[..w + 1] == sizes && sizes[..w] == low;
    } else {
      TotalPrefix(low, w);
      assert low[..w + 1] == sizes[..w + 1] && low[..w] == sizes[..w];
    }
  }

  lemma NewWheelAt<T>(sizes: seq<nat>, w: nat)
    requires w < |sizes| && forall i :: 0 <= i < |sizes| ==> 0 < sizes[i]
    ensures NewWheels<T>(sizes)[w].WellFormed() && NewWheels<T>(sizes)[w].IsEmpty()
    ensures NewWheels<T>(sizes)[w].curr == 0
    ensures NewWheels<T>(sizes)[w].numBuckets == sizes[w]
    ensures NewWheels<T>(sizes)[w].ticksPerBucket == Span(sizes[..w])
  {
    SpanPositive(sizes[..w]);
    assert NewWheels<T>(sizes)[w] == EmptyWheel(sizes[w], Span(sizes[..w]));
  }

  lemma NewWheelsWellFormed<T>(sizes: seq<nat>)
    requires 0 < |sizes| && forall w :: 0 <= w < |sizes| ==> 0 < sizes[w]
    ensures WellFormed(NewWheels<T>(sizes))
  {
    forall w | 0 <= w < |sizes| ensures NewWheels<T>(sizes)[w].WellFormed() {
      NewWheelAt<T>(sizes, w);
    }
    forall w | 0 <= w < |sizes| - 1
      ensures NewWheels<T>(sizes)[w + 1].ticksPerBucket == NewWheels<T>(sizes)[w].Capacity()
    {
      SpanPrefix(sizes, w);
      NewWheelAt<T>(sizes, w);
      NewWheelAt<T>(sizes, w + 1);
    }
    NewWheelAt<T>(sizes, 0);
  }
}
