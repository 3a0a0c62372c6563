/** The cells as values: what awaiting, writing and tracking do, one lock-protected body at a time. */
module CellModel {
  import opened Wrappers

  // ---------- Write-once cells ----------

  /** Callbacks registered before the write wait in the cell, in order. */
  datatype OnceCell<T, E, C> = OnceCell(value: Option<Result<T, E>>, callbacks: seq<C>)

  /** A callback handed to the scheduler with the result it is to run on. */
  datatype Delivery<T, E, C> = Delivery(callback: C, result: Result<T, E>)

  function Deliveries<T, E, C>(callbacks: seq<C>, result: Result<T, E>): (r: seq<Delivery<T, E, C>>)
    ensures |r| == |callbacks|
  {
    seq(|callbacks|, i requires 0 <= i < |callbacks| => Delivery(callbacks[i], result))
  }

  /** The cell after a write, whether the write was accepted, and the deliveries queued by it. */
  function OnceWrite<T, E, C>(cell: OnceCell<T, E, C>, result: Result<T, E>)
    : (r: (OnceCell<T, E, C>, bool, seq<Delivery<T, E, C>>))
  {
    if cell.value.Some? then (cell, false, [])
    else (OnceCell(Some(result), []), true, Deliveries(cell.callbacks, result))
  }

  function OnceAwait<T, E, C>(cell: OnceCell<T, E, C>, callback: C)
    : (r: (OnceCell<T, E, C>, seq<Delivery<T, E, C>>))
  {
    if cell.value.Some? then (cell, [Delivery(callback, cell.value.value)])
    else (cell.(callbacks := cell.callbacks + [callback]), [])
  }

  // ---------- Tracking cells ----------

  /** A tracking cell knows its target by the handle `K`; until then callbacks wait in it. */
  datatype TrackingCell<K, C> = TrackingCell(target: Option<K>, callbacks: seq<C>)

  /** An await passed on to another cell. */
  datatype Forward<K, C> = Forward(to: K, callback: C)

  function Forwards<K, C>(to: K, callbacks: seq<C>): (r: seq<Forward<K, C>>)
    ensures |r| == |callbacks|
  {
    seq(|callbacks|, i requires 0 <= i < |callbacks| => Forward(to, callbacks[i]))
  }

  function TrackingAwait<K, C>(cell: TrackingCell<K, C>, callback: C): (r: (TrackingCell<K, C>, seq<Forward<K, C>>)) {
    if cell.target.None? then (cell.(callbacks := cell.callbacks + [callback]), [])
    else (cell, [Forward(cell.target.value, callback)])
  }

  function Track<K, C>(cell: TrackingCell<K, C>, target: K): (r: (TrackingCell<K, C>, bool, seq<Forward<K, C>>)) {
    if cell.target.Some? then (cell, false, [])
    else (TrackingCell(Some(target), []), true, Forwards(target, cell.callbacks))
  }

  // ---------- Contexts of when_all and when_any ----------

  /** The slots of a when_all, and how many children have committed a value. */
  datatype AllContext<T> = AllContext(values: seq<T>, resolved: nat)

  function StoreValue<T>(c: AllContext<T>, i: nat, value: T): (r: AllContext<T>)
    requires i < |c.values|
  {
    c.(values := c.values[i := value])
  }

  /** The atomic increment, and whether it saw every child resolved. */
  function CountResolved<T>(c: AllContext<T>): (r: (AllContext<T>, bool)) {
    (c.(resolved := c.resolved + 1), c.resolved + 1 >= |c.values|)
  }

  /** The errors a when_any has logged, out of `total` children. */
  datatype AnyContext = AnyContext(errors: nat, total: nat)

  function LogError(c: AnyContext): (r: (AnyContext, bool)) {
    (c.(errors := c.errors + 1), c.errors + 1 >= c.total)
  }

  // ---------- Runs of one write-once cell ----------

  function FreshOnce<T, E, C>(): (r: OnceCell<T, E, C>) {
    OnceCell(None, [])
  }

  datatype OnceOp<T, E, C> = Await(callback: C) | Write(result: Result<T, E>)

  function OnceRun<T, E, C>(cell: OnceCell<T, E, C>, ops: seq<OnceOp<T, E, C>>)
    : (r: (OnceCell<T, E, C>, seq<Delivery<T, E, C>>))
    decreases |ops|
  {
    if ops == [] then (cell, [])
    else
      var (before, queued) := OnceRun(cell, ops[..|ops| - 1]);
      match ops[|ops| - 1]
      case Await(callback) => var (after, more) := OnceAwait(before, callback); (after, queued + more)
      case Write(result) => var (after, _, more) := OnceWrite(before, result); (after, queued + more)
  }

  /** The callbacks awaited, in order. */
  function Awaited<T, E, C>(ops: seq<OnceOp<T, E, C>>): (r: seq<C>)
    decreases |ops|
  {
    if ops == [] then []
    else
      var last := ops[|ops| - 1];
      Awaited(ops[..|ops| - 1]) + if last.Await? then [last.callback] else []
  }

  /** The first result written. */
  function FirstWritten<T, E, C>(ops: seq<OnceOp<T, E, C>>): (r: Option<Result<T, E>>)
    decreases |ops|
  {
    if ops == [] then None
    else
      var before, last := FirstWritten(ops[..|ops| - 1]), ops[|ops| - 1];
      if before.Some? then before else if last.Write? then Some(last.result) else None
  }

  lemma DeliveriesPush<T, E, C>(callbacks: seq<C>, callback: C, result: Result<T, E>)
    ensures Deliveries(callbacks + [callback], result) == Deliveries(callbacks, result) + [Delivery(callback, result)]
  {
  }

  /**
   * Exactly-once delivery. Over any run the first write wins and the value never changes after it; until it,
   * every awaited callback waits in the cell and none is queued; from it on, the callbacks awaited before and
   * after it have been queued exactly once each, in the order they were awaited, with the value written.
   */
  lemma {:induction false} ExactlyOnce<T, E, C>(ops: seq<OnceOp<T, E, C>>)
    ensures var (cell, queued) := OnceRun(FreshOnce(), ops);
      && cell.value == FirstWritten(ops)
      && (cell.value == None ==> cell.callbacks == Awaited(ops) && queued == [])
      && (cell.value.Some? ==> cell.callbacks == [] && queued == Deliveries(Awaited(ops), cell.value.value))
    decreases |ops|
  {
    if ops != [] {
      var before, last := ops[..|ops| - 1], ops[|ops| - 1];
      ExactlyOnce(before);
      var value := FirstWritten(before);
      if value.Some? && last.Await? {
        DeliveriesPush(Awaited(before), last.callback, value.value);
      }
    }
  }

  lemma {:induction false} FirstWrittenStays<T, E, C>(ops: seq<OnceOp<T, E, C>>, more: seq<OnceOp<T, E, C>>)
    requires FirstWritten(ops).Some?
    ensures FirstWritten(ops + more) == FirstWritten(ops)
    decreases |more|
  {
    if more == [] {
      assert ops + more == ops;
    } else {
      FirstWrittenStays(ops, more[..|more| - 1]);
      assert (ops + more)[..|ops + more| - 1] == ops + more[..|more| - 1];
    }
  }

  /**
   * Once a read gives a result, it gives that result ever after, whatever happens in between, and by then every
   * callback awaited before or since has been queued with it, once each and in order.
   */
  lemma ReadIsDelivered<T, E, C>(ops: seq<OnceOp<T, E, C>>, more: seq<OnceOp<T, E, C>>, result: Result<T, E>)
    requires OnceRun(FreshOnce(), ops).0.value == Some(result)
    ensures OnceRun(FreshOnce(), ops + more).0.value == Some(result)
    ensures OnceRun(FreshOnce(), ops + more).1 == Deliveries(Awaited(ops + more), result)
  {
    ExactlyOnce(ops);
    FirstWrittenStays(ops, more);
    ExactlyOnce(ops + more);
  }

  /** Whether operation `i` of a run on a new cell, a write, is accepted. */
  predicate WriteAccepted<T, E, C>(ops: seq<OnceOp<T, E, C>>, i: nat)
    requires i < |ops| && ops[i].Write?
  {
    OnceWrite(OnceRun(FreshOnce(), ops[..i]).0, ops[i].result).1
  }

  lemma {:induction false} NothingWritten<T, E, C>(ops: seq<OnceOp<T, E, C>>)
    ensures FirstWritten(ops) == None <==> forall j :: 0 <= j < |ops| ==> !ops[j].Write?
    decreases |ops|
  {
    if ops != [] {
      var before, last := ops[..|ops| - 1], ops[|ops| - 1];
      NothingWritten(before);
      assert forall j :: 0 <= j < |before| ==> before[j] == ops[j];
    }
  }

  /** A write that is the first is the first written, whatever follows. */
  lemma {:induction false} FirstIsWritten<T, E, C>(ops: seq<OnceOp<T, E, C>>, i: nat)
    requires i < |ops| && ops[i].Write? && FirstWritten(ops[..i]) == None
    ensures FirstWritten(ops) == Some(ops[i].result)
  {
    var upTo := ops[..i + 1];
    assert upTo[..i] == ops[..i] && upTo[i] == ops[i];
    FirstWrittenStays(upTo, ops[i + 1..]);
    assert upTo + ops[i + 1..] == ops;
  }

  /** Of the writes of a run exactly one is accepted, the first, and its result is what the cell then holds. */
  lemma {:induction false} OneWriteAccepted<T, E, C>(ops: seq<OnceOp<T, E, C>>, i: nat)
    requires i < |ops| && ops[i].Write?
    ensures WriteAccepted(ops, i) <==> forall j :: 0 <= j < i ==> !ops[j].Write?
    ensures WriteAccepted(ops, i) ==> OnceRun(FreshOnce(), ops).0.value == Some(ops[i].result)
  {
    hide OnceRun, FirstWritten, Awaited, Deliveries;
    ExactlyOnce(ops[..i]);
    NothingWritten(ops[..i]);
    if WriteAccepted(ops, i) {
      FirstIsWritten(ops, i);
      ExactlyOnce(ops);
    }
  }

  // ---------- Runs of a tracking cell and the cell it tracks ----------

  /** Awaits on the tracking cell, the track of the inner cell, later rejected tracks, and inner writes, in any order. */
  datatype TrackOp<T, E, K, C> = OuterAwait(callback: C) | TrackInner | TrackOther(other: K) | InnerWrite(result: Result<T, E>)

  datatype Pair<T, E, K, C> = Pair(outer: TrackingCell<K, C>, inner: OnceCell<T, E, C>)

  /** Passes forwarded awaits on to the inner cell, one after the other. */
  function AwaitAll<T, E, K, C>(cell: OnceCell<T, E, C>, forwards: seq<Forward<K, C>>)
    : (r: (OnceCell<T, E, C>, seq<Delivery<T, E, C>>))
    decreases |forwards|
  {
    if forwards == [] then (cell, [])
    else
      var (before, queued) := AwaitAll(cell, forwards[..|forwards| - 1]);
      var (after, more) := OnceAwait(before, forwards[|forwards| - 1].callback);
      (after, queued + more)
  }

  function TrackStep<T, E, K, C>(p: Pair<T, E, K, C>, handle: K, op: TrackOp<T, E, K, C>)
    : (r: (Pair<T, E, K, C>, seq<Delivery<T, E, C>>))
  {
    match op
    case OuterAwait(callback) =>
      var (outer, forwards) := TrackingAwait(p.outer, callback);
      var (inner, queued) := AwaitAll(p.inner, forwards);
      (Pair(outer, inner), queued)
    case TrackInner =>
      var (outer, _, forwards) := Track(p.outer, handle);
      var (inner, queued) := AwaitAll(p.inner, forwards);
      (Pair(outer, inner), queued)
    case TrackOther(other) =>
      // a track while the inner cell is tracked already; see `TracksInnerFirst`
      (p.(outer := Track(p.outer, other).0), [])
    case InnerWrite(result) =>
      var (inner, _, queued) := OnceWrite(p.inner, result);
      (p.(inner := inner), queued)
  }

  function TrackRun<T, E, K, C>(handle: K, ops: seq<TrackOp<T, E, K, C>>)
    : (r: (Pair<T, E, K, C>, seq<Delivery<T, E, C>>))
    decreases |ops|
  {
    if ops == [] then (Pair(TrackingCell(None, []), OnceCell(None, [])), [])
    else
      var (p, queued) := TrackRun(handle, ops[..|ops| - 1]);
      var (p', more) := TrackStep(p, handle, ops[|ops| - 1]);
      (p', queued + more)
  }

  predicate Tracked<T, E, K, C>(ops: seq<TrackOp<T, E, K, C>>) {
    exists i :: 0 <= i < |ops| && ops[i].TrackInner?
  }

  /** Other tracks only come after the first. */
  ghost predicate TracksInnerFirst<T, E, K, C>(ops: seq<TrackOp<T, E, K, C>>) {
    forall i :: 0 <= i < |ops| && ops[i].TrackOther? ==> Tracked(ops[..i])
  }

  function OuterAwaited<T, E, K, C>(ops: seq<TrackOp<T, E, K, C>>): (r: seq<C>)
    decreases |ops|
  {
    if ops == [] then []
    else
      var last := ops[|ops| - 1];
      OuterAwaited(ops[..|ops| - 1]) + if last.OuterAwait? then [last.callback] else []
  }

  function InnerWritten<T, E, K, C>(ops: seq<TrackOp<T, E, K, C>>): (r: Option<Result<T, E>>)
    decreases |ops|
  {
    if ops == [] then None
    else
      var before, last := InnerWritten(ops[..|ops| - 1]), ops[|ops| - 1];
      if before.Some? then before else if last.InnerWrite? then Some(last.result) else None
  }

  lemma {:induction false} AwaitAllForwards<T, E, K, C>(cell: OnceCell<T, E, C>, to: K, callbacks: seq<C>)
    ensures AwaitAll(cell, Forwards(to, callbacks))
         == if cell.value.Some? then (cell, Deliveries(callbacks, cell.value.value))
            else (cell.(callbacks := cell.callbacks + callbacks), [])
    decreases |callbacks|
  {
    var forwards := Forwards(to, callbacks);
    if callbacks == [] {
      assert cell.callbacks + callbacks == cell.callbacks;
    } else {
      var low, last := callbacks[..|callbacks| - 1], callbacks[|callbacks| - 1];
      AwaitAllForwards(cell, to, low);
      assert forwards[..|forwards| - 1] == Forwards(to, low);
      assert low + [last] == callbacks;
      assert forwards[|forwards| - 1].callback == last;
      var (before, queued) := AwaitAll(cell, Forwards(to, low));
      if cell.value.Some? {
        DeliveriesPush(low, last, cell.value.value);
        assert AwaitAll(cell, forwards) == (cell, queued + [Delivery(last, cell.value.value)]);
      } else {
        assert cell.callbacks + low + [last] == cell.callbacks + callbacks;
        assert before.callbacks + [last] == cell.callbacks + callbacks;
        assert AwaitAll(cell, forwards).0 == before.(callbacks := before.callbacks + [last]);
        assert AwaitAll(cell, forwards).1 == queued + [] == [];
      }
    }
  }

  lemma TrackedPush<T, E, K, C>(before: seq<TrackOp<T, E, K, C>>, last: TrackOp<T, E, K, C>)
    ensures Tracked(before + [last]) <==> Tracked(before) || last.TrackInner?
  {
    var ops := before + [last];
    if Tracked(before) {
      var i :| 0 <= i < |before| && before[i].TrackInner?;
      assert ops[i].TrackInner?;
    }
    if last.TrackInner? {
      assert ops[|before|].TrackInner?;
    }
  }

  /**
   * Every callback awaited on the tracking cell waits in exactly one of the two cells, in order, until the inner
   * cell is both tracked and written, and from then on has been queued exactly once, in order, with the inner
   * cell's first result.
   */
  ghost predicate Transparent<T, E, K, C>(handle: K, ops: seq<TrackOp<T, E, K, C>>, p: Pair<T, E, K, C>,
                                          queued: seq<Delivery<T, E, C>>)
  {
    && p.inner.value == InnerWritten(ops)
    && p.outer.target == (if Tracked(ops) then Some(handle) else None)
    && (if !Tracked(ops) then
          p.outer.callbacks == OuterAwaited(ops) && p.inner.callbacks == [] && queued == []
        else if InnerWritten(ops) == None then
          p.outer.callbacks == [] && p.inner.callbacks == OuterAwaited(ops) && queued == []
        else
          p.outer.callbacks == [] && p.inner.callbacks == []
          && queued == Deliveries(OuterAwaited(ops), InnerWritten(ops).value))
  }

  lemma TransparentStep<T, E, K, C>(handle: K, before: seq<TrackOp<T, E, K, C>>, last: TrackOp<T, E, K, C>,
                                    p: Pair<T, E, K, C>, queued: seq<Delivery<T, E, C>>)
    requires Transparent(handle, before, p, queued) && (last.TrackOther? ==> Tracked(before))
    ensures var (p', more) := TrackStep(p, handle, last); Transparent(handle, before + [last], p', queued + more)
  {
    var ops := before + [last];
    TrackedPush(before, last);
    assert ops[..|before|] == before;
    match last
    case OuterAwait(callback) =>
      AwaitAllForwards(p.inner, handle, [callback]);
      assert Forwards(handle, [callback]) == [Forward(handle, callback)];
      if InnerWritten(before).Some? {
        DeliveriesPush(OuterAwaited(before), callback, InnerWritten(before).value);
      }
    case TrackInner =>
      AwaitAllForwards(p.inner, handle, p.outer.callbacks);
      assert p.inner.callbacks + [] == p.inner.callbacks;
    case TrackOther(other) =>
    case InnerWrite(result) =>
  }

  /**
   * A tracking cell is the cell it tracks, for any order of awaits, the first track, rejected tracks and inner
   * writes: a callback gets what it would have got from the inner cell, exactly once.
   */
  lemma {:induction false} TrackingIsTransparent<T, E, K, C>(handle: K, ops: seq<TrackOp<T, E, K, C>>)
    requires TracksInnerFirst(ops)
    ensures Transparent(handle, ops, TrackRun(handle, ops).0, TrackRun(handle, ops).1)
    decreases |ops|
  {
    if ops != [] {
      var before, last := ops[..|ops| - 1], ops[|ops| - 1];
      forall i | 0 <= i < |before| && before[i].TrackOther? ensures Tracked(before[..i]) {
        assert before[..i] == ops[..i] && ops[i].TrackOther?;
      }
      TrackingIsTransparent(handle, before);
      assert before + [last] == ops;
      TransparentStep(handle, before, last, TrackRun(handle, before).0, TrackRun(handle, before).1);
    }
  }

  /** A track is accepted exactly when it is the first. */
  lemma {:induction false} OneTrackAccepted<T, E, K, C>(handle: K, ops: seq<TrackOp<T, E, K, C>>, i: nat, target: K)
    requires TracksInnerFirst(ops) && i <= |ops|
    ensures Track(TrackRun(handle, ops[..i]).0.outer, target).1 <==> forall j :: 0 <= j < i ==> !ops[j].TrackInner? && !ops[j].TrackOther?
  {
    var before := ops[..i];
    forall j | 0 <= j < |before| && before[j].TrackOther? ensures Tracked(before[..j]) {
      assert before[..j] == ops[..j] && ops[j].TrackOther?;
    }
    TrackingIsTransparent(handle, before);
    if j :| 0 <= j < i && ops[j].TrackOther? {
      assert before[j].TrackOther? && Tracked(before[..j]);
      var k :| 0 <= k < j && before[..j][k].TrackInner?;
      assert before[k].TrackInner?;
    }
    assert forall j :: 0 <= j < i ==> before[j] == ops[j];
  }
}
