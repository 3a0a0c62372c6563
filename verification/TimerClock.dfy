/** When a timer comes out by the clock: the bounds on the plain list, and so on both wheels that refine it. */
module TimerClock {
  import opened Arithmetic
  import opened TickClock
  import opened WheelModel
  import opened TimerAgenda
  import opened WheelRuns

  ghost predicate Sized(sizes: seq<nat>, tick: nat) {
    0 < tick && 0 < |sizes| && forall i :: 0 <= i < |sizes| ==> 0 < sizes[i]
  }

  /** The list after a run of calls. */
  ghost function AgendaAfter<T>(sizes: seq<nat>, tick: nat, a: AgendaState<T>, ops: seq<Op<T>>): (r: AgendaState<T>)
    requires Sized(sizes, tick)
    decreases |ops|
  {
    if ops == [] then a
    else AgendaStep(sizes, tick, AgendaAfter(sizes, tick, a, ops[..|ops| - 1]), ops[|ops| - 1]).0
  }

  /** The clock readings that a run of calls sees. */
  function Readings<T>(ops: seq<Op<T>>): (r: seq<int>)
    decreases |ops|
  {
    if ops == [] then []
    else
      var last := ops[|ops| - 1];
      Readings(ops[..|ops| - 1]) + if last.AdvanceOp? then [last.now] else []
  }

  /** Ticks and clock of the list are those that the readings complete, whatever is scheduled between them. */
  lemma {:induction false} AgendaTicks<T>(sizes: seq<nat>, tick: nat, a: AgendaState<T>, ops: seq<Op<T>>)
    requires Sized(sizes, tick)
    ensures var b := AgendaAfter(sizes, tick, a, ops);
      && b.ticks == a.ticks + TotalElapsed(tick, a.last, Readings(ops))
      && b.last == LastAfter(tick, a.last, Readings(ops))
    decreases |ops|
  {
    if ops != [] {
      var low, last := ops[..|ops| - 1], ops[|ops| - 1];
      AgendaTicks(sizes, tick, a, low);
      if last.AdvanceOp? {
        var readings := Readings(ops);
        assert readings[..|readings| - 1] == Readings(low);
      } else {
        assert Readings(ops) == Readings(low);
      }
    }
  }

  lemma ClimbStops(sizes: seq<nat>, w: nat, q: nat, b: nat, start: nat, left: nat, wrapped: bool)
    requires w < |sizes| && 0 < b && forall i :: 0 <= i < |sizes| ==> 0 < sizes[i]
    requires w == |sizes| - 1 || q % sizes[w] + left / b < sizes[w]
    ensures ClimbFrom(sizes, w, q, b, start, left, wrapped).start == start
  {
    hide SizeSub;
  }

  lemma ClimbOn(sizes: seq<nat>, w: nat, q: nat, b: nat, start: nat, left: nat, wrapped: bool)
    returns (bn: nat, start': nat, left': nat, wrapped': bool)
    requires w < |sizes| - 1 && 0 < b && forall i :: 0 <= i < |sizes| ==> 0 < sizes[i]
    requires q % sizes[w] + left / b >= sizes[w]
    ensures 0 < bn && start <= start'
    ensures ClimbFrom(sizes, w, q, b, start, left, wrapped) == ClimbFrom(sizes, w + 1, q / sizes[w], bn, start', left', wrapped')
  {
    hide SizeSub, ClimbFrom;
    var n, c := sizes[w], q % sizes[w];
    ClimbArithmetic(b, n, c, left);
    MulPositive(b, n);
    bn, start' := b * n, start + (n - c) * b;
    left', wrapped' := SizeSub(left, bn), wrapped || left < bn;
    ClimbUnfolds(sizes, w, q, b, start, left, wrapped, n, bn, start');
  }

  /** Climbing never goes back in time. */
  lemma {:induction false} ClimbStart(sizes: seq<nat>, w: nat, q: nat, b: nat, start: nat, left: nat, wrapped: bool)
    requires w < |sizes| && 0 < b && forall i :: 0 <= i < |sizes| ==> 0 < sizes[i]
    ensures start <= ClimbFrom(sizes, w, q, b, start, left, wrapped).start
    decreases |sizes| - w
  {
    hide SizeSub, ClimbFrom;
    if w < |sizes| - 1 && q % sizes[w] + left / b >= sizes[w] {
      var bn, start', left', wrapped' := ClimbOn(sizes, w, q, b, start, left, wrapped);
      ClimbStart(sizes, w + 1, q / sizes[w], bn, start', left', wrapped');
    } else {
      ClimbStops(sizes, w, q, b, start, left, wrapped);
    }
  }

  lemma NotDueYet(sizes: seq<nat>, now: nat, t: nat)
    requires 0 < |sizes| && forall i :: 0 <= i < |sizes| ==> 0 < sizes[i]
    ensures now <= DueTick(sizes, now, t)
  {
    SpanPositive(sizes);
    ClimbStart(sizes, 0, now, 1, now, t, false);
  }

  lemma {:induction false} InNotBefore<T(!new)>(pending: seq<(nat, T)>, now: nat, p: (nat, T))
    ensures p in NotBefore(pending, now) <==> p in pending && now <= p.0
    decreases |pending|
  {
    if pending != [] {
      var low, last := pending[..|pending| - 1], pending[|pending| - 1];
      InNotBefore(low, now, p);
      assert pending == low + [last];
    }
  }

  ghost predicate AllPending<T>(a: AgendaState<T>) {
    forall p :: p in a.pending ==> a.ticks <= p.0
  }

  /** A schedule keeps every entry, and adds one that is not due yet. */
  lemma ScheduleStays<T(!new)>(sizes: seq<nat>, tick: nat, b: AgendaState<T>, delay: nat, timer: T, p: (nat, T))
    requires Sized(sizes, tick) && AllPending(b)
    ensures var c := AgendaStep(sizes, tick, b, ScheduleOp(delay, timer)).0;
      AllPending(c) && c.ticks == b.ticks && (p in b.pending ==> p in c.pending) && (p in c.pending ==> c.ticks <= p.0)
  {
    hide DueTick;
    NotDueYet(sizes, b.ticks, delay / tick);
  }

  /** An advance keeps exactly the entries not due yet. */
  lemma AdvanceStays<T(!new)>(sizes: seq<nat>, tick: nat, b: AgendaState<T>, now: int, p: (nat, T))
    requires Sized(sizes, tick) && AllPending(b)
    ensures var c := AgendaStep(sizes, tick, b, AdvanceOp(now)).0;
      AllPending(c) && b.ticks <= c.ticks && (p in c.pending <==> p in b.pending && c.ticks <= p.0)
  {
    hide DueTick, DueWithin, ElapsedTicks, NotBefore;
    var k := ElapsedTicks(tick, b.last, now);
    forall q ensures q in NotBefore(b.pending, b.ticks + k) <==> q in b.pending && b.ticks + k <= q.0 {
      InNotBefore(b.pending, b.ticks + k, q);
    }
  }

  /** An entry of the list stays in it exactly until its due tick has been processed. */
  lemma {:induction false} StaysPending<T(!new)>(sizes: seq<nat>, tick: nat, a: AgendaState<T>, ops: seq<Op<T>>, p: (nat, T))
    requires Sized(sizes, tick) && AllPending(a) && p in a.pending
    ensures var b := AgendaAfter(sizes, tick, a, ops);
      AllPending(b) && (p in b.pending <==> b.ticks <= p.0)
    decreases |ops|
  {
    hide AgendaStep;
    if ops != [] {
      var low, last := ops[..|ops| - 1], ops[|ops| - 1];
      StaysPending(sizes, tick, a, low, p);
      var b := AgendaAfter(sizes, tick, a, low);
      match last
      case ScheduleOp(delay, timer) => ScheduleStays(sizes, tick, b, delay, timer, p);
      case AdvanceOp(now) => AdvanceStays(sizes, tick, b, now, p);
    }
  }

  lemma {:induction false} InDueTimers<T>(pending: seq<(nat, T)>, p: (nat, T))
    requires p in pending
    ensures p.1 in DueTimers(pending, p.0)
    decreases |pending|
  {
    var low, last := pending[..|pending| - 1], pending[|pending| - 1];
    assert pending == low + [last];
    if p in low {
      InDueTimers(low, p);
    }
  }

  /** An entry due within the ticks of an advance is among those the advance returns. */
  lemma {:induction false} InDueWithin<T>(pending: seq<(nat, T)>, from: nat, k: nat, p: (nat, T))
    requires p in pending && from <= p.0 < from + k
    ensures p.1 in DueWithin(pending, from, k)
    decreases k
  {
    if p.0 == from + (k - 1) {
      InDueTimers(pending, p);
    } else {
      InDueWithin(pending, from, k - 1, p);
    }
  }

  /** By ticks: an entry due `t` ticks on stays while at most `t` ticks are completed, and comes out when more are. */
  lemma EntryByTicks<T(!new)>(sizes: seq<nat>, tick: nat, a: AgendaState<T>, p: (nat, T), ops: seq<Op<T>>, now: int, t: nat)
    requires Sized(sizes, tick) && AllPending(a) && p in a.pending && p.0 == a.ticks + t
    ensures var before := AgendaAfter(sizes, tick, a, ops);
      var (after, returned) := AgendaStep(sizes, tick, before, AdvanceOp(now));
      && (p in before.pending <==> TotalElapsed(tick, a.last, Readings(ops)) <= t)
      && (p in after.pending <==> TotalElapsed(tick, a.last, Readings(ops) + [now]) <= t)
      && (p in before.pending && p !in after.pending ==> p.1 in returned)
  {
    hide DueTick, ElapsedTicks, TotalElapsed, DueWithin;
    var before, all := AgendaAfter(sizes, tick, a, ops), ops + [AdvanceOp(now)];
    assert all[..|ops|] == ops;
    assert Readings(all) == Readings(ops) + [now];
    StaysPending(sizes, tick, a, ops, p);
    StaysPending(sizes, tick, a, all, p);
    AgendaTicks(sizes, tick, a, ops);
    AgendaTicks(sizes, tick, a, all);
    if p in before.pending && before.ticks + ElapsedTicks(tick, before.last, now) > p.0 {
      InDueWithin(before.pending, before.ticks, ElapsedTicks(tick, before.last, now), p);
    }
  }

  /**
   * Clock bounds. A timer of `t` ticks is scheduled when the last advancement was at `a.last`; any calls follow,
   * and then an advance at `now`. If its due tick is on time, the advance returns it only once (t + 1) ticks of
   * time have passed, and leaves it pending only while less than (2t + 1) ticks of time have passed, although
   * every advance drops the remainder of its last tick.
   */
  lemma TimerComesOut<T(!new)>(sizes: seq<nat>, tick: nat, a: AgendaState<T>, delay: nat, timer: T, ops: seq<Op<T>>, now: int)
    requires Sized(sizes, tick) && AllPending(a) && DueTick(sizes, a.ticks, delay / tick) == a.ticks + delay / tick
    ensures var t, p := delay / tick, (a.ticks + delay / tick, timer);
      var before := AgendaAfter(sizes, tick, AgendaStep(sizes, tick, a, ScheduleOp(delay, timer)).0, ops);
      var (after, returned) := AgendaStep(sizes, tick, before, AdvanceOp(now));
      && (p in before.pending && p !in after.pending ==> timer in returned && now - a.last >= (t + 1) * tick)
      && (p in after.pending ==> now - a.last < (2 * t + 1) * tick)
  {
    hide DueTick, ElapsedTicks, TotalElapsed, DueWithin, NotBefore, AgendaAfter, Readings;
    var t, p := delay / tick, (a.ticks + delay / tick, timer);
    var start := AgendaStep(sizes, tick, a, ScheduleOp(delay, timer)).0;
    EntryByTicks(sizes, tick, start, p, ops, now, t);
    ClockBounds(tick, a.last, Readings(ops), now, t);
  }
}
