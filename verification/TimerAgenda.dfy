/** The simple form the wheels refine: a list of (due tick, timer) pairs, and the due tick a delay is given. */
module TimerAgenda {
  import opened Arithmetic
  import opened WheelModel

  /** Where a delay ends up: the wheel, the tick its current bucket begins at, and the ticks left for it there. */
  datatype Slot = Slot(wheel: nat, start: nat, left: nat, wrapped: bool)

  /** Climbs the wheel sizes alone; `q` counts the steps wheel `w` has made and `b` its ticks per bucket. */
  function ClimbFrom(sizes: seq<nat>, w: nat, q: nat, b: nat, start: nat, left: nat, wrapped: bool): (r: Slot)
    requires w < |sizes| && 0 < b && forall i :: 0 <= i < |sizes| ==> 0 < sizes[i]
    ensures w <= r.wheel < |sizes|
    decreases |sizes| - w
  {
    var n := sizes[w];
    var c := q % n;
    if w == |sizes| - 1 || c + left / b < n then Slot(w, start, left, wrapped)
    else
      MulPositive(b, n);
      assert 0 <= (n - c) * b by { MulMonotone(0, n - c, b); }
      ClimbFrom(sizes, w + 1, q / n, b * n, start + (n - c) * b, SizeSub(left, n * b), wrapped || left < n * b)
  }

  /** The slot of a delay of `t` ticks scheduled after `now` ticks. */
  function SlotOf(sizes: seq<nat>, now: nat, t: nat): (r: Slot)
    requires 0 < |sizes| && forall i :: 0 <= i < |sizes| ==> 0 < sizes[i]
    ensures r.wheel < |sizes|
  {
    ClimbFrom(sizes, 0, now, 1, now, t, false)
  }

  /** The due tick of a delay of `t` ticks scheduled after `now` ticks. */
  function DueTick(sizes: seq<nat>, now: nat, t: nat): (r: nat)
    requires 0 < |sizes| && forall i :: 0 <= i < |sizes| ==> 0 < sizes[i]
  {
    var slot := SlotOf(sizes, now, t);
    SpanPositive(sizes);
    slot.start + if slot.wheel == |sizes| - 1 then slot.left % Span(sizes) else slot.left
  }

  /** The timers of a pending list that are due at `due`, in list order. */
  function DueTimers<T>(pending: seq<(nat, T)>, due: nat): (r: seq<T>)
    decreases |pending|
  {
    if pending == [] then []
    else
      var last := pending[|pending| - 1];
      DueTimers(pending[..|pending| - 1], due) + (if last.0 == due then [last.1] else [])
  }

  /** The entries of a pending list due at `now` or later, in list order. */
  function NotBefore<T>(pending: seq<(nat, T)>, now: nat): (r: seq<(nat, T)>)
    ensures forall i :: 0 <= i < |r| ==> now <= r[i].0
    decreases |pending|
  {
    if pending == [] then []
    else
      var last := pending[|pending| - 1];
      NotBefore(pending[..|pending| - 1], now) + (if now <= last.0 then [last] else [])
  }

  /** The timers due in [from, from + k), by due tick and then in list order. */
  function DueWithin<T>(pending: seq<(nat, T)>, from: nat, k: nat): (r: seq<T>)
  {
    if k == 0 then [] else DueWithin(pending, from, k - 1) + DueTimers(pending, from + (k - 1))
  }

  lemma DueTimersPush<T>(pending: seq<(nat, T)>, p: (nat, T), due: nat)
    ensures DueTimers(pending + [p], due) == DueTimers(pending, due) + (if p.0 == due then [p.1] else [])
  {
    assert (pending + [p])[..|pending|] == pending;
  }

  lemma {:induction false} NotBeforeKeeps<T>(pending: seq<(nat, T)>, now: nat, due: nat)
    requires now <= due
    ensures DueTimers(NotBefore(pending, now), due) == DueTimers(pending, due)
    decreases |pending|
  {
    if pending != [] {
      var low, last := pending[..|pending| - 1], pending[|pending| - 1];
      NotBeforeKeeps(low, now, due);
      if now <= last.0 {
        DueTimersPush(NotBefore(low, now), last, due);
      } else {
        assert NotBefore(pending, now) == NotBefore(low, now);
      }
    }
  }

  // ---------- The law of due ticks ----------

  /** The tick asked for lies before the end of the top wheel, when the climb reaches the top wheel. */
  ghost predicate InRange(sizes: seq<nat>, now: nat, t: nat)
    requires ValidSizes(sizes)
  {
    var slot := SlotOf(sizes, now, t);
    slot.wheel == |sizes| - 1 ==> now + t < slot.start + Span(sizes)
  }

  /**
   * The balance kept while climbing: without a wrap, the start of the wheel, the ticks left and the
   * ticks already past in lower wheels add up to the tick asked for; a wrap adds one size modulus.
   */
  ghost predicate Balanced(asked: nat, past: nat, total: nat, start: nat, left: nat, wrapped: bool) {
    if wrapped then start + left + past == asked + SIZE_MODULUS && left + total >= SIZE_MODULUS && past != 0
    else start + left + past == asked
  }

  ghost predicate SlotOk(sizes: seq<nat>, now: nat, t: nat, slot: Slot)
    requires slot.wheel < |sizes| && forall i :: 0 <= i < |sizes| ==> 0 < sizes[i]
  {
    SpanPositive(sizes[..slot.wheel]);
    && Balanced(now + t, now % Span(sizes[..slot.wheel]), TotalTicks(sizes[..slot.wheel]),
                slot.start, slot.left, slot.wrapped)
    && (slot.wrapped ==> slot.wheel == |sizes| - 1)
  }

  lemma ClimbArithmetic(b: nat, n: nat, c: nat, left: nat)
    requires 0 < b && c < n
    ensures (n - c) * b == n * b - c * b && 0 <= c * b && 0 <= (n - c) * b
    ensures 0 < c ==> 0 < c * b
    ensures c + left / b >= n <==> left >= n * b - c * b
    ensures left >= n * b ==> c + left / b >= n
  {
    assert (n - c) * b == n * b - c * b;
    MulMonotone(0, n - c, b);
    MulMonotone(0, c, b);
    DivBelow(left, b, n - c);
    if c > 0 {
      MulMonotone(1, c, b);
    }
  }

  /** One step up keeps the balance; after a wrap every wheel below the top is too small, so nothing wraps twice. */
  lemma ClimbStep(asked: nat, past: nat, total: nat, b: nat, n: nat, c: nat, start: nat, left: nat, wrapped: bool)
    requires 0 < b && c < n && total + n * b <= HALF_SIZE_MODULUS
    requires Balanced(asked, past, total, start, left, wrapped) && left < SIZE_MODULUS
    ensures 0 <= (n - c) * b && 0 <= c * b && 0 <= n * b
    ensures wrapped ==> c + left / b >= n
    ensures c + left / b >= n ==>
      Balanced(asked, past + c * b, total + n * b, start + (n - c) * b, SizeSub(left, n * b), wrapped || left < n * b)
  {
    ClimbArithmetic(b, n, c, left);
  }

  /** A climb that does not end at wheel `w` is the climb from the next wheel. */
  lemma ClimbUnfolds(sizes: seq<nat>, w: nat, q: nat, b: nat, start: nat, left: nat, wrapped: bool, n: nat, bn: nat, start': nat)
    requires w < |sizes| - 1 && 0 < b && forall i :: 0 <= i < |sizes| ==> 0 < sizes[i]
    requires n == sizes[w] && q % n + left / b >= n
    requires bn == b * n && start' == start + (n - q % n) * b
    ensures 0 < bn
    ensures ClimbFrom(sizes, w, q, b, start, left, wrapped)
         == ClimbFrom(sizes, w + 1, q / n, bn, start', SizeSub(left, bn), wrapped || left < bn)
  {
    MulPositive(b, n);
    assert n * b == b * n;
    hide SizeSub;
  }

  /** The balance at the next wheel. */
  lemma NextBalanced(sizes: seq<nat>, now: nat, t: nat, w: nat, b: nat, start: nat, left: nat, wrapped: bool, n: nat, bn: nat, start': nat)
    requires ValidSizes(sizes) && w < |sizes| && b == Span(sizes[..w]) && 0 < b
    requires Balanced(now + t, now % b, TotalTicks(sizes[..w]), start, left, wrapped) && left < SIZE_MODULUS
    requires n == sizes[w] && bn == b * n && start' == start + (n - now / b % n) * b
    ensures wrapped ==> now / b % n + left / b >= n
    ensures 0 < bn == Span(sizes[..w + 1]) && now / bn == now / b / n
    ensures now / b % n + left / b >= n ==>
      Balanced(now + t, now % bn, TotalTicks(sizes[..w + 1]), start', SizeSub(left, bn), wrapped || left < bn)
  {
    var c := now / b % n;
    SpanPrefix(sizes, w);
    TotalPrefix(sizes, w);
    DivModProduct(now, b, n);
    ClimbStep(now + t, now % b, TotalTicks(sizes[..w]), b, n, c, start, left, wrapped);
    assert n * b == b * n;
    hide SizeSub, Balanced, Span, TotalTicks;
  }

  /** A climb that ends at wheel `w` ends balanced, and at the top if it has wrapped. */
  lemma ClimbEnds(sizes: seq<nat>, now: nat, t: nat, w: nat, b: nat, start: nat, left: nat, wrapped: bool)
    requires ValidSizes(sizes) && w < |sizes| && b == Span(sizes[..w]) && 0 < b
    requires Balanced(now + t, now % b, TotalTicks(sizes[..w]), start, left, wrapped)
    requires w == |sizes| - 1 || now / b % sizes[w] + left / b < sizes[w]
    requires wrapped ==> w == |sizes| - 1
    ensures SlotOk(sizes, now, t, ClimbFrom(sizes, w, now / b, b, start, left, wrapped))
  {
    hide Balanced, TotalTicks, SizeSub;
  }

  /** Climbing keeps the balance, and a wrapped climb ends at the top. */
  lemma {:induction false} ClimbBalanced(sizes: seq<nat>, now: nat, t: nat, w: nat, b: nat, start: nat, left: nat, wrapped: bool)
    requires ValidSizes(sizes) && w < |sizes| && b == Span(sizes[..w]) && 0 < b
    requires Balanced(now + t, now % b, TotalTicks(sizes[..w]), start, left, wrapped) && left < SIZE_MODULUS
    ensures SlotOk(sizes, now, t, ClimbFrom(sizes, w, now / b, b, start, left, wrapped))
    decreases |sizes| - w
  {
    hide SizeSub, Balanced, Span, TotalTicks, SlotOk, ClimbFrom;
    var n, c := sizes[w], now / b % sizes[w];
    ClimbArithmetic(b, n, c, left);
    var bn, start' := b * n, start + (n - c) * b;
    MulPositive(b, n);
    NextBalanced(sizes, now, t, w, b, start, left, wrapped, n, bn, start');
    if w < |sizes| - 1 && c + left / b >= n {
      ClimbUnfolds(sizes, w, now / b, b, start, left, wrapped, n, bn, start');
      ClimbBalanced(sizes, now, t, w + 1, bn, start', SizeSub(left, bn), wrapped || left < bn);
    } else {
      ClimbEnds(sizes, now, t, w, b, start, left, wrapped);
    }
  }

  lemma SlotBalanced(sizes: seq<nat>, now: nat, t: nat)
    requires ValidSizes(sizes) && t < SIZE_MODULUS
    ensures SlotOk(sizes, now, t, SlotOf(sizes, now, t))
  {
    assert sizes[..0] == [];
    ClimbBalanced(sizes, now, t, 0, 1, now, t, false);
  }

  /**
   * Placement law. A delay whose subtractions do not wrap is due at T + t - (T mod b_w), where b_w is
   * the bucket size of the chosen wheel: early by the ticks already past in the lower wheels.
   */
  lemma PlacementLaw(sizes: seq<nat>, now: nat, t: nat)
    requires ValidSizes(sizes) && t < SIZE_MODULUS && InRange(sizes, now, t)
    requires !SlotOf(sizes, now, t).wrapped
    ensures var b := Span(sizes[..SlotOf(sizes, now, t).wheel]);
      0 < b && DueTick(sizes, now, t) == now + t - now % b
  {
    SlotBalanced(sizes, now, t);
    var slot := SlotOf(sizes, now, t);
    SpanPositive(sizes[..slot.wheel]);
    if slot.wheel == |sizes| - 1 {
      SpanPositive(sizes);
      DivModUnique(slot.left, Span(sizes), 0, slot.left);
    }
  }

  /** Without a wrap the due tick is the one asked for exactly when the ticks processed are whole buckets of the chosen wheel. */
  lemma ExactWithoutWrap(sizes: seq<nat>, now: nat, t: nat)
    requires ValidSizes(sizes) && t < SIZE_MODULUS && InRange(sizes, now, t)
    requires !SlotOf(sizes, now, t).wrapped
    ensures 0 < Span(sizes[..SlotOf(sizes, now, t).wheel])
    ensures DueTick(sizes, now, t) == now + t <==> now % Span(sizes[..SlotOf(sizes, now, t).wheel]) == 0
  {
    PlacementLaw(sizes, now, t);
  }

  /**
   * A wrapped subtraction sends the delay to the top wheel. It is then due on time only by the coincidence
   * that the wrap is a whole number of turns of the top wheel apart from the ticks already past below it.
   */
  lemma ExactWithWrap(sizes: seq<nat>, now: nat, t: nat)
    requires ValidSizes(sizes) && t < SIZE_MODULUS && InRange(sizes, now, t)
    requires SlotOf(sizes, now, t).wrapped
    ensures 0 < Span(sizes[..|sizes| - 1]) && 0 < Span(sizes)
    ensures SlotOf(sizes, now, t).wheel == |sizes| - 1
    ensures now % Span(sizes[..|sizes| - 1]) != 0
    ensures DueTick(sizes, now, t) == now + t <==>
      SlotOf(sizes, now, t).start <= now + t
      && (SIZE_MODULUS - now % Span(sizes[..|sizes| - 1])) % Span(sizes) == 0
  {
    SlotBalanced(sizes, now, t);
    var slot := SlotOf(sizes, now, t);
    var low := sizes[..|sizes| - 1];
    SpanPositive(low);
    SpanPositive(sizes);
    assert sizes[..slot.wheel] == low;
    assert DueTick(sizes, now, t) == slot.start + slot.left % Span(sizes);
    hide SlotOf, ClimbFrom, Span, TotalTicks, ValidSizes, DueTick;
    WrapArithmetic(now + t, now % Span(low), slot.start, slot.left, Span(sizes));
  }

  lemma WrapArithmetic(asked: nat, past: nat, start: nat, left: nat, m: nat)
    requires 0 < m && asked < start + m && start + left + past == asked + SIZE_MODULUS
    ensures start + left % m == asked <==> start <= asked && (SIZE_MODULUS - past) % m == 0
  {
    var rest, extra := asked - start, SIZE_MODULUS - past;
    assert left == rest + extra;
    if 0 <= rest {
      TurnsApart(rest, extra, m);
    }
  }

  /** `rest` is what remains of `rest + extra` around a circle exactly when `extra` is whole turns. */
  lemma TurnsApart(rest: nat, extra: int, m: nat)
    requires rest < m
    ensures (rest + extra) % m == rest <==> extra % m == 0
  {
    ModAdd(extra, rest, m);
    var e := extra % m;
    if e + rest < m {
      DivModUnique(e + rest, m, 0, e + rest);
    } else {
      DivModUnique(e + rest, m, 1, e + rest - m);
    }
  }

  /**
   * What decides whether a delay is due on time: it lies within the top wheel, and the ticks already past below
   * its wheel are none, or, after a wrap, are made up for by whole turns of the top wheel.
   */
  ghost predicate OnTime(sizes: seq<nat>, now: nat, t: nat)
    requires ValidSizes(sizes)
  {
    var slot := SlotOf(sizes, now, t);
    SpanPositive(sizes[..slot.wheel]);
    SpanPositive(sizes[..|sizes| - 1]);
    SpanPositive(sizes);
    InRange(sizes, now, t)
    && if slot.wrapped
       then slot.start <= now + t && (SIZE_MODULUS - now % Span(sizes[..|sizes| - 1])) % Span(sizes) == 0
       else now % Span(sizes[..slot.wheel]) == 0
  }

  /** Of all delays exactly these are due at the tick asked for; those past the top wheel are always early. */
  lemma OnTimeExactly(sizes: seq<nat>, now: nat, t: nat)
    requires ValidSizes(sizes) && t < SIZE_MODULUS
    ensures DueTick(sizes, now, t) == now + t <==> OnTime(sizes, now, t)
    ensures !InRange(sizes, now, t) ==> DueTick(sizes, now, t) < now + t
  {
    SpanPositive(sizes);
    if InRange(sizes, now, t) {
      if SlotOf(sizes, now, t).wrapped {
        ExactWithWrap(sizes, now, t);
      } else {
        ExactWithoutWrap(sizes, now, t);
      }
    }
    hide SlotOf, Span, ClimbFrom;
  }

  /** When the ticks processed are whole buckets of the chosen wheel, nothing wraps and the timer is due on time. */
  lemma OnTimeWhenAligned(sizes: seq<nat>, now: nat, t: nat)
    requires ValidSizes(sizes) && t < SIZE_MODULUS && InRange(sizes, now, t)
    requires 0 < Span(sizes[..SlotOf(sizes, now, t).wheel])
    requires now % Span(sizes[..SlotOf(sizes, now, t).wheel]) == 0
    ensures !SlotOf(sizes, now, t).wrapped && DueTick(sizes, now, t) == now + t
  {
    SlotBalanced(sizes, now, t);
    PlacementLaw(sizes, now, t);
  }

  /** A delay that the bottom wheel takes is always on time. */
  lemma OnTimeInBottomWheel(sizes: seq<nat>, now: nat, t: nat)
    requires ValidSizes(sizes) && t < SIZE_MODULUS && InRange(sizes, now, t)
    requires |sizes| == 1 || now % sizes[0] + t < sizes[0]
    ensures DueTick(sizes, now, t) == now + t
  {
    assert SlotOf(sizes, now, t) == Slot(0, now, t, false);
    assert sizes[..0] == [];
    PlacementLaw(sizes, now, t);
  }

  // ---------- What the code as written gets wrong ----------

  /** Two wheels of two buckets, one tick in: a delay of one tick is scheduled four ticks late. */
  lemma WrapIsLate()
    ensures ValidSizes([2, 2]) && InRange([2, 2], 1, 1)
    ensures SlotOf([2, 2], 1, 1).wrapped
    ensures DueTick([2, 2], 1, 1) == 5 != 1 + 1
  {
    SmallSizes();
    var sizes: seq<nat> := [2, 2];
    assert SlotOf(sizes, 1, 1) == ClimbFrom(sizes, 1, 0, 2, 2, SIZE_MODULUS - 1, true);
    assert SlotOf(sizes, 1, 1) == Slot(1, 2, SIZE_MODULUS - 1, true);
  }

  /** The same wheels: a delay of two ticks, which does not wrap, is scheduled one tick early. */
  lemma UnwrappedIsEarly()
    ensures ValidSizes([2, 2]) && InRange([2, 2], 1, 2)
    ensures !SlotOf([2, 2], 1, 2).wrapped
    ensures DueTick([2, 2], 1, 2) == 2 != 1 + 2
  {
    SmallSizes();
    var sizes: seq<nat> := [2, 2];
    assert SlotOf(sizes, 1, 2) == ClimbFrom(sizes, 1, 0, 2, 2, 0, false);
    assert SlotOf(sizes, 1, 2) == Slot(1, 2, 0, false);
  }

  /** The wheels that the timer poll source is built with, at 50 ms a tick: a minute, an hour, a day and ten days. */
  function TimerSourceSizes(): (sizes: seq<nat>) {
    [1200, 60, 24, 10]
  }

  lemma SpanPush(low: seq<nat>, n: nat)
    ensures Span(low + [n]) == Span(low) * n
    ensures TotalTicks(low + [n]) == TotalTicks(low) + Span(low + [n])
  {
    var sizes := low + [n];
    assert sizes[..|sizes| - 1] == low;
  }

  lemma TimerSourceSpans()
    ensures ValidSizes(TimerSourceSizes())
    ensures Span(TimerSourceSizes()) == 17280000
  {
    var minute: seq<nat> := [] + [1200];
    SpanPush([], 1200);
    SpanPush(minute, 60);
    SpanPush(minute + [60], 24);
    SpanPush(minute + [60] + [24], 10);
    assert minute + [60] + [24] + [10] == TimerSourceSizes();
  }

  /** With those wheels, one tick before the minute is full, a timer of one minute comes out one tick later. */
  lemma MinuteInOneTick()
    ensures ValidSizes(TimerSourceSizes())
    ensures DueTick(TimerSourceSizes(), 1199, 1200) == 1199 + 1
  {
    TimerSourceSpans();
    var sizes := TimerSourceSizes();
    assert ClimbFrom(sizes, 0, 1199, 1, 1199, 1200, false) == ClimbFrom(sizes, 1, 0, 1200, 1200, 0, false);
    assert SlotOf(sizes, 1199, 1200) == Slot(1, 1200, 0, false);
  }

  /** There, a timer of one tick comes out ten days later: the subtraction wraps and the timer climbs to the top. */
  lemma TickInTenDays()
    ensures ValidSizes(TimerSourceSizes())
    ensures DueTick(TimerSourceSizes(), 1199, 1) == 17391617 > 1199 + 10 * 24 * 60 * 1200
  {
    TimerSourceSpans();
    var sizes := TimerSourceSizes();
    assert ClimbFrom(sizes, 0, 1199, 1, 1199, 1, false) == ClimbFrom(sizes, 1, 0, 1200, 1200, SIZE_MODULUS - 1199, true);
    assert ClimbFrom(sizes, 1, 0, 1200, 1200, SIZE_MODULUS - 1199, true)
        == ClimbFrom(sizes, 2, 0, 72000, 73200, SIZE_MODULUS - 73199, true);
    assert ClimbFrom(sizes, 2, 0, 72000, 73200, SIZE_MODULUS - 73199, true)
        == ClimbFrom(sizes, 3, 0, 1728000, 1801200, SIZE_MODULUS - 1801199, true);
    assert SlotOf(sizes, 1199, 1) == Slot(3, 1801200, SIZE_MODULUS - 1801199, true);
    assert (SIZE_MODULUS - 1801199) % 17280000 == 15590417;
  }

  lemma SmallSizes()
    ensures ValidSizes([2, 2]) && Span([2, 2]) == 4
  {
    var sizes: seq<nat> := [2, 2];
    assert sizes[..1] == [2] && sizes[..1][..0] == [];
    assert Span(sizes[..1]) == 2;
    assert Span(sizes) == 4 && TotalTicks(sizes[..1]) == 2;
  }
}
