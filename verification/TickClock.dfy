/** How both wheels turn clock readings into ticks; readings and ticks are in one time unit. */
module TickClock {
  import opened Arithmetic

  /** The ticks an advance at `now` completes: none before a whole tick has passed. */
  function ElapsedTicks(tick: nat, last: int, now: int): (k: nat)
    requires 0 < tick
    ensures k == 0 <==> now - last < tick
    ensures k > 0 ==> k * tick <= now - last < (k + 1) * tick
  {
    if now - last < tick then 0
    else
      var k := (now - last) / tick;
      assert now - last == k * tick + (now - last) % tick;
      assert (k + 1) * tick == k * tick + tick;
      DivBelow(now - last, tick, 1);
      k
  }

  /** The time an advance at `now` counts from next: the remainder of a completed advance is dropped. */
  function NextLast(tick: nat, last: int, now: int): (r: int) {
    if now - last < tick then last else now
  }

  /** The ticks completed over a whole list of clock readings. */
  function TotalElapsed(tick: nat, last: int, readings: seq<int>): (k: nat)
    requires 0 < tick
    decreases |readings|
  {
    if readings == [] then 0
    else
      var before := readings[..|readings| - 1];
      TotalElapsed(tick, last, before) + ElapsedTicks(tick, LastAfter(tick, last, before), readings[|before|])
  }

  function LastAfter(tick: nat, last: int, readings: seq<int>): (r: int)
    decreases |readings|
  {
    if readings == [] then last
    else
      var before := readings[..|readings| - 1];
      NextLast(tick, LastAfter(tick, last, before), readings[|before|])
  }

  /** Each completed advance counts at least half of the time it covers. */
  lemma {:induction false} DriftBounds(tick: nat, last: int, readings: seq<int>)
    requires 0 < tick
    ensures TotalElapsed(tick, last, readings) * tick <= LastAfter(tick, last, readings) - last
    ensures LastAfter(tick, last, readings) - last <= 2 * (TotalElapsed(tick, last, readings) * tick)
    decreases |readings|
  {
    if readings != [] {
      var before, now := readings[..|readings| - 1], readings[|readings| - 1];
      DriftBounds(tick, last, before);
      DriftStep(tick, LastAfter(tick, last, before), now, TotalElapsed(tick, last, before));
    }
  }

  lemma DriftStep(tick: nat, last: int, now: int, k0: nat)
    requires 0 < tick
    ensures var k, next := ElapsedTicks(tick, last, now), NextLast(tick, last, now);
      && (k0 + k) * tick == k0 * tick + k * tick
      && k * tick <= next - last <= 2 * (k * tick)
  {
    var k := ElapsedTicks(tick, last, now);
    assert (k0 + k) * tick == k0 * tick + k * tick;
    if k > 0 {
      assert (k + 1) * tick == k * tick + tick;
      MulMonotone(1, k, tick);
    }
  }

  /**
   * Clock bounds for a timer of `t` ticks scheduled when the last advancement was at `last`: once `t + 1`
   * ticks are complete at reading `now`, at least (t + 1) ticks of time have passed; while at most `t` are
   * complete, less than (2t + 1) ticks of time have passed, although every advance drops a remainder.
   */
  lemma ClockBounds(tick: nat, last: int, readings: seq<int>, now: int, t: nat)
    requires 0 < tick
    ensures var k := TotalElapsed(tick, last, readings + [now]);
      && (TotalElapsed(tick, last, readings) <= t < k ==> now - last >= (t + 1) * tick)
      && (k <= t ==> now - last < (2 * t + 1) * tick)
  {
    var all := readings + [now];
    assert all[..|all| - 1] == readings;
    var k, k0 := TotalElapsed(tick, last, all), TotalElapsed(tick, last, readings);
    var l, l0 := LastAfter(tick, last, all), LastAfter(tick, last, readings);
    DriftBounds(tick, last, all);
    assert k == k0 + ElapsedTicks(tick, l0, now) && l == NextLast(tick, l0, now);
    if k0 <= t < k {
      MulMonotone(t + 1, k, tick);
    }
    if k <= t {
      MulMonotone(k, t, tick);
      PendingBound(tick, t);
    }
  }

  lemma PendingBound(tick: nat, t: nat)
    ensures (2 * t + 1) * tick == 2 * (t * tick) + tick
  {
  }

  // ---------- Which reading counts ----------

  /** Reading `i` completes at least one tick. */
  ghost predicate Completes(tick: nat, last: int, readings: seq<int>, i: nat)
    requires 0 < tick && i < |readings|
  {
    TotalElapsed(tick, last, readings[..i]) < TotalElapsed(tick, last, readings[..i + 1])
  }

  /** The last reading that completes a tick, or the start if none does. */
  ghost predicate LastToComplete(tick: nat, last: int, readings: seq<int>, l: int)
    requires 0 < tick
  {
    || (l == last && forall i :: 0 <= i < |readings| ==> !Completes(tick, last, readings, i))
    || exists i :: 0 <= i < |readings| && Completes(tick, last, readings, i) && l == readings[i]
                   && forall j :: i < j < |readings| ==> !Completes(tick, last, readings, j)
  }

  lemma CompletesPrefix(tick: nat, last: int, before: seq<int>, now: int, i: nat)
    requires 0 < tick && i <= |before|
    ensures var all := before + [now];
      if i < |before| then Completes(tick, last, all, i) <==> Completes(tick, last, before, i)
      else Completes(tick, last, all, i) <==> now - LastAfter(tick, last, before) >= tick
  {
    var all := before + [now];
    assert all[..i] == before[..i];
    if i < |before| {
      assert all[..i + 1] == before[..i + 1];
    } else {
      assert all[..i + 1] == all && before[..i] == before && all[..|all| - 1] == before;
    }
  }

  /**
   * The clock is reset to readings, never to whole ticks: over any readings, ticks are counted from the last reading
   * at which one was completed, so what was left over of the time before it is dropped.
   */
  lemma {:induction false} CountedFromReading(tick: nat, last: int, readings: seq<int>)
    requires 0 < tick
    ensures LastToComplete(tick, last, readings, LastAfter(tick, last, readings))
    decreases |readings|
  {
    hide Completes;
    if readings != [] {
      var n := |readings| - 1;
      var before, now := readings[..n], readings[n];
      assert readings == before + [now];
      CountedFromReading(tick, last, before);
      var l := LastAfter(tick, last, before);
      forall i | 0 <= i < n ensures Completes(tick, last, readings, i) <==> Completes(tick, last, before, i) {
        CompletesPrefix(tick, last, before, now, i);
      }
      CompletesPrefix(tick, last, before, now, n);
      if now - l >= tick {
        assert Completes(tick, last, readings, n) && now == readings[n];
      } else if i :| 0 <= i < n && Completes(tick, last, before, i) && l == before[i]
                     && forall j :: i < j < n ==> !Completes(tick, last, before, j) {
        assert Completes(tick, last, readings, i) && l == readings[i];
      }
    }
  }

  // ---------- The drift is as large as it can be ----------

  /** Readings `e` short of two ticks apart. */
  function LateReadings(tick: nat, last: int, e: nat, n: nat): (readings: seq<int>)
    ensures |readings| == n
  {
    seq(n, i requires 0 <= i < n => last + (i + 1) * (2 * tick - e))
  }

  lemma LateStep(tick: nat, e: nat, l: int, now: int)
    requires 0 < e <= tick && now - l == 2 * tick - e
    ensures ElapsedTicks(tick, l, now) == 1
  {
    var k := ElapsedTicks(tick, l, now);
    if k > 1 {
      MulMonotone(2, k, tick);
    }
  }

  /** The factor of two in `DriftBounds` cannot be improved: such readings lose `tick - e` at each tick they count. */
  lemma {:induction false} DriftTight(tick: nat, last: int, e: nat, n: nat)
    requires 0 < e <= tick
    ensures var readings := LateReadings(tick, last, e, n);
      && TotalElapsed(tick, last, readings) == n
      && LastAfter(tick, last, readings) - last == n * tick + n * (tick - e)
    decreases n
  {
    var readings := LateReadings(tick, last, e, n);
    if n > 0 {
      DriftTight(tick, last, e, n - 1);
      var before := readings[..n - 1];
      assert before == LateReadings(tick, last, e, n - 1);
      Products(tick, e, n);
      LateStep(tick, e, LastAfter(tick, last, before), readings[n - 1]);
    }
  }

  lemma Products(tick: nat, e: nat, n: nat)
    requires 0 < n && e <= tick
    ensures (n - 1) * tick + (n - 1) * (tick - e) == n * (2 * tick - e) - (2 * tick - e)
    ensures n * tick + n * (tick - e) == n * (2 * tick - e)
  {
  }
}
