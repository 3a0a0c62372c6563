/** Workers make progress: what the loop of one worker comes to when it works alone. */
module PoolProgress {
  import opened Arithmetic
  import opened Wrappers
  import opened PoolModel

  /** Worker `w` makes its next `k` queue accesses, with no other worker and no submission in between. */
  function Alone<T>(w: nat, start: nat, k: nat): (choices: seq<Choice<T>>)
    ensures |choices| == k
  {
    seq(k, i => Work(w, start))
  }

  lemma AloneOnce<T>(s: Run<T>, w: nat, start: nat, k: nat)
    requires RunOk(s)
    ensures Steps(s, Alone(w, start, 0)) == s
    ensures Steps(s, Alone(w, start, k + 1)) == Steps(Step(s, Work(w, start)), Alone(w, start, k))
  {
    hide Step;
    var all := Alone<T>(w, start, k + 1);
    assert all[0] == Work(w, start) && all[1..] == Alone(w, start, k);
  }

  lemma {:induction false} AloneMore<T>(s: Run<T>, w: nat, start: nat, j: nat, k: nat)
    requires RunOk(s)
    ensures Steps(s, Alone(w, start, j + k)) == Steps(Steps(s, Alone(w, start, j)), Alone(w, start, k))
    decreases j
  {
    hide Step, Steps, Alone;
    AloneOnce(s, w, start, 0);
    if j > 0 {
      AloneMore(Step(s, Work(w, start)), w, start, j - 1, k);
      AloneOnce(s, w, start, j - 1);
      AloneOnce(s, w, start, j - 1 + k);
      assert j + k == (j - 1 + k) + 1;
    }
  }

  /** The run after worker `w` has taken a job out of the pool, which became `q`, has executed it and is back at its own queue. */
  function Executed<T>(s: Run<T>, w: nat, q: Pool<T>, job: T): (r: Run<T>)
    requires w < |s.pcs|
  {
    Run(q, s.pcs[w := OwnQueue], s.submitted, s.executed + [job])
  }

  lemma RunsHeld<T>(s: Run<T>, w: nat, start: nat, job: T)
    requires RunOk(s) && w < |s.pcs| && s.pcs[w] == Holding(job)
    ensures Steps(s, Alone(w, start, 1)) == Executed(s, w, s.pool, job)
  {
    hide Steps;
    AloneOnce(s, w, start, 0);
    AloneOnce(Step(s, Work(w, start)), w, start, 0);
  }

  /** A step that takes a job, and the step that runs it. */
  lemma TakesAndRuns<T>(s: Run<T>, w: nat, start: nat, q: Pool<T>, job: T)
    requires RunOk(s) && w < |s.pcs| && |q.locals| == |s.pcs|
    requires Step(s, Work(w, start)) == s.(pool := q, pcs := s.pcs[w := Holding(job)])
    ensures Steps(s, Alone(w, start, 2)) == Executed(s, w, q, job)
  {
    hide Step, Steps, Alone;
    AloneOnce(s, w, start, 1);
    RunsHeld(Step(s, Work(w, start)), w, start, job);
    assert s.pcs[w := Holding(job)][w := OwnQueue] == s.pcs[w := OwnQueue];
  }

  /**
   * A scan entered at round `i`: it executes the first job it meets, or, when there is none, is back at its own queue with
   * nothing changed.
   */
  lemma {:induction false} ScanAlone<T>(s: Run<T>, w: nat, start: nat, from: nat, i: nat) returns (k: nat)
    requires RunOk(s) && w < |s.pcs| && s.pcs[w] == Stealing(from, i)
    ensures var n := |s.pcs|;
      var r := Steps(s, Alone(w, start, k));
      && k <= (if i < n then n - i else 0) + 1
      && (if i <= n && Scan(s.pool, from, i).1.Some?
          then r == Executed(s, w, Scan(s.pool, from, i).0, Scan(s.pool, from, i).1.value)
          else r == s.(pcs := s.pcs[w := OwnQueue]))
    decreases |s.pcs| - i
  {
    hide Steps, Alone, Victim;
    var n := |s.pcs|;
    if i >= n {
      k := 1;
      AloneOnce(s, w, start, 0);
      AloneOnce(Step(s, Work(w, start)), w, start, 0);
    } else {
      ScanRound(s.pool, from, i);
      var v := Victim(from, i, n);
      if s.pool.locals[v] == [] {
        var next := Step(s, Work(w, start));
        assert next == s.(pcs := s.pcs[w := Stealing(from, i + 1)]);
        k := ScanAlone(next, w, start, from, i + 1);
        AloneOnce(s, w, start, k);
        assert next.pcs[w := OwnQueue] == s.pcs[w := OwnQueue];
        k := k + 1;
      } else {
        k := 2;
        TakesAndRuns(s, w, start, Scan(s.pool, from, i).0, Scan(s.pool, from, i).1.value);
      }
    }
  }

  /** From the global queue on: what the search finds is executed, or, when there is nothing, nothing has changed. */
  lemma SearchAlone<T>(s: Run<T>, w: nat, start: nat) returns (k: nat)
    requires RunOk(s) && w < |s.pcs| && s.pcs[w] == GlobalQueue
    ensures var (q, job) := FindNewWork(s.pool, start);
      && k <= |s.pcs| + 2
      && Steps(s, Alone(w, start, k)) == if job.Some? then Executed(s, w, q, job.value) else s.(pcs := s.pcs[w := OwnQueue])
  {
    hide Steps, Alone, Scan;
    if s.pool.global != [] {
      k := 2;
      TakesAndRuns(s, w, start, s.pool.(global := s.pool.global[1..]), s.pool.global[0]);
    } else {
      var next := Step(s, Work(w, start));
      assert next == s.(pcs := s.pcs[w := Stealing(start, 0)]);
      k := ScanAlone(next, w, start, start, 0);
      AloneOnce(s, w, start, k);
      assert next.pcs[w := OwnQueue] == s.pcs[w := OwnQueue];
      k := k + 1;
    }
  }

  /** Worker `w` has executed the job that it was to work on, and no queue has changed but the one that gave it. */
  ghost predicate TurnDone<T>(s: Run<T>, r: Run<T>, w: nat, start: nat)
    requires w < |s.pcs| && w < |s.pool.locals|
  {
    && |r.executed| == |s.executed| + 1
    && WorkerFinds(s.pool, r.pool, r.executed[|s.executed|], w, start)
    && r == Executed(s, w, r.pool, r.executed[|s.executed|])
  }

  /**
   * One turn of a worker's loop, undisturbed: within n + 3 choices it has executed its own oldest job; if it had none, the
   * oldest global job; and if there was none, the oldest job of the first worker from `start` that had any. Only when
   * every queue is empty has it executed nothing, and then nothing has changed.
   */
  lemma TurnAlone<T>(s: Run<T>, w: nat, start: nat) returns (k: nat)
    requires RunOk(s) && w < |s.pcs| && s.pcs[w] == OwnQueue
    ensures k <= |s.pcs| + 3
    ensures var r := Steps(s, Alone(w, start, k)); if AllEmpty(s.pool) then r == s else TurnDone(s, r, w, start)
  {
    hide Steps, Alone, FindNewWork, SearchFinds;
    var queue := s.pool.locals[w];
    if queue != [] {
      k := 2;
      var q := s.pool.(locals := s.pool.locals[w := queue[1..]]);
      TakesAndRuns(s, w, start, q, queue[0]);
      assert WorkerFinds(s.pool, q, queue[0], w, start);
    } else {
      var next := Step(s, Work(w, start));
      assert next == s.(pcs := s.pcs[w := GlobalQueue]);
      k := SearchAlone(next, w, start);
      AloneOnce(s, w, start, k);
      k := k + 1;
      SearchOrder(s.pool, start);
      var (q, job) := FindNewWork(s.pool, start);
      assert next.pcs[w := OwnQueue] == s.pcs[w := OwnQueue];
      if job.Some? {
        assert Executed(next, w, q, job.value) == Executed(s, w, q, job.value);
        assert WorkerFinds(s.pool, q, job.value, w, start);
      } else {
        assert s.pcs[w := OwnQueue] == s.pcs;
      }
    }
  }

  /** Progress from anywhere in the loop: while it holds a job or some queue is not empty, a worker alone executes a job within 2n + 4 choices. */
  lemma WorkGetsDone<T>(s: Run<T>, w: nat, start: nat) returns (k: nat, job: T)
    requires RunOk(s) && w < |s.pcs| && (s.pcs[w].Holding? || !AllEmpty(s.pool))
    ensures k <= 2 * |s.pcs| + 4
    ensures var r := Steps(s, Alone(w, start, k));
      && r.executed == s.executed + [job] && r.submitted == s.submitted && r.pcs == s.pcs[w := OwnQueue]
      && (s.pcs[w].Holding? ==> job == s.pcs[w].job && r.pool == s.pool)
  {
    hide Steps, Alone, FindNewWork, AllEmpty, WorkerFinds, Scan;
    SearchOrder(s.pool, start);
    match s.pcs[w]
    case Holding(held) =>
      k, job := 1, held;
      RunsHeld(s, w, start, held);
    case OwnQueue =>
      k := TurnAlone(s, w, start);
      job := Steps(s, Alone(w, start, k)).executed[|s.executed|];
    case GlobalQueue =>
      k := SearchAlone(s, w, start);
      job := FindNewWork(s.pool, start).1.value;
    case Stealing(from, i) =>
      k := ScanAlone(s, w, start, from, i);
      var r := Steps(s, Alone(w, start, k));
      if r.executed == s.executed {
        var mid := s.(pcs := s.pcs[w := OwnQueue]);
        var more := TurnAlone(mid, w, start);
        AloneMore(s, w, start, k, more);
        job := Steps(mid, Alone(w, start, more)).executed[|s.executed|];
        k := k + more;
        assert mid.pcs[w := OwnQueue] == s.pcs[w := OwnQueue];
      } else {
        job := Scan(s.pool, from, i).1.value;
      }
  }

  // ---------- Draining the pool ----------

  ghost function Lengths<T>(queues: seq<seq<T>>): (n: nat)
    decreases |queues|
  {
    if queues == [] then 0 else Lengths(queues[..|queues| - 1]) + |queues[|queues| - 1]|
  }

  /** The jobs in all queues. */
  ghost function Queued<T>(p: Pool<T>): (n: nat) {
    |p.global| + Lengths(p.locals)
  }

  lemma {:induction false} LengthsUpdate<T>(queues: seq<seq<T>>, w: nat, queue: seq<T>)
    requires w < |queues|
    ensures Lengths(queues[w := queue]) + |queues[w]| == Lengths(queues) + |queue|
    decreases |queues|
  {
    var low, updated := queues[..|queues| - 1], queues[w := queue];
    if w < |low| {
      LengthsUpdate(low, w, queue);
      assert updated[..|low|] == low[w := queue];
    } else {
      assert updated[..|low|] == low;
    }
  }

  /** What a worker finds is one job fewer in the queues. */
  lemma FindingTakesOne<T>(p: Pool<T>, q: Pool<T>, job: T, w: nat, start: nat)
    requires w < |p.locals| && WorkerFinds(p, q, job, w, start)
    ensures Queued(q) + 1 == Queued(p)
  {
    forall v: nat | TakenFrom(p, q, job, v) ensures Queued(q) + 1 == Queued(p) {
      LengthsUpdate(p.locals, v, p.locals[v][1..]);
    }
  }

  /** A worker that works alone executes every queued job, one per turn of at most n + 3 choices. */
  lemma {:induction false} DrainsAlone<T>(s: Run<T>, w: nat, start: nat) returns (k: nat)
    requires RunOk(s) && w < |s.pcs| && s.pcs[w] == OwnQueue
    ensures k <= (|s.pcs| + 3) * Queued(s.pool)
    ensures var r := Steps(s, Alone(w, start, k));
      && AllEmpty(r.pool) && r.pcs == s.pcs && r.submitted == s.submitted
      && s.executed <= r.executed && |r.executed| == |s.executed| + Queued(s.pool)
    decreases Queued(s.pool)
  {
    hide Steps, Alone, AllEmpty, WorkerFinds;
    if AllEmpty(s.pool) {
      k := 0;
      AloneOnce(s, w, start, 0);
      EmptyCounts(s.pool);
    } else {
      var turn := TurnAlone(s, w, start);
      var mid := Steps(s, Alone(w, start, turn));
      FindingTakesOne(s.pool, mid.pool, mid.executed[|s.executed|], w, start);
      assert s.pcs[w := OwnQueue] == s.pcs;
      var more := DrainsAlone(mid, w, start);
      AloneMore(s, w, start, turn, more);
      k := turn + more;
      OneMoreTurn(|s.pcs| + 3, Queued(s.pool));
    }
  }

  lemma EmptyCounts<T>(p: Pool<T>)
    requires AllEmpty(p)
    ensures Queued(p) == 0
  {
    EmptyLengths(p.locals);
  }

  lemma {:induction false} EmptyLengths<T>(queues: seq<seq<T>>)
    requires forall w :: 0 <= w < |queues| ==> queues[w] == []
    ensures Lengths(queues) == 0
    decreases |queues|
  {
    if queues != [] {
      EmptyLengths(queues[..|queues| - 1]);
    }
  }

  lemma OneMoreTurn(n: nat, q: nat)
    requires 0 < q
    ensures n * q == n + n * (q - 1)
  {
  }
}
