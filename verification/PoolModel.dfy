/** The worker pool: what a search for work finds, and what any interleaving of workers does to the jobs. */
module PoolModel {
  import opened Arithmetic
  import opened RingModel
  import opened Wrappers

  /** The pool between calls: the global queue and one queue per worker. */
  datatype Pool<T> = Pool(global: seq<T>, locals: seq<seq<T>>)

  function Submit<T>(p: Pool<T>, worker: Option<nat>, jobs: seq<T>): (r: Pool<T>)
    requires worker.Some? ==> worker.value < |p.locals|
  {
    match worker
    case Some(id) => p.(locals := p.locals[id := p.locals[id] + jobs])
    case None => p.(global := p.global + jobs)
  }

  lemma SubmitNothing<T>(p: Pool<T>, worker: Option<nat>)
    requires worker.Some? ==> worker.value < |p.locals|
    ensures Submit(p, worker, []) == p
  {
    match worker
    case None => assert p.global + [] == p.global;
    case Some(id) => assert p.locals[id] + [] == p.locals[id];
  }

  lemma SubmitTwice<T>(p: Pool<T>, worker: Option<nat>, first: seq<T>, second: seq<T>)
    requires worker.Some? ==> worker.value < |p.locals|
    ensures Submit(Submit(p, worker, first), worker, second) == Submit(p, worker, first + second)
  {
    match worker
    case None => assert p.global + first + second == p.global + (first + second);
    case Some(id) =>
      assert p.locals[id] + first + second == p.locals[id] + (first + second);
      assert p.locals[id := p.locals[id] + first][id := p.locals[id] + first + second]
          == p.locals[id := p.locals[id] + (first + second)];
  }

  /** Jobs go to the end of one queue, that of the worker named, or else the global one. */
  lemma SubmitTo<T>(p: Pool<T>, worker: Option<nat>, jobs: seq<T>)
    requires worker.Some? ==> worker.value < |p.locals|
    ensures var q := Submit(p, worker, jobs);
      && |q.locals| == |p.locals|
      && q.global == p.global + (if worker == None then jobs else [])
      && forall w :: 0 <= w < |p.locals| ==> q.locals[w] == p.locals[w] + if worker == Some(w) then jobs else []
  {
  }

  /** The worker the scan visits in round `i`. */
  function Victim(start: nat, i: nat, n: nat): (w: nat)
    requires 0 < n
    ensures w < n
  {
    (start + i) % n
  }

  /** The steal scan from round `i` on: the first worker with a job gives up its oldest. */
  function Scan<T>(p: Pool<T>, start: nat, i: nat): (r: (Pool<T>, Option<T>))
    requires i <= |p.locals|
    ensures |r.0.locals| == |p.locals|
    decreases |p.locals| - i
  {
    if i == |p.locals| then (p, None)
    else
      var w := Victim(start, i, |p.locals|);
      if p.locals[w] == [] then Scan(p, start, i + 1)
      else (p.(locals := p.locals[w := p.locals[w][1..]]), Some(p.locals[w][0]))
  }

  lemma ScanRound<T>(p: Pool<T>, start: nat, i: nat)
    requires i < |p.locals|
    ensures var w := Victim(start, i, |p.locals|);
      Scan(p, start, i) == if p.locals[w] == [] then Scan(p, start, i + 1)
                           else (p.(locals := p.locals[w := p.locals[w][1..]]), Some(p.locals[w][0]))
  {
    hide Victim;
  }

  lemma ScanEnds<T>(p: Pool<T>, start: nat)
    ensures Scan(p, start, |p.locals|) == (p, None)
  {
  }

  /** The search for new work: the global queue first, then the scan. */
  function FindNewWork<T>(p: Pool<T>, start: nat): (r: (Pool<T>, Option<T>))
    ensures |r.0.locals| == |p.locals|
  {
    if p.global != [] then (p.(global := p.global[1..]), Some(p.global[0])) else Scan(p, start, 0)
  }

  ghost predicate AllEmpty<T>(p: Pool<T>) {
    p.global == [] && forall w :: 0 <= w < |p.locals| ==> p.locals[w] == []
  }

  /** From any start, the rounds of a scan visit every worker, each exactly once. */
  lemma ScanVisitsOnce(start: nat, n: nat, w: nat)
    requires w < n
    ensures var i := (w + n - start % n) % n;
      i < n && Victim(start, i, n) == w && forall j :: 0 <= j < n && Victim(start, j, n) == w ==> j == i
  {
    var c := start % n;
    var i := (w + n - c) % n;
    DivModUnique(w + n - c, n, if w < c then 0 else 1, if w < c then w + n - c else w - c);
    VictimFromOffset(start, i, n);
    forall j | 0 <= j < n && Victim(start, j, n) == w ensures j == i {
      VictimFromOffset(start, j, n);
    }
  }

  lemma VictimFromOffset(start: nat, i: nat, n: nat)
    requires i < n
    ensures Victim(start, i, n) == if start % n + i < n then start % n + i else start % n + i - n
  {
    var c := start % n;
    ModAdd(start, i, n);
    DivModUnique(c + i, n, if c + i < n then 0 else 1, if c + i < n then c + i else c + i - n);
  }

  lemma {:induction false} ScanFindsNothing<T>(p: Pool<T>, start: nat, i: nat)
    requires i <= |p.locals|
    ensures Scan(p, start, i).1 == None <==>
      forall j :: i <= j < |p.locals| ==> p.locals[Victim(start, j, |p.locals|)] == []
    ensures Scan(p, start, i).1 == None ==> Scan(p, start, i).0 == p
    decreases |p.locals| - i
  {
    if i < |p.locals| {
      ScanFindsNothing(p, start, i + 1);
      assert p.locals[Victim(start, i, |p.locals|)] == p.locals[Victim(start, i, |p.locals|)];
    }
  }

  /** With nobody interfering, a search returns nothing exactly when every queue is empty, wherever it starts. */
  lemma SearchFailsOnlyWhenEmpty<T>(p: Pool<T>, start: nat)
    ensures FindNewWork(p, start).1 == None <==> AllEmpty(p)
    ensures FindNewWork(p, start).1 == None ==> FindNewWork(p, start).0 == p
  {
    ScanFindsNothing(p, start, 0);
    var n := |p.locals|;
    if p.global == [] && Scan(p, start, 0).1 == None {
      forall w | 0 <= w < n ensures p.locals[w] == [] {
        ScanVisitsOnce(start, n, w);
      }
    }
  }

  /** From `p` to `q`, the oldest job of worker `w` is taken and nothing else. */
  ghost predicate TakenFrom<T>(p: Pool<T>, q: Pool<T>, job: T, w: nat) {
    w < |p.locals| && p.locals[w] != [] && job == p.locals[w][0] && q == p.(locals := p.locals[w := p.locals[w][1..]])
  }

  /** The job is the oldest of the first worker, circularly from `start`, that has one. */
  ghost predicate FirstFound<T>(p: Pool<T>, q: Pool<T>, job: T, start: nat) {
    var n := |p.locals|;
    exists i :: 0 <= i < n && (forall j :: 0 <= j < i ==> p.locals[Victim(start, j, n)] == [])
                && TakenFrom(p, q, job, Victim(start, i, n))
  }

  /** The oldest job of the global queue if it has any, else what the scan from `start` finds first. */
  ghost predicate SearchFinds<T>(p: Pool<T>, q: Pool<T>, job: T, start: nat) {
    if p.global != [] then job == p.global[0] && q == p.(global := p.global[1..]) else FirstFound(p, q, job, start)
  }

  /** What worker `w` is to work on: its own oldest job if it has any, else what a search finds. */
  ghost predicate WorkerFinds<T>(p: Pool<T>, q: Pool<T>, job: T, w: nat, start: nat)
    requires w < |p.locals|
  {
    if p.locals[w] != [] then TakenFrom(p, q, job, w) else SearchFinds(p, q, job, start)
  }

  lemma {:induction false} ScanFindsFirst<T>(p: Pool<T>, start: nat, i: nat)
    requires i <= |p.locals| && forall j :: 0 <= j < i ==> p.locals[Victim(start, j, |p.locals|)] == []
    ensures var (q, job) := Scan(p, start, i); job.Some? ==> FirstFound(p, q, job.value, start)
    decreases |p.locals| - i
  {
    hide Victim;
    if i < |p.locals| {
      if p.locals[Victim(start, i, |p.locals|)] == [] {
        ScanFindsFirst(p, start, i + 1);
      } else {
        assert TakenFrom(p, Scan(p, start, i).0, Scan(p, start, i).1.value, Victim(start, i, |p.locals|));
      }
    }
  }

  /** Which queue gives the job: the global queue before any worker, and of the workers the first from `start` that has one. */
  lemma SearchOrder<T>(p: Pool<T>, start: nat)
    ensures var (q, job) := FindNewWork(p, start);
      if AllEmpty(p) then job == None && q == p else job.Some? && SearchFinds(p, q, job.value, start)
  {
    SearchFailsOnlyWhenEmpty(p, start);
    ScanFindsFirst(p, start, 0);
  }

  // ---------- Counting jobs ----------

  ghost function Occurs<T>(jobs: seq<T>, x: T): (n: nat)
    decreases |jobs|
  {
    if jobs == [] then 0 else Occurs(jobs[..|jobs| - 1], x) + if jobs[|jobs| - 1] == x then 1 else 0
  }

  ghost function OccursIn<T>(queues: seq<seq<T>>, x: T): (n: nat)
    decreases |queues|
  {
    if queues == [] then 0 else OccursIn(queues[..|queues| - 1], x) + Occurs(queues[|queues| - 1], x)
  }

  lemma OccursPush<T>(jobs: seq<T>, y: T, x: T)
    ensures Occurs(jobs + [y], x) == Occurs(jobs, x) + if y == x then 1 else 0
  {
    assert (jobs + [y])[..|jobs|] == jobs;
  }

  lemma {:induction false} OccursPop<T>(jobs: seq<T>, x: T)
    requires jobs != []
    ensures Occurs(jobs, x) == Occurs(jobs[1..], x) + if jobs[0] == x then 1 else 0
    decreases |jobs|
  {
    var low := jobs[..|jobs| - 1];
    if low == [] {
      assert jobs[1..] == [];
    } else {
      OccursPop(low, x);
      assert jobs[1..] == low[1..] + [jobs[|jobs| - 1]];
      OccursPush(low[1..], jobs[|jobs| - 1], x);
    }
  }

  lemma {:induction false} OccursInUpdate<T>(queues: seq<seq<T>>, w: nat, jobs: seq<T>, x: T)
    requires w < |queues|
    ensures OccursIn(queues[w := jobs], x) + Occurs(queues[w], x) == OccursIn(queues, x) + Occurs(jobs, x)
    decreases |queues|
  {
    var low, updated := queues[..|queues| - 1], queues[w := jobs];
    if w < |low| {
      OccursInUpdate(low, w, jobs, x);
      assert updated[..|low|] == low[w := jobs];
    } else {
      assert updated[..|low|] == low;
    }
  }

  // ---------- Workers at work ----------

  /** Where a worker's loop stands. */
  datatype Pc<T> =
    | OwnQueue                         // about to dequeue from its own queue
    | GlobalQueue                      // about to dequeue from the global queue
    | Stealing(start: nat, i: nat)     // about to visit the victim of round i
    | Holding(job: T)                  // about to run a job

  datatype Run<T> = Run(pool: Pool<T>, pcs: seq<Pc<T>>, submitted: seq<T>, executed: seq<T>)

  /**
   * What happens next: someone enqueues one job, on the global queue or, from inside a job, on a worker's own
   * queue; or a worker makes its next queue access, starting a scan it enters at an arbitrary `start`.
   */
  datatype Choice<T> = Enqueue(target: Option<nat>, job: T) | Work(worker: nat, start: nat)

  ghost predicate RunOk<T>(s: Run<T>) {
    |s.pcs| == |s.pool.locals|
  }

  /** A queue access that takes the oldest job of worker `v`, or moves on to `next` when there is none. */
  function TakeLocal<T>(s: Run<T>, w: nat, v: nat, next: Pc<T>): (r: Run<T>)
    requires RunOk(s) && w < |s.pcs| && v < |s.pool.locals|
    ensures RunOk(r)
  {
    var queue := s.pool.locals[v];
    if queue == [] then s.(pcs := s.pcs[w := next])
    else s.(pool := s.pool.(locals := s.pool.locals[v := queue[1..]]), pcs := s.pcs[w := Holding(queue[0])])
  }

  function Step<T>(s: Run<T>, c: Choice<T>): (r: Run<T>)
    requires RunOk(s)
    ensures RunOk(r)
  {
    match c
    case Enqueue(worker, job) =>
      if worker.Some? && worker.value >= |s.pcs| then s
      else s.(pool := Submit(s.pool, worker, [job]), submitted := s.submitted + [job])
    case Work(w, start) =>
      if w >= |s.pcs| then s
      else match s.pcs[w]
        case OwnQueue => TakeLocal(s, w, w, GlobalQueue)
        case GlobalQueue =>
          if s.pool.global == [] then s.(pcs := s.pcs[w := Stealing(start, 0)])
          else s.(pool := s.pool.(global := s.pool.global[1..]), pcs := s.pcs[w := Holding(s.pool.global[0])])
        case Stealing(from, i) =>
          if i >= |s.pcs| then s.(pcs := s.pcs[w := OwnQueue])
          else TakeLocal(s, w, Victim(from, i, |s.pcs|), Stealing(from, i + 1))
        case Holding(job) => s.(pcs := s.pcs[w := OwnQueue], executed := s.executed + [job])
  }

  ghost function Held<T>(pcs: seq<Pc<T>>, x: T): (n: nat)
    decreases |pcs|
  {
    if pcs == [] then 0
    else
      var last := pcs[|pcs| - 1];
      Held(pcs[..|pcs| - 1], x) + if last.Holding? && last.job == x then 1 else 0
  }

  lemma {:induction false} HeldUpdate<T>(pcs: seq<Pc<T>>, w: nat, pc: Pc<T>, x: T)
    requires w < |pcs|
    ensures Held(pcs[w := pc], x) + (if pcs[w].Holding? && pcs[w].job == x then 1 else 0)
         == Held(pcs, x) + if pc.Holding? && pc.job == x then 1 else 0
    decreases |pcs|
  {
    var low, updated := pcs[..|pcs| - 1], pcs[w := pc];
    if w < |low| {
      HeldUpdate(low, w, pc, x);
      assert updated[..|low|] == low[w := pc];
    } else {
      assert updated[..|low|] == low;
    }
  }

  /** Every submitted job is in exactly one place: the global queue, a worker's queue, a worker's hand, or executed. */
  ghost predicate Conserved<T>(s: Run<T>, x: T) {
    Occurs(s.submitted, x)
      == Occurs(s.pool.global, x) + OccursIn(s.pool.locals, x) + Held(s.pcs, x) + Occurs(s.executed, x)
  }

  lemma TakeLocalConserves<T>(s: Run<T>, w: nat, v: nat, next: Pc<T>, x: T)
    requires RunOk(s) && w < |s.pcs| && v < |s.pool.locals| && Conserved(s, x)
    requires !s.pcs[w].Holding? && !next.Holding?
    ensures Conserved(TakeLocal(s, w, v, next), x)
  {
    var queue := s.pool.locals[v];
    if queue == [] {
      HeldUpdate(s.pcs, w, next, x);
    } else {
      HeldUpdate(s.pcs, w, Holding(queue[0]), x);
      OccursInUpdate(s.pool.locals, v, queue[1..], x);
      OccursPop(queue, x);
    }
  }

  lemma SubmitConserves<T>(s: Run<T>, worker: Option<nat>, job: T, x: T)
    requires RunOk(s) && Conserved(s, x)
    ensures Conserved(Step(s, Enqueue(worker, job)), x)
  {
    OccursPush(s.submitted, job, x);
    match worker
    case None => OccursPush(s.pool.global, job, x);
    case Some(id) =>
      if id < |s.pcs| {
        OccursInUpdate(s.pool.locals, id, s.pool.locals[id] + [job], x);
        OccursPush(s.pool.locals[id], job, x);
      }
  }

  lemma StepConserves<T>(s: Run<T>, c: Choice<T>, x: T)
    requires RunOk(s) && Conserved(s, x)
    ensures Conserved(Step(s, c), x)
  {
    match c
    case Enqueue(worker, job) => SubmitConserves(s, worker, job, x);
    case Work(w, start) =>
      if w < |s.pcs| {
        match s.pcs[w]
        case OwnQueue => TakeLocalConserves(s, w, w, GlobalQueue, x);
        case GlobalQueue =>
          if s.pool.global == [] {
            HeldUpdate(s.pcs, w, Stealing(start, 0), x);
          } else {
            HeldUpdate(s.pcs, w, Holding(s.pool.global[0]), x);
            OccursPop(s.pool.global, x);
          }
        case Stealing(from, i) =>
          if i >= |s.pcs| {
            HeldUpdate(s.pcs, w, OwnQueue, x);
          } else {
            TakeLocalConserves(s, w, Victim(from, i, |s.pcs|), Stealing(from, i + 1), x);
          }
        case Holding(job) =>
          HeldUpdate(s.pcs, w, OwnQueue, x);
          OccursPush(s.executed, job, x);
      }
  }

  function Steps<T>(s: Run<T>, choices: seq<Choice<T>>): (r: Run<T>)
    requires RunOk(s)
    ensures RunOk(r)
    decreases |choices|
  {
    if choices == [] then s else Steps(Step(s, choices[0]), choices[1..])
  }

  lemma {:induction false} StepsConserve<T>(s: Run<T>, choices: seq<Choice<T>>, x: T)
    requires RunOk(s) && Conserved(s, x)
    ensures Conserved(Steps(s, choices), x)
    decreases |choices|
  {
    if choices != [] {
      StepConserves(s, choices[0], x);
      StepsConserve(Step(s, choices[0]), choices[1..], x);
    }
  }

  function Start<T>(n: nat): (s: Run<T>)
    ensures RunOk(s)
  {
    Run(Pool([], seq(n, i => [])), seq(n, i => OwnQueue), [], [])
  }

  lemma {:induction false} StartEmpty<T>(n: nat, x: T)
    ensures Held(Start<T>(n).pcs, x) == 0 && OccursIn(Start<T>(n).pool.locals, x) == 0
    decreases n
  {
    if n > 0 {
      StartEmpty<T>(n - 1, x);
      assert Start<T>(n).pcs[..n - 1] == Start<T>(n - 1).pcs;
      assert Start<T>(n).pool.locals[..n - 1] == Start<T>(n - 1).pool.locals;
    }
  }

  /**
   * Job conservation: under every interleaving of submissions and workers, a job is queued, in hand or executed
   * exactly as often as it was submitted. So it never runs more often than that, and once every queue is empty
   * and no worker holds a job, it has run exactly that often.
   */
  lemma JobConservation<T>(n: nat, choices: seq<Choice<T>>, x: T)
    ensures var s := Steps(Start<T>(n), choices);
      && Conserved(s, x)
      && Occurs(s.executed, x) <= Occurs(s.submitted, x)
      && (AllEmpty(s.pool) && (forall w :: 0 <= w < |s.pcs| ==> !s.pcs[w].Holding?) ==>
          Occurs(s.executed, x) == Occurs(s.submitted, x))
  {
    StartEmpty<T>(n, x);
    StepsConserve(Start<T>(n), choices, x);
    var s := Steps(Start<T>(n), choices);
    if AllEmpty(s.pool) && forall w :: 0 <= w < |s.pcs| ==> !s.pcs[w].Holding? {
      NothingQueued(s.pool.locals, x);
      NothingHeld(s.pcs, x);
    }
  }

  lemma {:induction false} NothingQueued<T>(queues: seq<seq<T>>, x: T)
    requires forall w :: 0 <= w < |queues| ==> queues[w] == []
    ensures OccursIn(queues, x) == 0
    decreases |queues|
  {
    if queues != [] {
      NothingQueued(queues[..|queues| - 1], x);
    }
  }

  lemma {:induction false} NothingHeld<T>(pcs: seq<Pc<T>>, x: T)
    requires forall w :: 0 <= w < |pcs| ==> !pcs[w].Holding?
    ensures Held(pcs, x) == 0
    decreases |pcs|
  {
    if pcs != [] {
      NothingHeld(pcs[..|pcs| - 1], x);
    }
  }
}
