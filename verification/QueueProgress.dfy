/** Calls on the job queue return: what one thread comes to when it proceeds alone. */
module QueueProgress {
  import opened RingModel
  import opened Wrappers
  import opened QueueLinearizability

  /** Thread `t` makes its next `k` accesses, with no other thread in between. */
  function Alone<T>(t: nat, k: nat): (choices: seq<Choice<T>>)
    ensures |choices| == k
  {
    seq(k, i => Proceed(t))
  }

  /** Accesses a call has left at most, the return included. */
  function Left<T>(pc: Pc<T>): (n: nat)
    ensures n <= 8 && (n == 0 <==> pc == Idle) && (HoldsLock(pc) ==> 2 <= n <= 6)
  {
    match pc
    case Idle => 0
    case EnqLocking(_) => 7
    case EnqGrowing(_) => 6
    case EnqStoring(_) => 5
    case EnqAdvancing(_) => 4
    case EnqCounting(_) => 3
    case EnqUnlocking => 2
    case DeqPeeking => 8
    case DeqLocking => 7
    case DeqTesting => 6
    case DeqTaking => 5
    case DeqAdvancing(_) => 4
    case DeqCounting(_) => 3
    case DeqUnlocking(_) => 2
    case Returning(_) => 1
  }

  /** Thread `t` is inside a call, and no other thread holds the lock. */
  ghost predicate Unhindered<T>(s: State<T>, t: nat) {
    Inv(s) && t < |s.pcs| && s.pcs[t] != Idle && (s.lock == None || s.lock == Some(t))
  }

  /** One access of `t`: it ends the call, or leaves fewer of them and the thread unhindered. */
  ghost predicate CountsDown<T>(s: State<T>, s': State<T>, e: Event<T>, t: nat) {
    && t < |s.pcs| == |s'.pcs| && s'.pcs == s.pcs[t := s'.pcs[t]]
    && (if e.Returned? then e.thread == t && s'.pcs[t] == Idle && s'.lock == s.lock == None
        else e == Silent && Unhindered(s', t) && Left(s'.pcs[t]) < Left(s.pcs[t]))
  }

  lemma AccessCounts<T>(s: State<T>, t: nat, blank: T)
    requires Unhindered(s, t)
    ensures StateOk(s)
    ensures var (s', e) := Step(s, Proceed(t), blank); Inv(s') && CountsDown(s, s', e, t)
  {
    hide Grown, Contents, Legal, Replay, Queue, Holder, HolderOk;
    StepSimulates(s, Proceed(t), blank);
    assert HoldsLock(s.pcs[t]) <==> s.lock == Some(t);
  }

  /** The states and events of `k` accesses of thread `t` alone end its call: the last is the return, and the others show nothing. */
  ghost predicate ReturnsAfter<T>(s: State<T>, t: nat, k: nat, blank: T)
    requires StateOk(s)
  {
    var (states, events) := Run(s, Alone(t, k), blank);
    && 0 < k
    && events[k - 1].Returned? && events[k - 1].thread == t
    && (forall i :: 0 <= i < k - 1 ==> events[i] == Silent)
    && t < |s.pcs| && states[k].pcs == s.pcs[t := Idle] && states[k].lock == None
  }

  lemma RunAlone<T>(s: State<T>, t: nat, k: nat, blank: T)
    requires StateOk(s)
    ensures var (s', e) := Step(s, Proceed(t), blank);
      Run(s, Alone(t, k + 1), blank) == ([s] + Run(s', Alone(t, k), blank).0, [e] + Run(s', Alone(t, k), blank).1)
    ensures Run(s, Alone(t, 0), blank) == ([s], [])
  {
    hide Step;
    assert Alone<T>(t, k + 1)[0] == Proceed(t) && Alone<T>(t, k + 1)[1..] == Alone(t, k);
  }

  lemma ReturnsNow<T>(s: State<T>, t: nat, blank: T)
    requires StateOk(s) && t < |s.pcs|
    requires var (s', e) := Step(s, Proceed(t), blank);
      e.Returned? && e.thread == t && s'.pcs == s.pcs[t := Idle] && s'.lock == None
    ensures ReturnsAfter(s, t, 1, blank)
  {
    hide Step, StateOk, Alone;
    RunAlone(s, t, 0, blank);
    RunAlone(Step(s, Proceed(t), blank).0, t, 0, blank);
  }

  lemma ReturnsLater<T>(s: State<T>, t: nat, k: nat, blank: T)
    requires StateOk(s) && t < |s.pcs|
    requires var (s', e) := Step(s, Proceed(t), blank);
      e == Silent && s'.pcs == s.pcs[t := s'.pcs[t]] && ReturnsAfter(s', t, k, blank)
    ensures ReturnsAfter(s, t, k + 1, blank)
  {
    hide Step, StateOk, Alone;
    var (s', e) := Step(s, Proceed(t), blank);
    RunAlone(s, t, k, blank);
    var (later, shown) := Run(s', Alone(t, k), blank);
    forall i | 0 <= i < k ensures ([e] + shown)[i] == Silent {
      if i > 0 {
        assert ([e] + shown)[i] == shown[i - 1];
      }
    }
    assert ([e] + shown)[k] == shown[k - 1] && ([s] + later)[k + 1] == later[k];
    assert s'.pcs[t := Idle] == s.pcs[t := Idle];
  }

  /**
   * No call hangs: from every reachable state, a thread inside a call that proceeds alone, while no other thread
   * holds the lock, has returned after at most 8 accesses.
   */
  lemma {:induction false} CallReturns<T>(s: State<T>, t: nat, blank: T) returns (k: nat)
    requires Unhindered(s, t)
    ensures k <= Left(s.pcs[t]) <= 8 && ReturnsAfter(s, t, k, blank)
    decreases Left(s.pcs[t])
  {
    hide Inv, Step, Left, ReturnsAfter;
    InvLegal(s);
    AccessCounts(s, t, blank);
    var (s', e) := Step(s, Proceed(t), blank);
    InvLegal(s');
    if e.Returned? {
      k := 1;
      ReturnsNow(s, t, blank);
    } else {
      k := CallReturns(s', t, blank);
      ReturnsLater(s, t, k, blank);
      k := k + 1;
    }
  }

  /** Whoever holds the lock frees it: after at most 5 accesses of its own, with nothing shown to callers. */
  lemma {:induction false} LockIsFreed<T>(s: State<T>, t: nat, blank: T) returns (k: nat)
    requires Inv(s) && s.lock == Some(t)
    ensures k <= 5 && Run(s, Alone(t, k), blank).0[k].lock == None
    ensures forall i :: 0 <= i < k ==> Run(s, Alone(t, k), blank).1[i] == Silent
    ensures t < |s.pcs| && k < Left(s.pcs[t])
    decreases if t < |s.pcs| then Left(s.pcs[t]) else 0
  {
    hide Step, Left, Alone;
    assert HoldsLock(s.pcs[t]);
    AccessCounts(s, t, blank);
    var (s', e) := Step(s, Proceed(t), blank);
    if s'.lock == None {
      k := 0;
      RunAlone(s', t, 0, blank);
    } else {
      k := LockIsFreed(s', t, blank);
    }
    RunAlone(s, t, k, blank);
    var (later, shown) := Run(s', Alone(t, k), blank);
    forall i | 0 <= i < k + 1 ensures ([e] + shown)[i] == Silent {
      if i > 0 {
        assert ([e] + shown)[i] == shown[i - 1];
      }
    }
    assert ([s] + later)[k + 1] == later[k];
    k := k + 1;
  }

  /** So the queue never deadlocks: while any call is open, some thread can end its call on its own. */
  lemma NoDeadlock<T>(s: State<T>, t: nat, blank: T) returns (u: nat, k: nat)
    requires Inv(s) && t < |s.pcs| && s.pcs[t] != Idle
    ensures s.lock == None ==> u == t
    ensures k <= 8 && ReturnsAfter(s, u, k, blank)
  {
    hide Step, Left, ReturnsAfter, Queue, HolderOk, Legal, Replay;
    u := if s.lock.Some? then s.lock.value else t;
    assert HoldsLock(s.pcs[u]) <==> s.lock == Some(u);
    k := CallReturns(s, u, blank);
  }

  // ---------- Calls one after the other ----------

  /** No call is open. */
  ghost predicate Quiet<T>(s: State<T>) {
    Inv(s) && forall u :: 0 <= u < |s.pcs| ==> s.pcs[u] == Idle
  }

  /** The one open call, of thread `t` on a queue that was `q`, has not taken effect, or has as it should. */
  ghost predicate Serving<T>(a: Atomic<T>, t: nat, call: Call<T>, q: seq<T>) {
    && t < |a.calls| && (forall u :: 0 <= u < |a.calls| && u != t ==> a.calls[u] == NoCall)
    && ((a.calls[t] == Pending(call) && a.queue == q)
        || (a.calls[t] == Committed(Effect(q, call).1) && a.queue == Effect(q, call).0))
  }

  lemma ServesOn<T>(a: Atomic<T>, b: Atomic<T>, t: nat, call: Call<T>, q: seq<T>)
    requires Serving(a, t, call, q) && AtomicStep(a, b, Silent)
    ensures Serving(b, t, call, q)
  {
  }

  lemma Served<T>(a: Atomic<T>, b: Atomic<T>, t: nat, result: Option<T>, call: Call<T>, q: seq<T>)
    requires Serving(a, t, call, q) && AtomicStep(a, b, Returned(t, result))
    ensures result == Effect(q, call).1 && b.queue == Effect(q, call).0
  {
  }

  lemma {:induction false} ServesAll<T>(states: seq<State<T>>, events: seq<Event<T>>, t: nat, call: Call<T>, q: seq<T>, i: nat)
    requires |states| == |events| + 1 && forall j :: 0 <= j < |states| ==> StateOk(states[j])
    requires AtomicRun(states, events) && i <= |events| && forall j :: 0 <= j < i ==> events[j] == Silent
    requires Serving(Abstract(states[0]), t, call, q)
    ensures Serving(Abstract(states[i]), t, call, q)
    decreases i
  {
    hide Abstract, AtomicStep, Serving, StateOk;
    if i > 0 {
      ServesAll(states, events, t, call, q, i - 1);
      ServesOn(Abstract(states[i - 1]), Abstract(states[i]), t, call, q);
    }
  }

  /** A call that begins when no other is open. */
  lemma CallBegins<T>(s: State<T>, t: nat, call: Call<T>, blank: T)
    requires Quiet(s) && t < |s.pcs|
    ensures var (s', e) := Step(s, Start(t, call), blank);
      && e == Invoked(t, call) && s'.pcs == s.pcs[t := s'.pcs[t]]
      && Unhindered(s', t) && Serving(Abstract(s'), t, call, Queue(s))
  {
    hide Queue, HolderOk, Legal, Replay;
    StepSimulates(s, Start(t, call), blank);
    var s' := Step(s, Start(t, call), blank).0;
    assert Abstract(s).calls[t] == NoCall;
    assert s.lock.Some? ==> HoldsLock(s.pcs[s.lock.value]);
  }

  /**
   * Sequential meaning: on a queue that no other call is open on, a call of any thread that proceeds alone returns,
   * after at most 8 accesses, exactly what the call gives on the first-in first-out sequence, and leaves that
   * sequence with the call's effect.
   */
  lemma CallAlone<T>(s: State<T>, t: nat, call: Call<T>, blank: T) returns (k: nat)
    requires Quiet(s) && t < |s.pcs|
    ensures var s1 := Step(s, Start(t, call), blank).0;
      var (states, events) := Run(s1, Alone(t, k), blank);
      && k <= 8 && ReturnsAfter(s1, t, k, blank)
      && events[k - 1] == Returned(t, Effect(Queue(s), call).1)
      && Quiet(states[k]) && |states[k].pcs| == |s.pcs| && Queue(states[k]) == Effect(Queue(s), call).0
  {
    hide Inv, Step, Left, Alone, Queue, Effect, Serving, AtomicStep, Run;
    InvLegal(s);
    var s1 := Step(s, Start(t, call), blank).0;
    CallBegins(s, t, call, blank);
    InvLegal(s1);
    k := CallReturns(s1, t, blank);
    RunSimulates(s1, Alone(t, k), blank);
    var (states, events) := Run(s1, Alone(t, k), blank);
    ServesAll(states, events, t, call, Queue(s), k - 1);
    assert AtomicStep(Abstract(states[k - 1]), Abstract(states[k]), events[k - 1]);
    Served(Abstract(states[k - 1]), Abstract(states[k]), t, events[k - 1].result, call, Queue(s));
    assert states[k] in states;
    assert s1.pcs[t := Idle] == s.pcs;
  }

  /** On a new queue, what one thread enqueues another, or the same, then dequeues. */
  lemma EnqueueThenDequeue<T>(base: nat, blank: T, threads: nat, t: nat, u: nat, x: T) returns (j: nat, k: nat)
    requires 0 < base && t < threads && u < threads
    ensures var s1 := Step(Init(base, blank, threads), Start(t, EnqueueCall(x)), blank).0;
      && 0 < j <= 8 && Run(s1, Alone(t, j), blank).1[j - 1] == Returned(t, None)
      && var s2 := Step(Run(s1, Alone(t, j), blank).0[j], Start(u, DequeueCall), blank).0;
        && 0 < k <= 8 && Run(s2, Alone(u, k), blank).1[k - 1] == Returned(u, Some(x))
  {
    hide Inv, Step, Alone, Queue, Abstract, Run;
    var s := Init(base, blank, threads);
    InitInv(base, blank, threads);
    NewIsEmpty(base, blank, threads);
    j := CallAlone(s, t, EnqueueCall(x), blank);
    var mid := Run(Step(s, Start(t, EnqueueCall(x)), blank).0, Alone(t, j), blank).0[j];
    InvLegal(mid);
    k := CallAlone(mid, u, DequeueCall, blank);
  }

  lemma NewIsEmpty<T>(base: nat, blank: T, threads: nat)
    requires 0 < base
    ensures Queue(Init(base, blank, threads)) == []
  {
  }

  /** A dequeue that begins while the committed queue is empty returns nothing after two accesses, without the lock, whoever holds it. */
  lemma EmptyDequeueNeedsNoLock<T>(s: State<T>, t: nat, blank: T)
    requires Inv(s) && t < |s.pcs| && s.pcs[t] == Idle && Queue(s) == []
    ensures var s1 := Step(s, Start(t, DequeueCall), blank).0;
      Run(s1, Alone(t, 2), blank).1 == [Silent, Returned(t, None)]
  {
    hide Inv, Alone, Queue;
    InvLegal(s);
    InvCounts(s);
    var s1 := Step(s, Start(t, DequeueCall), blank).0;
    RunAlone(s1, t, 1, blank);
    var s2 := Step(s1, Proceed(t), blank).0;
    RunAlone(s2, t, 0, blank);
    RunAlone(Step(s2, Proceed(t), blank).0, t, 0, blank);
  }

  lemma InvCounts<T>(s: State<T>)
    requires Inv(s)
    ensures s.size == |Queue(s)|
  {
  }

  // ---------- An undisturbed call is the method ----------

  /** The ring after the method body of a call, run in one piece. */
  function MethodRing<T>(r: Ring<T>, call: Call<T>, blank: T): (g: Ring<T>)
    requires r.WellFormed()
    ensures g.WellFormed()
  {
    match call
    case EnqueueCall(x) => Enqueue(r, x, blank)
    case DequeueCall => Dequeue(r).0
  }

  /** How far the ring, `r` before the call, has come when the call of a thread stands at `pc`. */
  ghost predicate RingAt<T>(pc: Pc<T>, ring: Ring<T>, r: Ring<T>, call: Call<T>, blank: T)
    requires r.WellFormed()
  {
    var g := if r.IsFull() then Grown(r, blank) else r;
    match pc
    case EnqLocking(x) => call == EnqueueCall(x) && ring == r
    case EnqGrowing(x) => call == EnqueueCall(x) && ring == r
    case EnqStoring(x) => call == EnqueueCall(x) && ring == g
    case EnqAdvancing(x) => call == EnqueueCall(x) && ring == g.(slots := g.slots[g.tail := x])
    case DeqPeeking => call == DequeueCall && ring == r
    case DeqLocking => call == DequeueCall && ring == r
    case DeqTesting => call == DequeueCall && ring == r
    case DeqTaking => call == DequeueCall && ring == r && r.head != r.tail
    case DeqAdvancing(_) => call == DequeueCall && ring == r && r.head != r.tail
    case _ => ring == MethodRing(r, call, blank)
  }

  lemma RingStep<T>(s: State<T>, t: nat, r: Ring<T>, call: Call<T>, blank: T)
    requires Unhindered(s, t) && r.WellFormed() && RingAt(s.pcs[t], s.ring, r, call, blank)
    ensures StateOk(s)
    ensures var s' := Step(s, Proceed(t), blank).0; t < |s'.pcs| && RingAt(s'.pcs[t], s'.ring, r, call, blank)
  {
    hide Grown, Contents, Legal, Replay;
    assert HoldsLock(s.pcs[t]) <==> s.lock == Some(t);
    FullMeansCount(s.ring);
  }

  lemma {:induction false} RingRuns<T>(s: State<T>, t: nat, k: nat, r: Ring<T>, call: Call<T>, blank: T)
    requires Unhindered(s, t) && r.WellFormed() && RingAt(s.pcs[t], s.ring, r, call, blank)
    requires StateOk(s) && ReturnsAfter(s, t, k, blank)
    ensures Run(s, Alone(t, k), blank).0[k].ring == MethodRing(r, call, blank)
    decreases k
  {
    hide Inv, Step, Alone, Left, MethodRing;
    AccessCounts(s, t, blank);
    RingStep(s, t, r, call, blank);
    var (s', e) := Step(s, Proceed(t), blank);
    InvLegal(s');
    RunAlone(s, t, k - 1, blank);
    var (later, shown) := Run(s', Alone(t, k - 1), blank);
    assert ([s] + later)[k] == later[k - 1];
    if k == 1 {
      RunAlone(s', t, 0, blank);
    } else {
      assert ([e] + shown)[0] == e;
      assert ([e] + shown)[k - 1] == shown[k - 2];
      forall i | 0 <= i < k - 2 ensures shown[i] == Silent {
        assert ([e] + shown)[i + 1] == shown[i];
      }
      assert s'.pcs[t := Idle] == s.pcs[t := Idle];
      RingRuns(s', t, k - 1, r, call, blank);
    }
  }

  /**
   * The accesses are those of the methods: a call that no other interferes with leaves the ring slot for slot as the
   * method body does, resized when and only when the method resizes it.
   */
  lemma CallIsMethod<T>(s: State<T>, t: nat, call: Call<T>, blank: T, k: nat)
    requires Quiet(s) && t < |s.pcs|
    requires StateOk(s) && ReturnsAfter(Step(s, Start(t, call), blank).0, t, k, blank)
    ensures Run(Step(s, Start(t, call), blank).0, Alone(t, k), blank).0[k].ring == MethodRing(s.ring, call, blank)
  {
    hide Inv, Alone, MethodRing, Run, ReturnsAfter, Grown;
    CallBegins(s, t, call, blank);
    var s1 := Step(s, Start(t, call), blank).0;
    InvLegal(s1);
    RingRuns(s1, t, k, s.ring, call, blank);
  }
}
