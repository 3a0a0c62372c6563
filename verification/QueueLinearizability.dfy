/**
 * The job queue under any number of threads, one shared access at a time: its calls take effect atomically on
 * a first-in first-out sequence, at the update of the size counter or at the check that finds the queue empty.
 */
module QueueLinearizability {
  import opened RingModel
  import opened Wrappers

  datatype Call<T> = EnqueueCall(x: T) | DequeueCall

  /** Where a thread stands in `enqueue` or `dequeue`. */
  datatype Pc<T> =
    | Idle
    | EnqLocking(x: T)      // about to take the lock
    | EnqGrowing(x: T)      // holds the lock, about to resize if the ring is full
    | EnqStoring(x: T)      // about to write the slot at the tail
    | EnqAdvancing(x: T)    // about to move the tail
    | EnqCounting(x: T)     // about to add one to the size
    | EnqUnlocking          // about to release the lock
    | DeqPeeking            // about to read the size without the lock
    | DeqLocking
    | DeqTesting            // holds the lock, about to compare head and tail
    | DeqTaking             // about to move the job out of the slot at the head
    | DeqAdvancing(x: T)    // about to move the head
    | DeqCounting(x: T)     // about to take one from the size
    | DeqUnlocking(result: Option<T>)
    | Returning(result: Option<T>)

  /** A committed call with its result; the log is a history variable that no step reads. */
  datatype Commit<T> = Commit(thread: nat, call: Call<T>, result: Option<T>)

  datatype State<T> = State(ring: Ring<T>, size: int, lock: Option<nat>, pcs: seq<Pc<T>>, log: seq<Commit<T>>)

  datatype Event<T> = Invoked(thread: nat, call: Call<T>) | Returned(thread: nat, result: Option<T>) | Silent

  /** What the scheduler picks: a thread that starts a call, or a thread that makes its next access. */
  datatype Choice<T> = Start(thread: nat, call: Call<T>) | Proceed(thread: nat)

  predicate HoldsLock<T>(pc: Pc<T>) {
    pc.EnqGrowing? || pc.EnqStoring? || pc.EnqAdvancing? || pc.EnqCounting? || pc.EnqUnlocking?
    || pc.DeqTesting? || pc.DeqTaking? || pc.DeqAdvancing? || pc.DeqCounting? || pc.DeqUnlocking?
  }

  ghost predicate StateOk<T>(s: State<T>) {
    s.ring.WellFormed()
  }

  /** One access of thread `t`; waiting for a lock that is taken changes nothing. */
  function Proceeded<T>(s: State<T>, t: nat, blank: T): (r: (State<T>, Event<T>))
    requires StateOk(s) && t < |s.pcs|
    ensures StateOk(r.0)
  {
    var at := (pc: Pc<T>) => s.pcs[t := pc];
    match s.pcs[t]
    case Idle => (s, Silent)
    case EnqLocking(x) =>
      (if s.lock == None then s.(lock := Some(t), pcs := at(EnqGrowing(x))) else s, Silent)
    case EnqGrowing(x) =>
      (s.(ring := if s.ring.IsFull() then Grown(s.ring, blank) else s.ring, pcs := at(EnqStoring(x))), Silent)
    case EnqStoring(x) =>
      (s.(ring := s.ring.(slots := s.ring.slots[s.ring.tail := x]), pcs := at(EnqAdvancing(x))), Silent)
    case EnqAdvancing(x) =>
      (s.(ring := s.ring.(tail := Wrap(s.ring.tail + 1, |s.ring.slots|)), pcs := at(EnqCounting(x))), Silent)
    case EnqCounting(x) =>
      (s.(size := s.size + 1, pcs := at(EnqUnlocking), log := s.log + [Commit(t, EnqueueCall(x), None)]), Silent)
    case EnqUnlocking => (s.(lock := None, pcs := at(Returning(None))), Silent)
    case DeqPeeking =>
      (if s.size == 0 then s.(pcs := at(Returning(None)), log := s.log + [Commit(t, DequeueCall, None)])
       else s.(pcs := at(DeqLocking)), Silent)
    case DeqLocking => (if s.lock == None then s.(lock := Some(t), pcs := at(DeqTesting)) else s, Silent)
    case DeqTesting =>
      (if s.ring.head == s.ring.tail
       then s.(pcs := at(DeqUnlocking(None)), log := s.log + [Commit(t, DequeueCall, None)])
       else s.(pcs := at(DeqTaking)), Silent)
    case DeqTaking => (s.(pcs := at(DeqAdvancing(s.ring.slots[s.ring.head]))), Silent)
    case DeqAdvancing(x) =>
      (s.(ring := s.ring.(head := Wrap(s.ring.head + 1, |s.ring.slots|)), pcs := at(DeqCounting(x))), Silent)
    case DeqCounting(x) =>
      (s.(size := s.size - 1, pcs := at(DeqUnlocking(Some(x))), log := s.log + [Commit(t, DequeueCall, Some(x))]),
       Silent)
    case DeqUnlocking(result) => (s.(lock := None, pcs := at(Returning(result))), Silent)
    case Returning(result) => (s.(pcs := at(Idle)), Returned(t, result))
  }

  function Step<T>(s: State<T>, c: Choice<T>, blank: T): (r: (State<T>, Event<T>))
    requires StateOk(s)
    ensures StateOk(r.0)
  {
    if c.thread >= |s.pcs| then (s, Silent)
    else match c
      case Start(t, call) =>
        if s.pcs[t] != Idle then (s, Silent)
        else
          (s.(pcs := s.pcs[t := if call.EnqueueCall? then EnqLocking(call.x) else DeqPeeking]), Invoked(t, call))
      case Proceed(t) => Proceeded(s, t, blank)
  }

  // ---------- The atomic queue ----------

  /** A call in progress: not yet committed, or committed with its result. */
  datatype Progress<T> = NoCall | Pending(call: Call<T>) | Committed(result: Option<T>)

  datatype Atomic<T> = Atomic(queue: seq<T>, calls: seq<Progress<T>>, log: seq<Commit<T>>)

  /** The effect of a call on a first-in first-out sequence. */
  function Effect<T>(queue: seq<T>, call: Call<T>): (r: (seq<T>, Option<T>)) {
    match call
    case EnqueueCall(x) => (queue + [x], None)
    case DequeueCall => if queue == [] then ([], None) else (queue[1..], Some(queue[0]))
  }

  /** The pending call of thread `t` takes effect, all at once. */
  function CommitCall<T>(a: Atomic<T>, t: nat): (r: Atomic<T>)
    requires t < |a.calls| && a.calls[t].Pending?
  {
    var (queue, result) := Effect(a.queue, a.calls[t].call);
    Atomic(queue, a.calls[t := Committed(result)], a.log + [Commit(t, a.calls[t].call, result)])
  }

  /** The steps of the atomic queue: a call begins, takes effect once, and returns the result it took effect with. */
  ghost predicate AtomicStep<T>(a: Atomic<T>, b: Atomic<T>, e: Event<T>) {
    match e
    case Invoked(t, call) =>
      t < |a.calls| && a.calls[t] == NoCall && b == a.(calls := a.calls[t := Pending(call)])
    case Returned(t, result) =>
      t < |a.calls| && a.calls[t] == Committed(result) && b == a.(calls := a.calls[t := NoCall])
    case Silent =>
      b == a || exists t :: 0 <= t < |a.calls| && a.calls[t].Pending? && b == CommitCall(a, t)
  }

  /** Replaying a log of calls one after the other on an empty sequence. */
  function Replay<T>(log: seq<Commit<T>>): (queue: seq<T>)
    decreases |log|
  {
    if log == [] then [] else Effect(Replay(log[..|log| - 1]), log[|log| - 1].call).0
  }

  /** Every result in the log is the one the replay gives. */
  ghost predicate Legal<T>(log: seq<Commit<T>>) {
    forall i :: 0 <= i < |log| ==> log[i].result == Effect(Replay(log[..i]), log[i].call).1
  }

  // ---------- The abstraction ----------

  function ProgressOf<T>(pc: Pc<T>): (p: Progress<T>) {
    match pc
    case Idle => NoCall
    case EnqLocking(x) => Pending(EnqueueCall(x))
    case EnqGrowing(x) => Pending(EnqueueCall(x))
    case EnqStoring(x) => Pending(EnqueueCall(x))
    case EnqAdvancing(x) => Pending(EnqueueCall(x))
    case EnqCounting(x) => Pending(EnqueueCall(x))
    case EnqUnlocking => Committed(None)
    case DeqPeeking => Pending(DequeueCall)
    case DeqLocking => Pending(DequeueCall)
    case DeqTesting => Pending(DequeueCall)
    case DeqTaking => Pending(DequeueCall)
    case DeqAdvancing(x) => Pending(DequeueCall)
    case DeqCounting(x) => Pending(DequeueCall)
    case DeqUnlocking(result) => Committed(result)
    case Returning(result) => Committed(result)
  }

  /** Whoever holds the lock, or `Idle`. */
  function Holder<T>(s: State<T>): (pc: Pc<T>) {
    if s.lock.Some? && s.lock.value < |s.pcs| then s.pcs[s.lock.value] else Idle
  }

  /** The queue as committed: an enqueue counts, and a dequeue stops counting, when the size is updated. */
  function Queue<T>(s: State<T>): (q: seq<T>)
    requires StateOk(s)
  {
    match Holder(s)
    case EnqCounting(x) => if Contents(s.ring) == [] then [] else Contents(s.ring)[..s.ring.Count() - 1]
    case DeqCounting(x) => [x] + Contents(s.ring)
    case _ => Contents(s.ring)
  }

  function Abstract<T>(s: State<T>): (a: Atomic<T>)
    requires StateOk(s)
  {
    Atomic(Queue(s), seq(|s.pcs|, i requires 0 <= i < |s.pcs| => ProgressOf(s.pcs[i])), s.log)
  }

  ghost predicate Inv<T>(s: State<T>) {
    && StateOk(s)
    && LockOk(s)
    && HolderOk(s)
    && s.size == |Queue(s)|
    && Legal(s.log)
    && Replay(s.log) == Queue(s)
  }

  /** Exactly the thread that the lock names is between taking and releasing it. */
  ghost predicate LockOk<T>(s: State<T>) {
    && (forall t :: 0 <= t < |s.pcs| ==> (HoldsLock(s.pcs[t]) <==> s.lock == Some(t)))
    && (s.lock.Some? ==> s.lock.value < |s.pcs|)
  }

  ghost predicate HolderOk<T>(s: State<T>)
    requires StateOk(s)
  {
    match Holder(s)
    case EnqStoring(x) => !s.ring.IsFull()
    case EnqAdvancing(x) => !s.ring.IsFull() && s.ring.slots[s.ring.tail] == x
    case EnqCounting(x) => s.ring.Count() > 0 && Contents(s.ring)[s.ring.Count() - 1] == x
    case DeqTaking => s.ring.head != s.ring.tail
    case DeqAdvancing(x) => s.ring.head != s.ring.tail && s.ring.slots[s.ring.head] == x
    case _ => true
  }

  lemma LegalPush<T>(log: seq<Commit<T>>, c: Commit<T>)
    requires Legal(log) && c.result == Effect(Replay(log), c.call).1
    ensures Legal(log + [c]) && Replay(log + [c]) == Effect(Replay(log), c.call).0
  {
    var longer := log + [c];
    assert longer[..|log|] == log;
    forall i | 0 <= i < |longer| ensures longer[i].result == Effect(Replay(longer[..i]), longer[i].call).1 {
      if i < |log| {
        assert longer[..i] == log[..i];
      }
    }
  }

  /** Writing the free slot at the tail does not change the contents. */
  lemma StoreKeeps<T>(r: Ring<T>, x: T)
    requires r.WellFormed() && !r.IsFull()
    ensures Contents(r.(slots := r.slots[r.tail := x])) == Contents(r)
  {
    var g := r.(slots := r.slots[r.tail := x]);
    forall i | 0 <= i < r.Count() ensures g.At(i) == r.At(i) {
    }
  }

  /** Moving the tail appends what was written there. */
  lemma AdvanceTailAppends<T>(r: Ring<T>, x: T)
    requires r.WellFormed() && !r.IsFull() && r.slots[r.tail] == x
    ensures var g := r.(tail := Wrap(r.tail + 1, |r.slots|));
      && Contents(g) == Contents(r) + [x]
      && g.Count() == r.Count() + 1
      && Contents(g)[..g.Count() - 1] == Contents(r)
  {
    PushContents(r, x);
    var g := r.(tail := Wrap(r.tail + 1, |r.slots|));
    assert r.slots[r.tail := x] == r.slots;
    assert |Contents(g)| == |Contents(r)| + 1;
  }

  /** Moving the head drops what was read there. */
  lemma AdvanceHeadDrops<T>(r: Ring<T>)
    requires r.WellFormed() && r.head != r.tail
    ensures Contents(r) == [r.slots[r.head]] + Contents(r.(head := Wrap(r.head + 1, |r.slots|)))
  {
    FullMeansCount(r);
    DequeueContents(r);
  }

  // ---------- The simulation ----------

  /** The shape of any access of thread `t`: only its own position moves, and the lock passes to or from it alone. */
  ghost predicate OwnMove<T>(s: State<T>, s': State<T>, t: nat) {
    && t < |s.pcs|
    && StateOk(s')
    && |s'.pcs| == |s.pcs| && s'.pcs == s.pcs[t := s'.pcs[t]]
    && (s'.lock == s.lock || (s.lock == None && s'.lock == Some(t)) || (s.lock == Some(t) && s'.lock == None))
    && (HoldsLock(s'.pcs[t]) <==> s'.lock == Some(t))
  }

  lemma OwnMoveLock<T>(s: State<T>, s': State<T>, t: nat)
    requires StateOk(s) && LockOk(s) && OwnMove(s, s', t)
    ensures LockOk(s')
    ensures s.lock == Some(t) || s'.lock == Some(t) || Holder(s') == Holder(s)
    ensures s.lock == Some(t) ==> Holder(s) == s.pcs[t]
    ensures s'.lock == Some(t) ==> Holder(s') == s'.pcs[t]
  {
    forall u | 0 <= u < |s'.pcs| ensures HoldsLock(s'.pcs[u]) <==> s'.lock == Some(u) {
      if u != t {
        assert s'.pcs[u] == s.pcs[u];
      }
    }
    assert HoldsLock(s.pcs[t]) <==> s.lock == Some(t);
  }

  /** An access that commits nothing: the committed queue, the size and the log stay, and so does the abstraction. */
  lemma QuietMove<T>(s: State<T>, s': State<T>, t: nat)
    requires Inv(s) && OwnMove(s, s', t) && HolderOk(s')
    requires ProgressOf(s'.pcs[t]) == ProgressOf(s.pcs[t])
    requires Queue(s') == Queue(s) && s'.size == s.size && s'.log == s.log
    ensures Inv(s') && Abstract(s') == Abstract(s)
  {
    OwnMoveLock(s, s', t);
  }

  /** An access that commits the call of `t`. */
  lemma CommitMove<T>(s: State<T>, s': State<T>, t: nat, call: Call<T>, result: Option<T>)
    requires Inv(s) && OwnMove(s, s', t) && HolderOk(s')
    requires ProgressOf(s.pcs[t]) == Pending(call) && ProgressOf(s'.pcs[t]) == Committed(result)
    requires (Queue(s'), result) == Effect(Queue(s), call) && s'.size == |Queue(s')|
    requires s'.log == s.log + [Commit(t, call, result)]
    ensures Inv(s') && Abstract(s) != Abstract(s') && AtomicStep(Abstract(s), Abstract(s'), Silent)
  {
    OwnMoveLock(s, s', t);
    LegalPush(s.log, Commit(t, call, result));
    var a, b := Abstract(s), Abstract(s');
    assert a.calls[t] == Pending(call);
    assert b.calls == a.calls[t := Committed(result)];
    assert b == CommitCall(a, t);
  }

  lemma EnqueueWaits<T>(s: State<T>, t: nat, blank: T)
    requires Inv(s) && t < |s.pcs| && s.pcs[t].EnqLocking?
    ensures var (s', e) := Proceeded(s, t, blank); Inv(s') && Abstract(s') == Abstract(s) && e == Silent
  {
    hide Grown, Contents, Legal, Replay;
    var s' := Proceeded(s, t, blank).0;
    assert HoldsLock(s.pcs[t]) <==> s.lock == Some(t);
    if s' != s {
      assert s'.pcs[t] != s.pcs[t];
      OwnMoveLock(s, s', t);
      QuietMove(s, s', t);
    }
  }

  lemma EnqueueGrows<T>(s: State<T>, t: nat, blank: T)
    requires Inv(s) && t < |s.pcs| && s.pcs[t].EnqGrowing?
    ensures var (s', e) := Proceeded(s, t, blank); Inv(s') && Abstract(s') == Abstract(s) && e == Silent
  {
    hide Grown, Contents, Legal, Replay;
    var s' := Proceeded(s, t, blank).0;
    assert HoldsLock(s.pcs[t]) <==> s.lock == Some(t);
    OwnMoveLock(s, s', t);
    GrownContents(s.ring, blank);
    QuietMove(s, s', t);
  }

  lemma EnqueueStores<T>(s: State<T>, t: nat, blank: T)
    requires Inv(s) && t < |s.pcs| && s.pcs[t].EnqStoring?
    ensures var (s', e) := Proceeded(s, t, blank); Inv(s') && Abstract(s') == Abstract(s) && e == Silent
  {
    hide Grown, Contents, Legal, Replay;
    var s' := Proceeded(s, t, blank).0;
    assert HoldsLock(s.pcs[t]) <==> s.lock == Some(t);
    OwnMoveLock(s, s', t);
    StoreKeeps(s.ring, s.pcs[t].x);
    QuietMove(s, s', t);
  }

  lemma EnqueueAdvances<T>(s: State<T>, t: nat, blank: T)
    requires Inv(s) && t < |s.pcs| && s.pcs[t].EnqAdvancing?
    ensures var (s', e) := Proceeded(s, t, blank); Inv(s') && Abstract(s') == Abstract(s) && e == Silent
  {
    hide Grown, Contents, Legal, Replay;
    var s' := Proceeded(s, t, blank).0;
    assert HoldsLock(s.pcs[t]) <==> s.lock == Some(t);
    OwnMoveLock(s, s', t);
    AdvanceTailAppends(s.ring, s.pcs[t].x);
    QuietMove(s, s', t);
  }

  lemma DequeueWaits<T>(s: State<T>, t: nat, blank: T)
    requires Inv(s) && t < |s.pcs|
    requires s.pcs[t].DeqLocking? || (s.pcs[t].DeqPeeking? && s.size != 0)
    ensures var (s', e) := Proceeded(s, t, blank); Inv(s') && Abstract(s') == Abstract(s) && e == Silent
  {
    hide Grown, Contents, Legal, Replay;
    var s' := Proceeded(s, t, blank).0;
    assert HoldsLock(s.pcs[t]) <==> s.lock == Some(t);
    if s' != s {
      assert s'.pcs[t] != s.pcs[t];
      OwnMoveLock(s, s', t);
      QuietMove(s, s', t);
    }
  }

  lemma DequeueTests<T>(s: State<T>, t: nat, blank: T)
    requires Inv(s) && t < |s.pcs| && s.pcs[t].DeqTesting? && s.ring.head != s.ring.tail
    ensures var (s', e) := Proceeded(s, t, blank); Inv(s') && Abstract(s') == Abstract(s) && e == Silent
  {
    hide Grown, Contents, Legal, Replay;
    var s' := Proceeded(s, t, blank).0;
    assert HoldsLock(s.pcs[t]) <==> s.lock == Some(t);
    OwnMoveLock(s, s', t);
    QuietMove(s, s', t);
  }

  lemma DequeueTakes<T>(s: State<T>, t: nat, blank: T)
    requires Inv(s) && t < |s.pcs| && s.pcs[t].DeqTaking?
    ensures var (s', e) := Proceeded(s, t, blank); Inv(s') && Abstract(s') == Abstract(s) && e == Silent
  {
    hide Grown, Contents, Legal, Replay;
    var s' := Proceeded(s, t, blank).0;
    assert HoldsLock(s.pcs[t]) <==> s.lock == Some(t);
    OwnMoveLock(s, s', t);
    QuietMove(s, s', t);
  }

  lemma DequeueAdvances<T>(s: State<T>, t: nat, blank: T)
    requires Inv(s) && t < |s.pcs| && s.pcs[t].DeqAdvancing?
    ensures var (s', e) := Proceeded(s, t, blank); Inv(s') && Abstract(s') == Abstract(s) && e == Silent
  {
    hide Grown, Contents, Legal, Replay;
    var s' := Proceeded(s, t, blank).0;
    assert HoldsLock(s.pcs[t]) <==> s.lock == Some(t);
    OwnMoveLock(s, s', t);
    AdvanceHeadDrops(s.ring);
    QuietMove(s, s', t);
  }

  lemma Unlocks<T>(s: State<T>, t: nat, blank: T)
    requires Inv(s) && t < |s.pcs| && (s.pcs[t].EnqUnlocking? || s.pcs[t].DeqUnlocking?)
    ensures var (s', e) := Proceeded(s, t, blank); Inv(s') && Abstract(s') == Abstract(s) && e == Silent
  {
    hide Grown, Contents, Legal, Replay;
    var s' := Proceeded(s, t, blank).0;
    assert HoldsLock(s.pcs[t]) <==> s.lock == Some(t);
    OwnMoveLock(s, s', t);
    QuietMove(s, s', t);
  }

  lemma CommitsEnqueue<T>(s: State<T>, t: nat, blank: T)
    requires Inv(s) && t < |s.pcs| && s.pcs[t].EnqCounting?
    ensures var (s', e) := Proceeded(s, t, blank);
      Inv(s') && AtomicStep(Abstract(s), Abstract(s'), Silent) && e == Silent
  {
    hide Grown, Contents, Legal, Replay;
    var s' := Proceeded(s, t, blank).0;
    assert HoldsLock(s.pcs[t]) <==> s.lock == Some(t);
    OwnMoveLock(s, s', t);
    assert Contents(s.ring) == Queue(s) + [s.pcs[t].x];
    CommitMove(s, s', t, EnqueueCall(s.pcs[t].x), None);
  }

  lemma CommitsDequeue<T>(s: State<T>, t: nat, blank: T)
    requires Inv(s) && t < |s.pcs| && s.pcs[t].DeqCounting?
    ensures var (s', e) := Proceeded(s, t, blank);
      Inv(s') && AtomicStep(Abstract(s), Abstract(s'), Silent) && e == Silent
  {
    hide Grown, Contents, Legal, Replay;
    var s' := Proceeded(s, t, blank).0;
    assert HoldsLock(s.pcs[t]) <==> s.lock == Some(t);
    OwnMoveLock(s, s', t);
    CommitMove(s, s', t, DequeueCall, Some(s.pcs[t].x));
  }

  lemma CommitsEmpty<T>(s: State<T>, t: nat, blank: T)
    requires Inv(s) && t < |s.pcs| && ((s.pcs[t].DeqPeeking? && s.size == 0) || (s.pcs[t].DeqTesting? && s.ring.head == s.ring.tail))
    ensures var (s', e) := Proceeded(s, t, blank);
      Inv(s') && AtomicStep(Abstract(s), Abstract(s'), Silent) && e == Silent
  {
    hide Grown, Contents, Legal, Replay;
    var s' := Proceeded(s, t, blank).0;
    assert HoldsLock(s.pcs[t]) <==> s.lock == Some(t);
    OwnMoveLock(s, s', t);
    FullMeansCount(s.ring);
    CommitMove(s, s', t, DequeueCall, None);
  }

  lemma CallMoves<T>(s: State<T>, c: Choice<T>, blank: T)
    requires Inv(s) && c.thread < |s.pcs|
    requires c.Proceed? ==> s.pcs[c.thread].Returning?
    ensures var (s', e) := Step(s, c, blank); Inv(s') && AtomicStep(Abstract(s), Abstract(s'), e)
  {
    hide Grown, Contents, Legal, Replay;
    var t := c.thread;
    var (s', e) := Step(s, c, blank);
    assert HoldsLock(s.pcs[t]) <==> s.lock == Some(t);
    if s' != s {
      assert !HoldsLock(s'.pcs[t]);
      assert s'.pcs == s.pcs[t := s'.pcs[t]];
      OwnMoveLock(s, s', t);
      var a, b := Abstract(s), Abstract(s');
      assert b.calls == a.calls[t := ProgressOf(s'.pcs[t])];
    }
  }

  /** Every access is a step of the atomic queue, or changes nothing there. */
  lemma StepSimulates<T>(s: State<T>, c: Choice<T>, blank: T)
    requires Inv(s)
    ensures var (s', e) := Step(s, c, blank); Inv(s') && AtomicStep(Abstract(s), Abstract(s'), e)
  {
    if c.thread < |s.pcs| {
      var t := c.thread;
      hide Inv, Abstract, StateOk;
      if c.Start? || s.pcs[t].Returning? {
        CallMoves(s, c, blank);
      } else {
        match s.pcs[t]
        case Idle =>
        case EnqLocking(x) => EnqueueWaits(s, t, blank);
        case EnqGrowing(x) => EnqueueGrows(s, t, blank);
        case EnqStoring(x) => EnqueueStores(s, t, blank);
        case EnqAdvancing(x) => EnqueueAdvances(s, t, blank);
        case EnqCounting(x) => CommitsEnqueue(s, t, blank);
        case EnqUnlocking => Unlocks(s, t, blank);
        case DeqPeeking => if s.size == 0 { CommitsEmpty(s, t, blank); } else { DequeueWaits(s, t, blank); }
        case DeqLocking => DequeueWaits(s, t, blank);
        case DeqTesting =>
          if s.ring.head == s.ring.tail { CommitsEmpty(s, t, blank); } else { DequeueTests(s, t, blank); }
        case DeqTaking => DequeueTakes(s, t, blank);
        case DeqAdvancing(x) => DequeueAdvances(s, t, blank);
        case DeqCounting(x) => CommitsDequeue(s, t, blank);
        case DeqUnlocking(result) => Unlocks(s, t, blank);
      }
    }
  }

  // ---------- Whole runs ----------

  function Init<T>(base: nat, blank: T, threads: nat): (s: State<T>)
    requires 0 < base
    ensures StateOk(s)
  {
    State(EmptyRing(base, blank), 0, None, seq(threads, i => Idle), [])
  }

  /** The states a run passes through, and what each step shows to the callers. */
  function Run<T>(s: State<T>, choices: seq<Choice<T>>, blank: T): (r: (seq<State<T>>, seq<Event<T>>))
    requires StateOk(s)
    ensures |r.0| == |choices| + 1 && |r.1| == |choices| && r.0[0] == s
    ensures forall i :: 0 <= i < |r.0| ==> StateOk(r.0[i])
    decreases |choices|
  {
    if choices == [] then ([s], [])
    else
      var (s', e) := Step(s, choices[0], blank);
      var (states, events) := Run(s', choices[1..], blank);
      ([s] + states, [e] + events)
  }

  ghost predicate AllInv<T>(states: seq<State<T>>) {
    forall s :: s in states ==> Inv(s)
  }

  /** What the callers see of the states is a run of the atomic queue. */
  ghost predicate AtomicRun<T>(states: seq<State<T>>, events: seq<Event<T>>)
    requires |states| == |events| + 1 && forall i :: 0 <= i < |states| ==> StateOk(states[i])
  {
    forall i :: 0 <= i < |events| ==> AtomicStep(Abstract(states[i]), Abstract(states[i + 1]), events[i])
  }

  lemma AtomicRunCons<T>(s: State<T>, e: Event<T>, later: seq<State<T>>, events: seq<Event<T>>)
    requires |later| == |events| + 1 && StateOk(s) && forall i :: 0 <= i < |later| ==> StateOk(later[i])
    requires AtomicRun(later, events) && AtomicStep(Abstract(s), Abstract(later[0]), e)
    ensures AtomicRun([s] + later, [e] + events)
  {
    hide Abstract, AtomicStep, StateOk;
    var states, all := [s] + later, [e] + events;
    forall i | 0 <= i < |all| ensures AtomicStep(Abstract(states[i]), Abstract(states[i + 1]), all[i]) {
      if i > 0 {
        assert AtomicStep(Abstract(later[i - 1]), Abstract(later[i]), events[i - 1]);
      }
    }
  }

  lemma {:induction false} RunSimulates<T>(s: State<T>, choices: seq<Choice<T>>, blank: T)
    requires Inv(s)
    ensures AllInv(Run(s, choices, blank).0)
    ensures AtomicRun(Run(s, choices, blank).0, Run(s, choices, blank).1)
    decreases |choices|
  {
    InvLegal(s);
    if choices != [] {
      var (s', e) := Step(s, choices[0], blank);
      StepSimulates(s, choices[0], blank);
      RunSimulates(s', choices[1..], blank);
      var (later, events) := Run(s', choices[1..], blank);
      AtomicRunCons(s, e, later, events);
      hide Inv, AtomicRun, Step;
      assert Run(s, choices, blank) == ([s] + later, [e] + events);
    }
  }

  lemma InitInv<T>(base: nat, blank: T, threads: nat)
    requires 0 < base
    ensures Inv(Init(base, blank, threads))
    ensures Abstract(Init(base, blank, threads)) == Atomic([], seq(threads, i => NoCall), [])
  {
  }

  /**
   * Linearizability. Under every schedule of every number of threads, what callers see is a run of the atomic
   * first-in first-out queue: each call takes effect exactly once, between its start and its return, and the
   * calls in the order they took effect, replayed one at a time, give exactly the results returned.
   */
  lemma Linearizable<T>(base: nat, blank: T, threads: nat, choices: seq<Choice<T>>)
    requires 0 < base
    ensures var (states, events) := Run(Init(base, blank, threads), choices, blank);
      && Abstract(states[0]) == Atomic([], seq(threads, i => NoCall), [])
      && AtomicRun(states, events)
      && Legal(states[|choices|].log)
      && Replay(states[|choices|].log) == Queue(states[|choices|])
  {
    InitInv(base, blank, threads);
    var init := Init(base, blank, threads);
    RunSimulates(init, choices, blank);
    InvLegal(Run(init, choices, blank).0[|choices|]);
    hide Inv, Abstract, AtomicStep, Run, Legal, Queue;
  }

  lemma InvLegal<T>(s: State<T>)
    ensures Inv(s) ==> StateOk(s) && Legal(s.log) && Replay(s.log) == Queue(s)
  {
  }
}
