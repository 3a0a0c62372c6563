/** The job queue's growing ring buffer as a value, the sequence it stands for, and its cost. */
module RingModel {
  import opened Arithmetic
  import opened Wrappers

  /** `i` modulo `n` for an index less than one turn past the end. */
  function Wrap(i: nat, n: nat): (r: nat)
    requires i < 2 * n
  {
    if i < n then i else i - n
  }

  lemma WrapIsMod(i: nat, n: nat)
    requires 0 < n && i < 2 * n
    ensures Wrap(i, n) == i % n
  {
    DivModUnique(i, n, if i < n then 0 else 1, if i < n then i else i - n);
  }

  datatype Ring<T> = Ring(slots: seq<T>, head: nat, tail: nat) {
    ghost predicate WellFormed() {
      head < |slots| && tail < |slots|
    }

    function Count(): (n: nat)
      requires WellFormed()
      ensures n < |slots|
    {
      if head <= tail then tail - head else tail + |slots| - head
    }

    /** The element at position `i` of the queue. */
    function At(i: nat): (x: T)
      requires WellFormed() && i < |slots|
    {
      slots[Wrap(head + i, |slots|)]
    }

    predicate IsFull()
      requires WellFormed()
    {
      Wrap(tail + 1, |slots|) == head
    }
  }

  /** The queue a ring stands for, oldest first. */
  function Contents<T>(r: Ring<T>): (s: seq<T>)
    requires r.WellFormed()
    ensures |s| == r.Count()
    ensures forall i :: 0 <= i < |s| ==> s[i] == r.At(i)
  {
    seq(r.Count(), i requires 0 <= i < r.Count() => r.At(i))
  }

  function EmptyRing<T>(size: nat, blank: T): (r: Ring<T>)
    requires 0 < size
    ensures r.WellFormed() && Contents(r) == []
  {
    Ring(seq(size, i => blank), 0, 0)
  }

  /** The slots after `k` rounds of the resize loop: entry `head + i` moves to its place in the doubled ring. */
  function MoveEntries<T>(slots: seq<T>, head: nat, oldSize: nat, k: nat): (r: seq<T>)
    requires 0 < oldSize && |slots| == 2 * oldSize && head < oldSize && k <= oldSize
    ensures |r| == |slots|
  {
    if k == 0 then slots
    else
      var s, entry := MoveEntries(slots, head, oldSize, k - 1), head + (k - 1);
      var from, to := Wrap(entry, oldSize), Wrap(entry, 2 * oldSize);
      if from != to then s[to := s[from]] else s
  }

  /** The ring after a resize: twice the slots, the new ones blank, every entry moved to its place. */
  function Grown<T>(r: Ring<T>, blank: T): (g: Ring<T>)
    requires r.WellFormed()
    ensures g.WellFormed() && |g.slots| == 2 * |r.slots|
  {
    var n := |r.slots|;
    Ring(MoveEntries(r.slots + seq(n, i => blank), r.head, n, r.Count()), r.head, Wrap(r.head + r.Count(), 2 * n))
  }

  function Enqueue<T>(r: Ring<T>, x: T, blank: T): (g: Ring<T>)
    requires r.WellFormed()
    ensures g.WellFormed()
  {
    var g := if r.IsFull() then Grown(r, blank) else r;
    Ring(g.slots[g.tail := x], g.head, Wrap(g.tail + 1, |g.slots|))
  }

  function Dequeue<T>(r: Ring<T>): (g: (Ring<T>, Option<T>))
    requires r.WellFormed()
    ensures g.0.WellFormed()
  {
    if r.head == r.tail then (r, None)
    else (r.(head := Wrap(r.head + 1, |r.slots|)), Some(r.slots[r.head]))
  }

  // ---------- The ring stands for a sequence ----------

  lemma FullMeansCount<T>(r: Ring<T>)
    requires r.WellFormed()
    ensures r.IsFull() <==> r.Count() == |r.slots| - 1
    ensures r.head == r.tail <==> r.Count() == 0
  {
  }

  /** The loop guard of a resize: the walk from `head` meets `tail` after exactly `Count` entries. */
  lemma WalkMeetsTail<T>(r: Ring<T>, i: nat)
    requires r.WellFormed() && i <= r.Count()
    ensures Wrap(r.head + i, |r.slots|) == r.tail <==> i == r.Count()
  {
  }

  /**
   * After `k` rounds every entry, moved or not, is where the rounds to come will read it, and every moved
   * entry is in its place: no round overwrites an entry that has not moved.
   */
  lemma {:induction false} MoveKeeps<T>(slots: seq<T>, head: nat, n: nat, k: nat, i: nat)
    requires 0 < n && |slots| == 2 * n && head < n && k <= n && i < n
    ensures var s := MoveEntries(slots, head, n, k);
      && s[Wrap(head + i, n)] == slots[Wrap(head + i, n)]
      && (i < k ==> s[Wrap(head + i, 2 * n)] == slots[Wrap(head + i, n)])
    decreases k
  {
    if k > 0 {
      MoveKeeps(slots, head, n, k - 1, i);
      MoveKeeps(slots, head, n, k - 1, k - 1);
    }
  }

  /** Growing doubles the slots and keeps the queue. */
  lemma GrownContents<T>(r: Ring<T>, blank: T)
    requires r.WellFormed()
    ensures Contents(Grown(r, blank)) == Contents(r)
    ensures !Grown(r, blank).IsFull()
  {
    var n, g, c := |r.slots|, Grown(r, blank), r.Count();
    var doubled := r.slots + seq(n, i => blank);
    assert g.Count() == c;
    forall i | 0 <= i < c ensures g.At(i) == r.At(i) {
      MoveKeeps(doubled, r.head, n, c, i);
    }
  }

  lemma PushContents<T>(r: Ring<T>, x: T)
    requires r.WellFormed() && !r.IsFull()
    ensures var g := Ring(r.slots[r.tail := x], r.head, Wrap(r.tail + 1, |r.slots|));
      g.WellFormed() && Contents(g) == Contents(r) + [x]
  {
    var n, c := |r.slots|, r.Count();
    var g := Ring(r.slots[r.tail := x], r.head, Wrap(r.tail + 1, n));
    assert g.Count() == c + 1;
    forall i | 0 <= i < c ensures g.At(i) == r.At(i) {
    }
    assert g.At(c) == x;
  }

  /** Enqueuing appends, whether or not the ring grows. */
  lemma EnqueueContents<T>(r: Ring<T>, x: T, blank: T)
    requires r.WellFormed()
    ensures Contents(Enqueue(r, x, blank)) == Contents(r) + [x]
  {
    if r.IsFull() {
      GrownContents(r, blank);
      PushContents(Grown(r, blank), x);
    } else {
      PushContents(r, x);
    }
  }

  /** Dequeuing removes and returns the oldest element, or nothing exactly when there is none. */
  lemma DequeueContents<T>(r: Ring<T>)
    requires r.WellFormed()
    ensures var (g, x) := Dequeue(r);
      if Contents(r) == [] then g == r && x == None
      else x == Some(Contents(r)[0]) && Contents(g) == Contents(r)[1..]
  {
    var n, c := |r.slots|, r.Count();
    FullMeansCount(r);
    if c > 0 {
      var g := Dequeue(r).0;
      assert g.Count() == c - 1;
      forall i | 0 <= i < c - 1 ensures g.At(i) == r.At(i + 1) {
      }
    }
  }

  // ---------- Whole runs: order and cost ----------

  datatype QueueOp<T> = EnqueueOp(x: T) | DequeueOp

  /** The rounds of the resize loop an enqueue makes. */
  function EnqueueMoves<T>(r: Ring<T>): (n: nat)
    requires r.WellFormed()
  {
    if r.IsFull() then r.Count() else 0
  }

  function RingRun<T>(r: Ring<T>, ops: seq<QueueOp<T>>, blank: T): (outputs: seq<Option<T>>)
    requires r.WellFormed()
    decreases |ops|
  {
    if ops == [] then []
    else match ops[0]
      case EnqueueOp(x) => RingRun(Enqueue(r, x, blank), ops[1..], blank)
      case DequeueOp =>
        var (g, x) := Dequeue(r);
        [x] + RingRun(g, ops[1..], blank)
  }

  function FifoRun<T>(queue: seq<T>, ops: seq<QueueOp<T>>): (outputs: seq<Option<T>>)
    decreases |ops|
  {
    if ops == [] then []
    else match ops[0]
      case EnqueueOp(x) => FifoRun(queue + [x], ops[1..])
      case DequeueOp =>
        if queue == [] then [None] + FifoRun([], ops[1..])
        else [Some(queue[0])] + FifoRun(queue[1..], ops[1..])
  }

  /** Any run of calls on the ring dequeues what a first-in first-out sequence would. */
  lemma {:induction false} RingRefinesFifo<T>(r: Ring<T>, ops: seq<QueueOp<T>>, blank: T)
    requires r.WellFormed()
    ensures RingRun(r, ops, blank) == FifoRun(Contents(r), ops)
    decreases |ops|
  {
    if ops != [] {
      match ops[0]
      case EnqueueOp(x) =>
        EnqueueContents(r, x, blank);
        RingRefinesFifo(Enqueue(r, x, blank), ops[1..], blank);
      case DequeueOp =>
        DequeueContents(r);
        RingRefinesFifo(Dequeue(r).0, ops[1..], blank);
    }
  }

  function Enqueues<T>(ops: seq<QueueOp<T>>): (n: nat)
    decreases |ops|
  {
    if ops == [] then 0 else (if ops[0].EnqueueOp? then 1 else 0) + Enqueues(ops[1..])
  }

  function TotalMoves<T>(r: Ring<T>, ops: seq<QueueOp<T>>, blank: T): (n: nat)
    requires r.WellFormed()
    decreases |ops|
  {
    if ops == [] then 0
    else match ops[0]
      case EnqueueOp(x) => EnqueueMoves(r) + TotalMoves(Enqueue(r, x, blank), ops[1..], blank)
      case DequeueOp => TotalMoves(Dequeue(r).0, ops[1..], blank)
  }

  /**
   * What `e` enqueues have paid for when `m` loop rounds were made since the ring had `base` slots: the slots
   * only grow past `base` after half as many enqueues, and no more rounds were made than slots were added.
   */
  ghost predicate Paid<T>(r: Ring<T>, base: nat, e: nat, m: nat)
    requires r.WellFormed()
  {
    && base <= |r.slots|
    && r.Count() <= e
    && m <= |r.slots| - base
    && (|r.slots| > base ==> |r.slots| <= 2 * e)
  }

  lemma PaidEnqueue<T>(r: Ring<T>, base: nat, e: nat, m: nat, x: T, blank: T)
    requires r.WellFormed() && Paid(r, base, e, m)
    ensures Paid(Enqueue(r, x, blank), base, e + 1, m + EnqueueMoves(r))
  {
    FullMeansCount(r);
    EnqueueContents(r, x, blank);
    assert Enqueue(r, x, blank).Count() == |Contents(Enqueue(r, x, blank))| == r.Count() + 1;
  }

  /** Everything an enqueue owes: one element more at the end, at a cost that the enqueues so far have paid for. */
  lemma EnqueuePaid<T>(r: Ring<T>, base: nat, e: nat, m: nat, x: T, blank: T)
    requires r.WellFormed() && Paid(r, base, e, m)
    ensures var g, paid := Enqueue(r, x, blank), m + EnqueueMoves(r);
      && Contents(g) == Contents(r) + [x] && g.Count() == r.Count() + 1
      && Paid(g, base, e + 1, paid) && paid <= 2 * (e + 1)
    ensures EnqueueMoves(r) == if r.IsFull() then r.Count() else 0
  {
    EnqueueContents(r, x, blank);
    PaidEnqueue(r, base, e, m, x, blank);
    assert Enqueue(r, x, blank).Count() == |Contents(Enqueue(r, x, blank))|;
    hide Grown;
  }

  lemma PaidDequeue<T>(r: Ring<T>, base: nat, e: nat, m: nat)
    requires r.WellFormed() && Paid(r, base, e, m)
    ensures Paid(Dequeue(r).0, base, e, m)
  {
    DequeueContents(r);
    assert Dequeue(r).0.Count() == |Contents(Dequeue(r).0)|;
  }

  lemma {:induction false} PaidRun<T>(r: Ring<T>, base: nat, e: nat, m: nat, ops: seq<QueueOp<T>>, blank: T)
    requires r.WellFormed() && Paid(r, base, e, m)
    ensures m + TotalMoves(r, ops, blank) <= 2 * (e + Enqueues(ops))
    decreases |ops|
  {
    if ops != [] {
      match ops[0]
      case EnqueueOp(x) =>
        PaidEnqueue(r, base, e, m, x, blank);
        PaidRun(Enqueue(r, x, blank), base, e + 1, m + EnqueueMoves(r), ops[1..], blank);
      case DequeueOp =>
        PaidDequeue(r, base, e, m);
        PaidRun(Dequeue(r).0, base, e, m, ops[1..], blank);
    }
  }

  /** Amortised cost: from any base size, the resize loops make at most twice as many rounds as there are enqueues. */
  lemma AmortisedCost<T>(base: nat, ops: seq<QueueOp<T>>, blank: T)
    requires 0 < base
    ensures TotalMoves(EmptyRing(base, blank), ops, blank) <= 2 * Enqueues(ops)
  {
    PaidRun(EmptyRing(base, blank), base, 0, 0, ops, blank);
  }
}
