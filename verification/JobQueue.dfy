/** The job queue object: a ring buffer in an array that its methods change in place. */
module JobQueues {
  import opened Arithmetic
  import opened RingModel
  import opened Wrappers

  class JobQueue<Job> {
    var queue: array<Job>
    var head: nat
    var tail: nat
    var currentSize: nat
    const blank: Job   // what a slot holds before a job is stored in it

    // How often the queue was enqueued on, and how many rounds its resize loops made.
    ghost const base: nat
    ghost var enqueues: nat
    ghost var moves: nat

    ghost function AsRing(): (r: Ring<Job>)
      reads this, queue
    {
      Ring(queue[..], head, tail)
    }

    ghost predicate Valid()
      reads this, queue
    {
      && AsRing().WellFormed()
      && currentSize == AsRing().Count()
      && Paid(AsRing(), base, enqueues, moves)
    }

    /** The queued jobs, oldest first. */
    ghost function Jobs(): (s: seq<Job>)
      reads this, queue
      requires Valid()
      ensures |s| == currentSize
    {
      Contents(AsRing())
    }

    constructor (baseSize: nat, blank: Job)
      requires 0 < baseSize
      ensures Valid() && fresh(queue)
      ensures Jobs() == [] && queue.Length == base == baseSize
      ensures enqueues == 0 && moves == 0
    {
      queue := new Job[baseSize](i => blank);
      head, tail, currentSize := 0, 0, 0;
      this.blank := blank;
      base, enqueues, moves := baseSize, 0, 0;
    }

    method Size() returns (n: nat)
      requires Valid()
      ensures n == |Jobs()|
    {
      n := currentSize;
    }

    /** Appends a job; the array is replaced only when the ring is full. */
    method Enqueue(item: Job)
      requires Valid()
      modifies this, queue
      ensures Valid() && (queue == old(queue) || fresh(queue))
      ensures Jobs() == old(Jobs()) + [item]
      ensures AsRing() == RingModel.Enqueue(old(AsRing()), item, blank)
      ensures enqueues == old(enqueues) + 1 && moves <= 2 * enqueues
    {
      hide Contents, Grown, Paid, EnqueueMoves;
      ghost var after := RingModel.Enqueue(AsRing(), item, blank);
      EnqueuePaid(AsRing(), base, enqueues, moves, item, blank);
      var next := Modulo(tail + 1, queue.Length);
      if next == head {
        Resize();
      }
      queue[tail] := item;
      tail := Modulo(tail + 1, queue.Length);
      currentSize := currentSize + 1;
      enqueues := enqueues + 1;
      assert AsRing() == after;
    }

    /** Removes and returns the oldest job, or nothing exactly when there is none. */
    method Dequeue() returns (job: Option<Job>)
      requires Valid()
      modifies this`head, this`currentSize
      ensures Valid()
      ensures if old(Jobs()) == [] then job == None && Jobs() == []
              else job == Some(old(Jobs())[0]) && Jobs() == old(Jobs())[1..]
      ensures AsRing() == RingModel.Dequeue(old(AsRing())).0
    {
      hide Contents, Paid;
      DequeueContents(AsRing());
      PaidDequeue(AsRing(), base, enqueues, moves);
      FullMeansCount(AsRing());
      var size := Size();
      if size == 0 {
        return None;
      }
      if head == tail {
        return None;
      }
      job := Some(queue[head]);
      head := Modulo(head + 1, queue.Length);
      currentSize := currentSize - 1;
      assert currentSize == |Contents(AsRing())|;
    }

    /** Gives the array `extra` more slots behind the ones it has. */
    method Extend(extra: nat)
      modifies this`queue
      ensures fresh(queue) && queue[..] == old(queue[..]) + seq(extra, i => blank)
    {
      var grown := new Job[queue.Length + extra](i => blank);
      for i := 0 to queue.Length
        invariant queue == old(queue) && queue[..] == old(queue[..])
        invariant grown[..] == queue[..i] + seq(queue.Length + extra - i, j => blank)
      {
        grown[i] := queue[i];
      }
      queue := grown;
    }

    /** Doubles the array and moves every entry to its place in it, within the new array. */
    method Resize()
      requires AsRing().WellFormed()
      modifies this`queue, this`tail, this`moves
      ensures fresh(queue)
      ensures AsRing() == Grown(old(AsRing()), blank)
      ensures moves == old(moves) + old(AsRing().Count())
    {
      ghost var was := AsRing();
      ghost var c := was.Count();
      var oldSize, newSize := queue.Length, queue.Length * 2;
      Extend(oldSize);
      ghost var doubled := was.slots + seq(oldSize, i => blank);
      assert queue[..] == doubled;
      var newTail := head;
      var entry := head;
      var from := Modulo(entry, oldSize);
      while from != tail
        invariant head <= entry <= head + c && newTail == entry && from == Wrap(entry, oldSize)
        invariant fresh(queue) && queue.Length == newSize && head == was.head && tail == was.tail
        invariant queue[..] == MoveEntries(doubled, head, oldSize, entry - head)
        invariant moves == old(moves) + (entry - head)
        decreases head + c - entry
      {
        WalkMeetsTail(was, entry - head);
        var to := Modulo(entry, newSize);
        if from != to {
          queue[to] := queue[from];
        }
        newTail, entry := newTail + 1, entry + 1;
        from := Modulo(entry, oldSize);
        moves := moves + 1;
      }
      WalkMeetsTail(was, entry - head);
      tail := Modulo(newTail, newSize);
    }

    /** An index reduced by the size of the array it points into. */
    static method Modulo(i: nat, size: nat) returns (r: nat)
      requires 0 < size && i < 2 * size
      ensures r == i % size == Wrap(i, size)
    {
      WrapIsMod(i, size);
      r := i % size;
    }
  }
}
