/** The worker pool object over its job queue objects. */
module WorkerPools {
  import opened RingModel
  import opened Wrappers
  import opened PoolModel
  import opened JobQueues

  const DEFAULT_SIZE := 1024

  class WorkerPool<Job> {
    const globalQueue: JobQueue<Job>
    const workers: seq<JobQueue<Job>>

    /** The queues and their arrays are all different objects. */
    ghost predicate Separate()
      reads globalQueue, workers
    {
      && (forall i :: 0 <= i < |workers| ==> workers[i] != globalQueue && workers[i].queue != globalQueue.queue)
      && (forall i, j :: 0 <= i < j < |workers| ==> workers[i] != workers[j] && workers[i].queue != workers[j].queue)
    }

    ghost function Arrays(): (a: set<array<Job>>)
      reads globalQueue, workers
    {
      {globalQueue.queue} + set i | 0 <= i < |workers| :: workers[i].queue
    }

    ghost predicate Valid()
      reads globalQueue, workers, Arrays()
    {
      Separate() && globalQueue.Valid() && forall i :: 0 <= i < |workers| ==> workers[i].Valid()
    }

    ghost function AsPool(): (p: Pool<Job>)
      reads globalQueue, workers, Arrays()
      requires Valid()
      ensures |p.locals| == |workers|
    {
      Pool(globalQueue.Jobs(), seq(|workers|, i requires 0 <= i < |workers| reads globalQueue, workers, Arrays()
        requires Valid() => workers[i].Jobs()))
    }

    constructor (nWorkers: nat, blank: Job)
      ensures Valid() && fresh(globalQueue) && fresh(workers) && fresh(Arrays())
      ensures AsPool() == Pool([], seq(nWorkers, i => []))
    {
      hide JobQueue.Valid, JobQueue.Jobs;
      var global := new JobQueue<Job>(DEFAULT_SIZE, blank);
      var made: seq<JobQueue<Job>> := [];
      for i := 0 to nWorkers
        invariant |made| == i && fresh(global) && fresh(global.queue) && global.Valid() && global.Jobs() == []
        invariant forall k :: 0 <= k < i ==> fresh(made[k]) && fresh(made[k].queue) && made[k].Valid() && made[k].Jobs() == []
        invariant forall k :: 0 <= k < i ==> made[k] != global && made[k].queue != global.queue
        invariant forall j, k :: 0 <= j < k < i ==> made[j] != made[k] && made[j].queue != made[k].queue
      {
        var worker := new JobQueue<Job>(DEFAULT_SIZE, blank);
        made := made + [worker];
      }
      globalQueue, workers := global, made;
    }

    /** One queue object changes, the rest of the pool does not. */
    method EnqueueGlobal(job: Job)
      requires Valid()
      modifies globalQueue, globalQueue.queue
      ensures Valid() && fresh(Arrays() - old(Arrays()))
      ensures AsPool() == Submit(old(AsPool()), None, [job])
      ensures AsPool() == old(AsPool()).(global := old(AsPool()).global + [job])
    {
      hide JobQueue.Valid, JobQueue.Jobs;
      globalQueue.Enqueue(job);
      assert AsPool().locals == old(AsPool()).locals;
    }

    method EnqueueLocal(id: nat, job: Job)
      requires Valid() && id < |workers|
      modifies workers[id], workers[id].queue
      ensures Valid() && fresh(Arrays() - old(Arrays()))
      ensures AsPool() == Submit(old(AsPool()), Some(id), [job])
      ensures AsPool() == old(AsPool()).(locals := old(AsPool()).locals[id := old(AsPool()).locals[id] + [job]])
    {
      hide JobQueue.Valid, JobQueue.Jobs;
      workers[id].Enqueue(job);
      assert AsPool().locals == old(AsPool()).locals[id := old(AsPool()).locals[id] + [job]];
    }

    method DequeueGlobal() returns (job: Option<Job>)
      requires Valid()
      modifies globalQueue
      ensures Valid() && Arrays() == old(Arrays())
      ensures var p := old(AsPool());
        if p.global == [] then job == None && AsPool() == p
        else job == Some(p.global[0]) && AsPool() == p.(global := p.global[1..])
    {
      hide JobQueue.Valid, JobQueue.Jobs;
      job := globalQueue.Dequeue();
      assert AsPool().locals == old(AsPool()).locals;
    }

    /** Also how a worker takes from its own queue. */
    method StealJob(id: nat) returns (job: Option<Job>)
      requires Valid() && id < |workers|
      modifies workers[id]
      ensures Valid() && Arrays() == old(Arrays())
      ensures var p := old(AsPool());
        if p.locals[id] == [] then job == None && AsPool() == p
        else job == Some(p.locals[id][0]) && AsPool() == p.(locals := p.locals[id := p.locals[id][1..]])
    {
      hide JobQueue.Valid, JobQueue.Jobs;
      job := workers[id].Dequeue();
      assert old(AsPool()).locals[id] == [] ==> AsPool().locals == old(AsPool()).locals;
      assert old(AsPool()).locals[id] != [] ==>
        AsPool().locals == old(AsPool()).locals[id := old(AsPool()).locals[id][1..]];
    }

    /** A job submitted from inside worker `id` goes to that worker's queue, any other to the global queue. */
    method Queue(workerId: Option<nat>, jobs: seq<Job>)
      requires Valid() && (workerId.Some? ==> workerId.value < |workers|)
      modifies globalQueue, workers, Arrays()
      ensures Valid() && AsPool() == Submit(old(AsPool()), workerId, jobs)
      ensures AsPool().global == old(AsPool()).global + if workerId == None then jobs else []
      ensures forall w :: 0 <= w < |workers| ==>
        AsPool().locals[w] == old(AsPool()).locals[w] + if workerId == Some(w) then jobs else []
    {
      hide Valid, AsPool;
      SubmitNothing(AsPool(), workerId);
      assert jobs[..0] == [];
      for i := 0 to |jobs|
        invariant Valid() && fresh(Arrays() - old(Arrays()))
        invariant AsPool() == Submit(old(AsPool()), workerId, jobs[..i])
      {
        assert jobs[..i + 1] == jobs[..i] + [jobs[i]];
        SubmitTwice(old(AsPool()), workerId, jobs[..i], [jobs[i]]);
        if workerId.Some? {
          EnqueueLocal(workerId.value, jobs[i]);
        } else {
          EnqueueGlobal(jobs[i]);
        }
      }
      assert jobs[..|jobs|] == jobs;
      SubmitTo(old(AsPool()), workerId, jobs);
    }

    /**
     * The global queue first, then every worker once around from `start`: the job is the oldest of the global queue,
     * or else of the first worker with any, and nothing else changes.
     */
    method FindNewWork(start: nat) returns (job: Option<Job>)
      requires Valid()
      modifies globalQueue, workers
      ensures Valid() && (AsPool(), job) == PoolModel.FindNewWork(old(AsPool()), start)
      ensures var p := old(AsPool());
        && (p.global != [] ==> job == Some(p.global[0]) && AsPool() == p.(global := p.global[1..]))
        && (p.global == [] && !AllEmpty(p) ==> job.Some? && FirstFound(p, AsPool(), job.value, start))
        && (AllEmpty(p) ==> job == None && AsPool() == p)
    {
      hide Valid, AsPool, Victim, FirstFound, AllEmpty, Scan;
      ghost var p := AsPool();
      SearchOrder(p, start);
      job := DequeueGlobal();
      if job.Some? {
        return;
      }
      for i := 0 to |workers|
        invariant Valid() && AsPool() == p && job == None && Scan(p, start, i) == Scan(p, start, 0)
      {
        ScanRound(p, start, i);
        job := StealJob(Victim(start, i, |workers|));
        if job.Some? {
          return;
        }
      }
      ScanEnds(p, start);
    }

    /**
     * One round of a worker's loop: its own queue first, then a search. With nobody interfering, it comes away
     * without a job only when every queue of the pool is empty.
     */
    method NextJob(id: nat, start: nat) returns (job: Option<Job>)
      requires Valid() && id < |workers|
      modifies globalQueue, workers
      ensures Valid()
      ensures var p := old(AsPool());
        && (p.locals[id] != [] ==>
            job == Some(p.locals[id][0]) && AsPool() == p.(locals := p.locals[id := p.locals[id][1..]]))
        && (p.locals[id] == [] && p.global != [] ==> job == Some(p.global[0]) && AsPool() == p.(global := p.global[1..]))
        && (p.locals[id] == [] && p.global == [] && !AllEmpty(p) ==>
            job.Some? && FirstFound(p, AsPool(), job.value, start))
        && (AllEmpty(p) ==> job == None && AsPool() == p)
    {
      hide Valid, AsPool, PoolModel.FindNewWork, FirstFound;
      job := StealJob(id);
      if job == None {
        job := FindNewWork(start);
      }
    }
  }
}
