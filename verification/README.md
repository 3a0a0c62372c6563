# Verification of the asynchronous runtime

This project models the parts of the library whose correctness rests on invariants over whole runs, and proves
what they are for:

* **Timing wheels.** The hierarchical wheel and the flat wheel are classes that update their buckets in place. Both
  are proved to return, over every run of schedules and advances, exactly what a plain list of (due tick, timer)
  pairs returns. The due tick of a delay is a function of the wheel sizes, the ticks processed and the delay alone
  (`TimerAgenda.DueTick`); its law, exactly which delays come out on time, the cost of cascading for every timer and
  the bounds by the clock are proved about it. The poll loop runs on the flat wheel.
* **Job queue and worker pool.** The ring buffer is a class over an array; it refines a first-in first-out sequence
  through every in-place resize, at an amortised cost, and is linearizable when its calls are split into their
  shared accesses. The pool conserves jobs under every interleaving of submissions and workers.
* **Cells and tasks.** The cells are classes whose methods are proved against functions on values (`CellModel`).
  The same functions drive a heap machine (`TaskHeap`): cells with their lists of callbacks, and a bag of pending
  jobs, awaits and atomic accesses of which any may happen next. Task expressions built from value sources, `create`,
  `map`, `bind`, `when_all`, `when_any` and copies of tasks are built into that heap, and every schedule is proved to
  agree with the set of results that the expression means (`TaskSyntax.Results`). For expressions without copies that
  set is exact: each of its results is what some complete run ends with.

## How the files fit together

| files | content |
|---|---|
| `Arithmetic`, `Wrappers` | division facts; `Option` and `Result` |
| `WheelModel`, `WheelMeaning`, `WheelCascade` | the hierarchy on values, the due tick of every stored timer, cascades and ticks |
| `TimerAgenda`, `WheelRefinement`, `WheelRuns`, `WheelPlacement` | the plain list and the law of due ticks; the refinement, over whole runs; the law by the cursors |
| `WheelCost`, `WheelRunCost`, `TickClock`, `TimerClock` | conservation and cost of cascades; ticks and timers by the clock |
| `HierarchicalTimingWheel`, `FlatWheelModel`, `PollModel`, `TimingWheel` | the wheel classes; the poll loop on values, and as methods |
| `RingModel`, `JobQueue` | the ring buffer on values, and as a class |
| `QueueLinearizability`, `QueueProgress` | the queue under threads: its calls are atomic, and they return |
| `PoolModel`, `PoolProgress`, `WorkerPool` | the pool under interleavings, what a worker gets done, and the pool as a class |
| `CellModel`, `Cells` | the cells on values and as classes |
| `TaskSyntax`, `TaskGraph` | task expressions, their results and work; what they are built into |
| `TaskMachine`, `TaskInvariant`, `TaskFrames`, `TaskSteps` | the running graph callback by callback, and its invariant |
| `TaskMeaning`, `TaskTermination` | safety and progress in every state; the decreasing weight |
| `TaskHeap`, `TaskLinks`, `TaskRefinement` | the heap machine, and its refinement of the callback view |
| `TaskRuns`, `TaskCombinators` | the results over whole runs of the heap machine |
| `TaskReach`, `TaskAdequacy`, `TaskChildren`, `TaskRealise` | schedules that bring about any allowed result |
| `TaskCopies` | copies of tasks |

Clock readings, the random start of a steal scan and the order of pending actions are parameters, so every result
holds for all of them. Sizes are natural numbers, except that subtractions in the hierarchical wheel wrap modulo 2^64
as `size_t` does.

## Where the code and its comments disagree

The comment above `determine_timer_wheel` (timing_wheel_hierarchical.h:145-160) has the climb subtract the ticks
that the wheels below take up. Line 173 subtracts the whole capacity of a wheel, not the ticks that remain from its
cursor. The model follows the code. So a timer comes out early by the ticks already past in the lower wheels, or,
where the subtraction goes below zero, wraps and goes to the top wheel. `TimerAgenda.OnTimeExactly` says exactly when
a timer is on time, `MinuteInOneTick` and `TickInTenDays` give delays on the wheels of the timer poll source for
which it is not, and `WheelPlacement.RemainingIsOnTime` is about the variant that subtracts the remaining ticks.

## Model

| member | source | states |
|---|---|---|
| `HierarchicalTimingWheels.HierarchicalTimingWheel.constructor` | src/timing/include/timing/structures/timing_wheel_hierarchical.h:54-75 | A new wheel has the given sizes, the bucket sizes are the products of the lower ones, and it stands for the empty list. |
| `HierarchicalTimingWheels.HierarchicalTimingWheel.Schedule` | src/timing/include/timing/structures/timing_wheel_hierarchical.h:82-91 | In place, a timer is added; in the list it is appended at the due tick that the sizes, the tick count and the delay alone determine, and nothing else changes. |
| `HierarchicalTimingWheels.HierarchicalTimingWheel.DetermineTimerWheel` | src/timing/include/timing/structures/timing_wheel_hierarchical.h:162-178 | The loop finds the lowest wheel that fits, subtracting a full capacity (modulo 2^64) at each wheel it leaves. |
| `HierarchicalTimingWheels.HierarchicalTimingWheel.LoadTimersFromWheel` | src/timing/include/timing/structures/timing_wheel_hierarchical.h:125-142 | In place, the current bucket of a wheel is moved into the wheel below at recomputed offsets, the cursor steps, and a wrap continues one wheel up. |
| `HierarchicalTimingWheels.HierarchicalTimingWheel.AdvanceOneTick` | src/timing/include/timing/structures/timing_wheel_hierarchical.h:105-113 | One round of the loop appends the current bottom bucket to the result, clears it, steps the cursor and cascades on a wrap. |
| `HierarchicalTimingWheels.HierarchicalTimingWheel.AdvanceTicks` | src/timing/include/timing/structures/timing_wheel_hierarchical.h:99-113 | The loop is that many ticks, whose results are concatenated in order. |
| `HierarchicalTimingWheels.HierarchicalTimingWheel.Advance` | src/timing/include/timing/structures/timing_wheel_hierarchical.h:95-117 | Returns exactly the timers of the list due within the ticks completed, by due tick and then in scheduling order; the list keeps exactly the later ones; less than one tick changes nothing, and otherwise the reading becomes the last advancement time. |
| `WheelRuns.HierarchyRefinesList` | src/timing/include/timing/structures/timing_wheel_hierarchical.h:82-142 | Every run of schedules and advances on a new hierarchy returns, call by call, what the plain list of (due tick, timer) pairs returns. |
| `WheelRuns.RunRefines` | src/timing/include/timing/structures/timing_wheel_hierarchical.h:82-142 | The same from any state that refines a list. |
| `WheelRuns.RefinesSchedule` | src/timing/include/timing/structures/timing_wheel_hierarchical.h:82-91 | After a schedule, the wheels show the list with the timer appended at its due tick. |
| `WheelRuns.RefinesTickMany` | src/timing/include/timing/structures/timing_wheel_hierarchical.h:95-117 | Advancing k ticks from tick T returns exactly the timers due in [T, T + k), by due tick and then by scheduling order, and leaves exactly the later ones. |
| `WheelRuns.ScheduleMeaning` | src/timing/include/timing/structures/timing_wheel_hierarchical.h:82-91 | A schedule adds the timer last among those due at its due tick and moves no other timer. |
| `WheelRuns.ScheduleOk` | src/timing/include/timing/structures/timing_wheel_hierarchical.h:82-91 | A schedule keeps the representation invariant. |
| `WheelRuns.RefinesInitially` | src/timing/include/timing/structures/timing_wheel_hierarchical.h:54-75 | A newly constructed hierarchy refines the empty list at tick zero. |
| `WheelCascade.LoadMeaning` | src/timing/include/timing/structures/timing_wheel_hierarchical.h:125-142 | A cascade through any number of levels leaves the absolute due tick and the order of every timer above unchanged. |
| `WheelCascade.LoadOk` | src/timing/include/timing/structures/timing_wheel_hierarchical.h:125-142 | A cascade keeps offsets below their bucket size and nothing behind a cursor, and touches no lower wheel. |
| `WheelCascade.LoadOdometer` | src/timing/include/timing/structures/timing_wheel_hierarchical.h:139-141 | A cascade steps the cursors like an odometer. |
| `WheelCascade.TickMeaning` | src/timing/include/timing/structures/timing_wheel_hierarchical.h:105-113 | A tick fires exactly the timers due at it and changes no other due tick, cascades included. |
| `WheelCascade.TickOk` | src/timing/include/timing/structures/timing_wheel_hierarchical.h:105-113 | A tick keeps the representation invariant, with the tick count one higher. |
| `WheelCascade.CursorClosedForm` | src/timing/include/timing/structures/timing_wheel_hierarchical.h:105-142 | In every reachable state the cursor of wheel w is (T / b_w) mod n_w. |
| `WheelMeaning.LandsAt` | src/timing/include/timing/structures/timing_wheel_hierarchical.h:132-136 | A load finds the wheel below at cursor 0, so the subtraction of line 134 never underflows and leaves the offset modulo the bucket size below. |
| `WheelMeaning.PlaceAllMeaning` | src/timing/include/timing/structures/timing_wheel_hierarchical.h:131-136 | A bucket loaded into an empty wheel at cursor 0 is found again, entry for entry and in order, at the ticks its offsets say. |
| `WheelMeaning.LoadOneOk` | src/timing/include/timing/structures/timing_wheel_hierarchical.h:125-142 | When a wheel wraps it is empty at cursor 0, ready for the next load, at every level. |
| `TimerAgenda.PlacementLaw` | src/timing/include/timing/structures/timing_wheel_hierarchical.h:82-91 | If no subtraction wraps and the top wheel has room, a delay of t ticks scheduled at tick T is due at T + t - (T mod b_w). |
| `TimerAgenda.OnTimeExactly` | src/timing/include/timing/structures/timing_wheel_hierarchical.h:162-178 | Exactly which delays are due at the tick asked for, over all sizes, tick counts and 64-bit delays; those past the top wheel are always early. |
| `TimerAgenda.ExactWithoutWrap` | src/timing/include/timing/structures/timing_wheel_hierarchical.h:171-175 | Without a wrap a delay is on time if and only if the ticks processed are a multiple of the bucket size of its wheel. |
| `TimerAgenda.ExactWithWrap` | src/timing/include/timing/structures/timing_wheel_hierarchical.h:171-175 | With a wrap the timer goes to the top wheel, and is on time only when the wrap is whole turns of it. |
| `WheelPlacement.PastTicksAre` | src/timing/include/timing/structures/timing_wheel_hierarchical.h:105-142 | In every reachable state the sum of c_i * b_i over i < w is T mod b_w. |
| `WheelPlacement.ScheduledAt` | src/timing/include/timing/structures/timing_wheel_hierarchical.h:82-91 | Placement law on the wheels: without a wrap and with room at the top, a schedule adds the timer, last, at T + t less the sum of c_i * b_i below its wheel, and moves no other; that sum is zero exactly when the cursors below stand at zero. |
| `WheelPlacement.OnTimeByCursors` | src/timing/include/timing/structures/timing_wheel_hierarchical.h:82-91 | When the cursors below the wheel found stand at zero, nothing has wrapped, and a delay in range is added at exactly T + t. |
| `TimerAgenda.OnTimeWhenAligned` | src/timing/include/timing/structures/timing_wheel_hierarchical.h:162-178 | When the ticks processed are whole buckets of the wheel found, nothing has wrapped and a delay in range is due on time. |
| `TimerAgenda.OnTimeInBottomWheel` | src/timing/include/timing/structures/timing_wheel_hierarchical.h:162-178 | A delay that the bottom wheel takes is on time. |
| `TimerAgenda.WrapIsLate` | src/timing/include/timing/structures/timing_wheel_hierarchical.h:173 | Two wheels of two buckets, one tick in: one tick of delay wraps and comes out three ticks late. |
| `TimerAgenda.UnwrappedIsEarly` | src/timing/include/timing/structures/timing_wheel_hierarchical.h:173 | There, two ticks of delay come out one tick early. |
| `TimerAgenda.MinuteInOneTick` | src/timing/src/timing_poll_source.cpp:13-21 | With the wheels of the timer poll source, a timer of one minute can come out after one tick of 50 ms. |
| `TimerAgenda.TickInTenDays` | src/timing/src/timing_poll_source.cpp:13-21 | With the wheels of the timer poll source, a timer of one tick can come out ten days later. |
| `WheelPlacement.RemainingIsOnTime` | src/timing/include/timing/structures/timing_wheel_hierarchical.h:145-160 | The named variant that subtracts the remaining ticks (n_w - c_w) * b_w, as the comment describes the climb, adds every timer, last, at one tick and moves no other; that tick is T + t exactly when the top wheel has room. |
| `WheelCost.AdvanceConserves` | src/timing/include/timing/structures/timing_wheel_hierarchical.h:95-117 | An advance returns or keeps every timer, each as often as it was held, in any state. |
| `WheelCost.ScheduleConserves` | src/timing/include/timing/structures/timing_wheel_hierarchical.h:82-91 | A schedule holds exactly one timer more. |
| `WheelCost.CascadeCost` | src/timing/include/timing/structures/timing_wheel_hierarchical.h:105-142 | k ticks of a new hierarchy step the cursors exactly k + k/b_1 + k/b_2 + ... times, at most 2k if all sizes are at least 2. |
| `WheelCost.StepsOfWheel` | src/timing/include/timing/structures/timing_wheel_hierarchical.h:105-142 | After k ticks of a new hierarchy the cursor of wheel v has stepped exactly k / b_v times. |
| `WheelRunCost.TickMovesPaid` | src/timing/include/timing/structures/timing_wheel_hierarchical.h:131-136 | Under any weights of the timers, the weight that the cascades of a tick move down is the height (wheels left to fall, by weight) that the tick loses. |
| `WheelRunCost.MovesPerTimer` | src/timing/include/timing/structures/timing_wheel_hierarchical.h:125-142 | Each timer cascades at most (number of wheels - 1) times for every time it is scheduled, over any run of a new hierarchy and however often others are moved. |
| `WheelRunCost.WeightMoved` | src/timing/include/timing/structures/timing_wheel_hierarchical.h:125-142 | The same for every weighting of the timers. |
| `TimingWheels.TimingWheel.constructor` | src/timing/include/timing/structures/timing_wheel.h:43-52 | A new flat wheel has that many empty buckets and index 0. |
| `TimingWheels.TimingWheel.NonWrappedWheelIndex` | src/timing/include/timing/structures/timing_wheel.h:58-60 | The index, not reduced, of the one tick that contains a time: that many ticks have passed, and one more has not. |
| `TimingWheels.TimingWheel.Schedule` | src/timing/include/timing/structures/timing_wheel.h:63-67 | In place, the timer is appended to the bucket of its delay; the wheel holds exactly one timer more. |
| `TimingWheels.TimingWheel.Advance` | src/timing/include/timing/structures/timing_wheel.h:70-95 | In place, the completed buckets are returned in order and cleared; every timer is returned or kept, as often as it was held; less than one tick changes nothing, and otherwise the reading becomes the last advancement time. |
| `FlatWheelModel.FlatWheelRefinesList` | src/timing/include/timing/structures/timing_wheel.h:63-95 | Every run of a new flat wheel of n ticks returns what a one-level hierarchy of size n and the plain list return. |
| `FlatWheelModel.StepBisimilar` | src/timing/include/timing/structures/timing_wheel.h:63-95 | Call by call, the one cursor is the flat index modulo n, the buckets agree and the same timers are returned. |
| `FlatWheelModel.FlatDueTick` | src/timing/include/timing/structures/timing_wheel.h:63-67 | A delay of t ticks on n buckets is due t mod n ticks on: on time if and only if t < n. |
| `FlatWheelModel.FlatDrainConserves` | src/timing/include/timing/structures/timing_wheel.h:82-89 | Draining any number of ticks returns or keeps every timer, as often as it was held. |
| `TickClock.ClockBounds` | src/timing/include/timing/structures/timing_wheel.h:70-95 | More than t ticks complete only after (t + 1) ticks of time, and at most t while less than (2t + 1) ticks of time have passed, although every advance drops a remainder. |
| `TickClock.DriftBounds` | src/timing/include/timing/structures/timing_wheel.h:91-92 | Over any readings, the time between advancements is between once and twice the ticks counted. |
| `TickClock.CountedFromReading` | src/timing/include/timing/structures/timing_wheel.h:72-92 | Over any readings, ticks are counted from the last reading at which one was completed, or the start if there was none: the time left over is dropped, never kept. |
| `TickClock.DriftTight` | src/timing/include/timing/structures/timing_wheel.h:72-92 | The factor of two is the best possible: for every tick and every e with 0 < e <= tick, some readings lose tick - e at each tick they count. |
| `TimerClock.TimerComesOut` | src/timing/include/timing/structures/timing_wheel.h:63-95 | A timer of t ticks that is due on time is returned only once now - L >= (t + 1) ticks, and is pending after an advance only if now - L < (2t + 1) ticks, whatever is scheduled and read between. |
| `TimerClock.StaysPending` | src/timing/include/timing/structures/timing_wheel_hierarchical.h:82-117 | An entry of the list stays exactly until its due tick has been processed. |
| `TimingWheels.PollRound` | src/scheduler/src/scheduler.cpp:40-43 | One round polls each ready source once, in order, queues its jobs and puts it back at its own frequency: at every distance the wheel holds what it held after the advance, and then the polled sources of that delay, in order; each source is held as often as before. |
| `TimingWheels.SchedulePollSources` | src/scheduler/src/scheduler.cpp:29-36 | The poll wheel starts with 6000 ticks of 10 ms and every source, in order, in the bucket of the first tick. |
| `TimingWheels.BeginPoll` | src/scheduler/src/scheduler.cpp:27-45 | After rounds at any clock readings, the jobs queued are, round by round, those of the sources that come up, and each source is in the wheel exactly as often as given. |
| `PollModel.PollPeriod` | src/scheduler/src/scheduler.cpp:40-43 | A source polled in the round at a reading is polled next in the first later round by which (frequency / tick mod n) + 1 ticks have completed since that reading, and, if the wheel holds it once, in none before. |
| `PollModel.PolledInTurn` | src/scheduler/src/scheduler.cpp:40-43 | What comes up in d ticks is polled in the first round by which more than d ticks are complete, whatever the clock does; in no round before that are all its occurrences. |
| `PollModel.FirstPoll` | src/scheduler/src/scheduler.cpp:34-36 | Every source is polled for the first time in the first round by which a tick is complete. |
| `PollModel.PutBackAhead` | src/scheduler/src/scheduler.cpp:42 | Putting sources back adds each at its own delay modulo the number of buckets, in order, and moves no other. |
| `JobQueues.JobQueue.constructor` | src/scheduler/include/scheduler/job_queue.h:13-14 | A queue of any base size of at least 1 starts empty. |
| `JobQueues.JobQueue.Enqueue` | src/scheduler/src/job_queue.cpp:13-24 | In place, the job is appended to the queue, growing the array only when full; loop rounds so far are at most twice the enqueues. |
| `JobQueues.JobQueue.Dequeue` | src/scheduler/src/job_queue.cpp:26-41 | In place, the oldest job is removed and returned, or nothing exactly when there is none. |
| `JobQueues.JobQueue.Size` | src/scheduler/src/job_queue.cpp:43-45 | The counter is the length of the queue. |
| `JobQueues.JobQueue.Resize` | src/scheduler/src/job_queue.cpp:49-66 | In place, the array doubles and every entry moves to its place in it, with one loop round per entry. |
| `JobQueues.JobQueue.Extend` | src/scheduler/src/job_queue.cpp:52 | In place, the array gets blank slots behind the ones it has. |
| `RingModel.MoveKeeps` | src/scheduler/src/job_queue.cpp:57-63 | After any number of rounds of the resize loop, no unmoved entry has been overwritten and every moved one is in its place. |
| `RingModel.GrownContents` | src/scheduler/src/job_queue.cpp:49-66 | A resize keeps the queue and leaves room. |
| `RingModel.EnqueueContents` | src/scheduler/src/job_queue.cpp:13-24 | An enqueue appends, with or without a resize. |
| `RingModel.DequeueContents` | src/scheduler/src/job_queue.cpp:26-41 | A dequeue takes the oldest element, or nothing if and only if the queue is empty. |
| `RingModel.RingRefinesFifo` | src/scheduler/src/job_queue.cpp:13-66 | Any run on the ring dequeues what a first-in first-out sequence does. |
| `RingModel.AmortisedCost` | src/scheduler/src/job_queue.cpp:16-66 | From any base size, resize loops make at most twice as many rounds in total as there are enqueues. |
| `QueueLinearizability.Linearizable` | src/scheduler/src/job_queue.cpp:13-45 | Under every schedule of every number of threads, calls split into their shared accesses appear to take effect one at a time on a first-in first-out queue, each between its start and its return. |
| `QueueLinearizability.StepSimulates` | src/scheduler/src/job_queue.cpp:13-45 | Every access is a step of the atomic queue (at the update of the counter, or at the check that finds the queue empty) or changes nothing there. |
| `QueueLinearizability.RunSimulates` | src/scheduler/src/job_queue.cpp:13-45 | The same over whole runs from any state that satisfies the invariant. |
| `QueueProgress.CallReturns` | src/scheduler/src/job_queue.cpp:13-41 | No call hangs: from every reachable state, a thread inside a call that proceeds alone, while no other holds the lock, has returned after at most 8 accesses. |
| `QueueProgress.LockIsFreed` | src/scheduler/src/job_queue.cpp:14-41 | A thread that holds the lock and proceeds alone has freed it after at most 5 accesses. |
| `QueueProgress.NoDeadlock` | src/scheduler/src/job_queue.cpp:13-41 | In every reachable state with an open call some thread, the holder of the lock if there is one, can return on its own within 8 accesses. |
| `QueueProgress.CallAlone` | src/scheduler/src/job_queue.cpp:13-41 | When no other call is open, a call of any thread that proceeds alone returns, within 8 accesses, exactly what it gives on the first-in first-out sequence, and leaves its effect. |
| `QueueProgress.EnqueueThenDequeue` | src/scheduler/src/job_queue.cpp:13-41 | On a new queue, a thread enqueues x, and then a thread, the same or another, dequeues: the second call returns x. |
| `QueueProgress.EmptyDequeueNeedsNoLock` | src/scheduler/src/job_queue.cpp:27-29 | A dequeue that begins while the queue is empty returns nothing after two accesses, whoever holds the lock. |
| `QueueProgress.CallIsMethod` | src/scheduler/src/job_queue.cpp:13-66 | An undisturbed call leaves the ring, slot for slot, as the method run in one piece does, resized exactly when the method resizes it. |
| `WorkerPools.WorkerPool.constructor` | src/scheduler/src/worker_pool.cpp:13-17 | A pool starts with a global queue and one queue per worker, all empty and separate. |
| `WorkerPools.WorkerPool.Queue` | src/scheduler/src/worker_pool.cpp:29-39 | Jobs go, in order, to the queue of the worker in the context, or else to the global queue; no other queue changes. |
| `WorkerPools.WorkerPool.StealJob` | src/scheduler/src/worker.cpp:36 | Takes the oldest job of that worker, or nothing, and leaves the rest of the pool. |
| `WorkerPools.WorkerPool.EnqueueGlobal` | src/scheduler/src/worker_pool.cpp:34-38 | A job is appended to the global queue and no worker queue changes. |
| `WorkerPools.WorkerPool.EnqueueLocal` | src/scheduler/src/worker.cpp:37-41 | A job is appended to the queue of one worker and no other queue changes. |
| `WorkerPools.WorkerPool.DequeueGlobal` | src/scheduler/src/worker_pool.cpp:44-46 | Takes the oldest job of the global queue, or nothing, and leaves the worker queues. |
| `WorkerPools.WorkerPool.FindNewWork` | src/scheduler/src/worker_pool.cpp:42-65 | The oldest job of the global queue if it has any, else the oldest of the first worker, circularly from the given start, that has one; exactly that job is removed, and nothing is returned if and only if all queues are empty. |
| `WorkerPools.WorkerPool.NextJob` | src/scheduler/src/worker.cpp:22-30 | One round of a worker: its own oldest job first, then the oldest global job, then that of the first worker from the given start with one; undisturbed it gets nothing if and only if every queue of the pool is empty. |
| `PoolModel.ScanVisitsOnce` | src/scheduler/src/worker_pool.cpp:54-62 | From any start the scan visits every worker, each in exactly one round. |
| `PoolModel.SearchFailsOnlyWhenEmpty` | src/scheduler/src/worker_pool.cpp:42-65 | Undisturbed, a search from any start returns nothing if and only if all queues are empty. |
| `PoolModel.SearchOrder` | src/scheduler/src/worker_pool.cpp:42-65 | A search takes from the global queue before any worker, and of the workers from the first, circularly from the start, that has a job. |
| `PoolModel.JobConservation` | src/scheduler/src/worker.cpp:22-42 | Under every interleaving of submissions and workers a job is in exactly one of the global queue, a worker queue, a hand or the executed jobs, as often as it was submitted; none runs more often. |
| `PoolModel.StepConserves` | src/scheduler/src/worker.cpp:22-42 | Each submission and each queue access keeps that balance. |
| `PoolProgress.TurnAlone` | src/scheduler/src/worker.cpp:22-30 | One undisturbed turn of a worker executes, within n + 3 queue accesses, its own oldest job, else the oldest global one, else that of the first worker from the start with one; it does nothing only when all queues are empty. |
| `PoolProgress.WorkGetsDone` | src/scheduler/src/worker.cpp:22-30 | From anywhere in its loop, while it holds a job or some queue is not empty, a worker alone executes a job within 2n + 4 choices. |
| `PoolProgress.DrainsAlone` | src/scheduler/src/worker.cpp:22-30 | A worker alone executes every queued job, each within n + 3 choices. |
| `Cells.WriteOnceCell.WriteResultToValue` | src/cell/include/cell/write_once_cell.h:81-100 | In place, a write is accepted if and only if there is no value; then it is stored, every waiting callback is queued in order with the result and forgotten. A rejected one changes nothing. |
| `Cells.WriteOnceCell.constructor` | src/cell/include/cell/write_once_cell.h:69-72 | A new cell has no value and no callbacks. |
| `CellModel.ReadIsDelivered` | src/cell/include/cell/write_once_cell.h:75-78 | Once a read gives a result it gives that result after any further awaits and writes, and by then every callback awaited before or since has been queued with it, once each and in order. |
| `Cells.WriteOnceCell.Await` | src/cell/include/cell/write_once_cell.h:103-118 | In place, a callback is queued at once when the value is there, else kept. |
| `Cells.TrackingOnceCell.Track` | src/cell/include/cell/tracking_once_cell.h:80-100 | In place, a track is accepted if and only if there is no target; then every waiting callback is awaited on the target, in order, and forgotten. A rejected one changes nothing. |
| `Cells.TrackingOnceCell.Await` | src/cell/include/cell/tracking_once_cell.h:65-76 | In place, a callback is awaited on the target when there is one, else kept. |
| `Cells.WhenAllExecutionContext.CommitResolvedValue` | src/cell/include/cell/when_all_cell.h:38-42 | In place, the slot is stored and the count incremented; true exactly when this was the last child. |
| `Cells.WhenAllExecutionContext.constructor` | src/cell/include/cell/when_all_cell.h:27-31 | A new context has a blank slot per child and counts none. |
| `Cells.WhenAnyExecutionContext.LogError` | src/cell/include/cell/when_any_cell.h:31-34 | In place, the error count is incremented; true exactly when every child has erred. |
| `Cells.WhenAnyExecutionContext.constructor` | src/cell/include/cell/when_any_cell.h:27 | A new context counts no error. |
| `CellModel.ExactlyOnce` | src/cell/include/cell/write_once_cell.h:81-118 | Over any run of awaits and writes the first write wins for ever; before it every callback waits, and after it each has been queued exactly once, in order, with that value. |
| `CellModel.OneWriteAccepted` | src/cell/include/cell/write_once_cell.h:81-100 | Of the writes of any run exactly one is accepted, the first, and the cell then holds its result for ever. |
| `CellModel.TrackingIsTransparent` | src/cell/include/cell/tracking_once_cell.h:56-100 | For any order of awaits, first track, rejected tracks and inner writes, every callback is delivered exactly once, in order, with the first result of the inner cell. |
| `CellModel.OneTrackAccepted` | src/cell/include/cell/tracking_once_cell.h:80-100 | In any run a track is accepted if and only if it is the first. |
| `TaskRuns.ScheduleSafe` | include/async_lib/task.h:81-184 | After every run of any program of task expressions, a cell that can be read holds a result that the meaning of its expression allows. |
| `TaskRuns.RootsStay` | include/async_lib/task.h:81-184 | The tasks of a program keep the cells they were built with, through every run. |
| `TaskRuns.ScheduleResolves` | include/async_lib/task.h:81-184 | When nothing is pending, every task whose result is defined under all schedules has resolved. |
| `TaskRuns.SchedulesAgree` | include/async_lib/task.h:81-184 | A task with one possible result has it after every complete run: all schedules agree. |
| `TaskRealise.ResultsExactly` | include/async_lib/task.h:81-184 | The meaning of a task without copies is exact: a result is allowed if and only if some complete run ends with it. |
| `TaskRealise.AllowedHappens` | include/async_lib/task.h:81-184 | For every allowed result of a task without copies there is a complete run that ends with it. |
| `TaskRealise.Realise` | include/async_lib/task.h:81-149 | From wherever a task has been built and not begun, steps of its own lead to any result it may have and change nothing else that was there. |
| `TaskChildren.AllCounted` | src/cell/include/cell/when_all_cell.h:75-87 | Once the children have resolved so that all count, they can be counted with any one of them last, and that one writes the vector, of a when_any its own error. |
| `TaskCopies.CopySharesCell` | include/async_lib/task.h:161-169 | A copy of an earlier task of a program is the cell of that task, and adds nothing to the graph. |
| `TaskCopies.CopiesAgree` | src/cell/include/cell/when_all_cell.h:63-88 | The elements of a when_all vector agree wherever its children are copies of one task. |
| `TaskCopies.RaceInexact` | include/async_lib/task.h:161-184 | A when_all over two copies of a race: both values together are allowed by the meaning, and no run ends with them. |
| `TaskRuns.OverNoTasks` | include/async_lib/task.h:171-184 | when_all and when_any over no tasks never resolve. |
| `TaskRuns.ReadsAreFinal` | src/cell/include/cell/write_once_cell.h:75-98 | Once a cell can be read, every continuation of the run leaves what it reads, tracking cells included. |
| `TaskRuns.RunsAtMostOnce` | include/async_lib/task.h:81-149 | No callback or job runs twice, and a callback runs on exactly the result that the cell it awaits reads. |
| `TaskRuns.RunsOnceResolved` | include/async_lib/task.h:81-149 | When nothing is pending, a callback has run exactly once if the cell it awaits has resolved, and not at all otherwise; every job has run. |
| `TaskRuns.RunsAreFinite` | include/async_lib/task.h:111-131 | Every run has at most as many actions as the expressions bound in advance, although bind builds tasks while running. |
| `TaskRuns.InitialWork` | include/async_lib/task.h:81-184 | The weight of a program before it runs is at most the work of its expressions and one for each completed source. |
| `TaskRuns.RunCompletes` | include/async_lib/task.h:81-184 | Every run can be carried on until nothing is pending. |
| `TaskRuns.PendingCanHappen` | include/async_lib/task.h:81-184 | No pending action is ever blocked. |
| `TaskCombinators.FullCountSeenOnce` | src/cell/include/cell/when_all_cell.h:38-42 | Under every schedule at most one child callback of a when_all or when_any sees the full count; when nothing is pending, one has if and only if every child reads a value (of a when_any, an error). |
| `TaskCombinators.WhenAllDecided` | src/cell/include/cell/when_all_cell.h:63-88 | A when_all reads a vector only if every child reads its element, in order, and an error only if a child reads it; when nothing is pending it is unresolved only over no tasks, or if no child erred and some is unresolved. |
| `TaskCombinators.WhenAnyDecided` | src/cell/include/cell/when_any_cell.h:50-74 | A when_any reads only what a child reads, and an error only if every child erred; when nothing is pending it is unresolved only over no tasks, or if no child succeeded and some is unresolved. |
| `TaskCombinators.FirstSuccessWins` | src/cell/include/cell/when_any_cell.h:61-65 | A when_any reads the first success that was run, from then on. |
| `TaskRefinement.ActionSim` | src/cell/include/cell/write_once_cell.h:81-118 | Every action on the heap of cells, callback lists and pending jobs is the next step of exactly one callback. |
| `TaskRefinement.WriteSim` | src/cell/include/cell/write_once_cell.h:81-100 | A write hands over exactly the callbacks that wait in the cell, once each. |
| `TaskRefinement.TrackSim` | src/cell/include/cell/tracking_once_cell.h:80-100 | A track passes on exactly the callbacks that wait in the cell, once each. |
| `TaskRefinement.AwaitSim` | src/cell/include/cell/tracking_once_cell.h:65-76 | An await is passed on, answered or kept. |
| `TaskLinks.WakeLinked` | src/cell/include/cell/write_once_cell.h:89-95 | Emptying a list of callbacks makes each of them pending exactly once and no other. |
| `TaskSteps.StepKeeps` | include/async_lib/task.h:81-149 | Every step of every callback keeps the invariant of the running graph and leaves the cells it does not write alone. |
| `TaskSteps.CountUpKeeps` | src/cell/include/cell/when_all_cell.h:40-41 | The increment, apart from the slot store and the write, keeps the invariant: the full count is seen with every slot stored. |
| `TaskSteps.ResolveKeeps` | include/async_lib/task.h:85-91 | The job of a created task, or the completion of a source, keeps the invariant. |
| `TaskSteps.RegisterKeeps` | src/cell/include/cell/tracking_once_cell.h:65-76 | An await, wherever it ends up on the chain of tracked cells, keeps the invariant: a callback is only ever delivered what its own cell reads. |
| `TaskSteps.InvokeMapKeeps` | include/async_lib/task.h:141-145 | A map callback keeps the invariant, on values and errors. |
| `TaskSteps.InvokeBindErrorKeeps` | include/async_lib/task.h:120-123 | A bind callback on an error keeps the invariant: the error cell holds the error read before it is tracked. |
| `TaskSteps.TrackKeeps` | src/cell/include/cell/tracking_once_cell.h:80-100 | A track keeps the invariant: the target holds the task of the value read, or the error read. |
| `TaskSteps.TargetBelow` | src/cell/include/cell/tracking_once_cell.h:85-91 | What a bind tracks is part of its own expression or tracks nothing, so chains of tracked cells are finite, whatever tasks are shared. |
| `TaskSteps.StoreKeeps` | src/cell/include/cell/when_all_cell.h:39 | A slot store, before the increment, keeps the invariant of the other children. |
| `TaskSteps.InvokeAllErrorKeeps` | src/cell/include/cell/when_all_cell.h:84 | A child error keeps the invariant: the error is that of a child. |
| `TaskSteps.PublishKeeps` | src/cell/include/cell/when_all_cell.h:80-82 | The vector written holds the value of child i at position i. |
| `TaskSteps.LogErrorKeeps` | src/cell/include/cell/when_any_cell.h:66-69 | A logged error keeps the invariant: the full count of errors is seen only when every child erred. |
| `TaskSteps.InvokeAnyValueKeeps` | src/cell/include/cell/when_any_cell.h:64 | A child success keeps the invariant: the value is that of a child. |
| `TaskSteps.PublishErrorKeeps` | src/cell/include/cell/when_any_cell.h:67-69 | The error written after the full count keeps the invariant: every child erred. |
| `TaskSteps.InvokeBindValueKeeps` | include/async_lib/task.h:117-127 | A bind that builds the task of its value keeps the invariant, whatever that task is. |
| `TaskSteps.InitialInv` | include/async_lib/task.h:81-184 | A program whose tasks have been built, and nothing has run, satisfies the invariant. |
| `TaskMeaning.ReadAllowed` | include/async_lib/task.h:81-184 | In every state that satisfies the invariant, what a cell reads is a result that its expression allows. |
| `TaskMeaning.QuiescentResolved` | include/async_lib/task.h:81-184 | In every such state with nothing pending, an expression with a defined result has been resolved. |
| `TaskMeaning.CombinatorResolved` | src/cell/include/cell/when_all_cell.h:75-87 | With nothing pending, a combinator has resolved if and only if its children decide it. |
| `TaskMeaning.MapIsBind` | include/async_lib/task.h:134-149 | map(f) has exactly the results of bind to a task created with f(x), errors included, and resolves when it does. |
| `TaskMeaning.BindAssociates` | include/async_lib/task.h:111-131 | bind is associative in its results. |
| `TaskTermination.StepDecreases` | include/async_lib/task.h:111-131 | Every step makes the total weight of pending and unregistered continuations smaller, even when bind builds new tasks. |
| `TaskTermination.BuildWork` | include/async_lib/task.h:81-184 | Building a task adds at most the weight its expression says; less when it shares tasks. |
| `TaskGraph.BuildWired` | include/async_lib/task.h:81-184 | Building any expression wires its cells and callbacks as its combinators say and leaves the existing graph. |
| `TaskSyntax.InVectors` | src/cell/include/cell/when_all_cell.h:63-88 | A vector is a possible result of when_all if and only if each element is possible for the task at its position. |
| `TaskSyntax.InBindResults` | include/async_lib/task.h:117-127 | A result of bind is possible if and only if it is an error of the bound task, or possible for the task given for one of its values. |
| `TaskSyntax.MapLaw` | include/async_lib/task.h:134-149 | map passes errors on as they are and applies its function to values, and gives nothing else. |
| `TaskSyntax.BindLaw` | include/async_lib/task.h:111-131 | bind passes errors on as they are, and on a value gives what the task for that value gives, and nothing else. |
| `TaskSyntax.AllLaw` | src/cell/include/cell/when_all_cell.h:63-88 | when_all gives an error of one task, or a value of each task in order; over no tasks it gives nothing. |
| `TaskSyntax.AnyLaw` | src/cell/include/cell/when_any_cell.h:50-74 | when_any gives a value of one task, or an error of one if every task can err. |

## Left out

- HierarchicalTimingWheels.HierarchicalTimingWheel.constructor: takes sizes that are at least 1 and whose tick totals stay within 2^63; the code accepts any sizes, divides by zero on a wheel of none and overflows beyond.
- TimingWheels.BeginPoll: runs over a given list of clock readings; the stop token and the sleeping thread are not modelled, and a source is a value with a fixed frequency whose `poll` gives, in each round, what a function of the round says.
- QueueLinearizability.Linearizable: holds for interleavings of whole accesses under sequential consistency; relaxed memory order is not modelled, and the lock is taken in one step.
- QueueProgress.CallReturns: is about a thread that proceeds while no other takes the lock; that a spinning thread is ever served under contention is not promised by the code.
- PoolProgress.TurnAlone: is about a worker that no other disturbs; a worker can be overtaken for ever by others that take every job first.
- JobQueues.JobQueue.Dequeue: does not model what a slot holds after its job has been moved out, nor the move constructor and move assignment of the queue.
- WorkerPools.WorkerPool.FindNewWork: the random start is a parameter.
- PoolModel.JobConservation: takes each queue call as one step, as the linearizability of the queue allows; jobs that queue further jobs appear as submissions.
- Cells.TrackingOnceCell.Await: hands the await to an outbox instead of calling the tracked cell, whose type is not known there; the heap machine delivers it to that cell.
- Cells.WriteOnceCell.Await: takes `push_back` under the shared lock as one step; two awaits at once on one cell are outside the model.
- TaskRuns.ScheduleSafe: a source is completed at most once in the graph; that later completions change nothing is `CellModel.ExactlyOnce`. A copy of a task names the cell it shares; where that cell is not the task's, the task is built again.
- TaskRealise.ResultsExactly: is about expressions without copies of tasks. With copies only one half holds, `TaskRuns.ScheduleSafe`: copies agree with each other, which the meaning of an expression does not say; `TaskCopies.RaceInexact` is an input.
- TaskRuns.RunsAreFinite: takes the functions given to tasks as total and without effects of their own; exceptions are not modelled.
- TaskHeap.Perform: passes waiting callbacks on one at a time after a track, where the code does it under the lock of the tracking cell; every order of the code is among the orders of the model.
- Negative durations: delays are natural numbers; clock readings may be any integers.
- `block`, condition variables and thread wake-up: left to the operating system.
- Task contexts: which worker's queue a continuation goes to does not matter to the task results and is only modelled in the pool.
- Shared-pointer lifetimes and destructors, and the overflow of growing indices and counters.
- `src/io`, the IO and timer task sources, `TaskFactory`, `TaskValueSource` and the scheduler factory: wiring around the parts above.
- `SpinLock` on its own: used only as the lock of the queue.
