# Verified models of the task-distribution protocol and the numerical kernels

This project models two parts of the distributed computing system.

**Task distribution.** The priority task queue (a linked list under a mutex), the coordinator's worker and task tables,
the coordinator's dispatch loop, the standalone worker's loop, the channels between them, and the MPI transport that
splits each message into a header and a payload. The queue and the scheduler exist twice: as values with pure operations
(`QueueSpec`, `SchedSpec`) about which properties of whole runs are proved, and as classes with linked nodes and arrays
(`TaskQueue`, `Scheduler`) whose methods refine those operations. `Protocol` puts coordinator, workers and channels
together as a step system over all interleavings; `Coordinator`, `WorkerLoop` and `EventLoop` tie the imperative code to
its steps. `QueueMonitor` is the blocking side of the queue, `MpiFraming` the transport.

**Numerical kernels.** CSR sparse matrices, the Thomas, LU and Cholesky solvers, the BFGS update and minimiser, linear
conjugate gradients, matrix powers, finite-volume steps, periodic finite differences, and two bracketing root finders.
Floating point is exact `real` arithmetic.

| files | subject |
|---|---|
| `QueueSpec`, `TaskQueue`, `QueueMonitor`, `MonitorRuns` | the task queue as FIFO lanes, as a linked list, and as a monitor with what its runs deliver |
| `SchedSpec`, `Scheduler`, `TableViews`, `SchedRuns` | the worker and task tables, and what their rows say about a run |
| `Batches`, `Coordinator`, `WorkerLoop` | batches of tasks, the coordinator's dispatch, the worker's loop |
| `Protocol`, `Places`, `Safety`, `EventLoop` | the step system, where each task is, the invariant, the loop as a run |
| `Limits`, `Histories` | the batch a worker is sent; channels, queues and tables read off the events of a run |
| `Cycle`, `Stuck`, `Stranded` | a task's way through an idle system; workers that stay busy after a lost answer, or after the tracking table ran full |
| `MpiFraming`, `Wrappers` | headers and payloads on two tags; optional values |
| `Sums`, `LinAlg`, `Orthogonal` | finite sums, vectors and matrices, orthogonal families |
| `ConjugateGradient`, `Bfgs`, `MatrixPower` | iterative and matrix-valued algorithms |
| `Tridiagonal`, `TriangularSolve` | direct solvers |
| `SparseMatrix`, `SparseTranspose`, `SparseOps`, `SparseBuild`, `SparseArith` | CSR matrices |
| `FiniteVolume`, `VolumeSteps`, `VolumeLaws`, `FiniteDifference`, `DifferenceLaws` | grid kernels, their equations and the fields they are exact on |
| `Bracketing` | root finders |

`dafny verify dfyconfig.toml` checks everything.

## Conventions

- I/O, clocks, memory and the network are parameters: `now` is the time read, `nodeOk` says whether an allocation
  succeeded, `sendOk` and `sent` whether a send succeeded, `signalled` which sleepers a signal woke.
- C integers are mathematical integers. The scheduler's unsigned counters are `int`, so that a decrement below zero would
  show. Worker rows keep `running` saturating at zero, as the code does.
- Task flags are the three named bits, as a record.
- `square root < tolerance` is written without the root (`Sums.RootBelow`).
- `tiny` is the smallest positive number the Fortran intrinsic returns; it is a positive parameter.
- In the step system the coordinator's message handling, one worker's turn in the dispatch loop, and the timeout sweep
  are separate events, so every order in which the loop can meet messages is covered; `EventLoop.RoundIsARun` shows that
  one pass of the dispatch loop is such a run. Environment steps submit tasks. Task ids are never submitted twice, a
  worker registers once, and no worker asks for batches above the 100 slots of the coordinator's local array.

## Where the code and its comments differ

The model follows the code.

- `secant_solve_bracket` promises a valid bracket for either order of the ends; the swap branch stores the lower end's
  value twice (`Bracketing.StoredSignIff`).
- `newton_raphson_solve_bracket` does not test the ends, so a root at the lower end can be lost
  (`Bracketing.MovedIff`, `Bracketing.RootAtLowerEndIsLost`).
- A comment in `fv_compute_fluxes_1d` calls the default case upwind; the code sets the flux to zero
  (`VolumeSteps.DefaultIsUpwindIff`, `VolumeSteps.DefaultDiffersFromUpwind`).
- `task_queue_wake_all` is documented to make waiters return with an error; the code makes them test the queue again
  (`QueueMonitor.WakeAllLeavesIff`, `QueueMonitor.WakeAllSleepsAgain`).
- The scheduler's counters are not adjusted when a known worker registers again or a dead one is removed
  (`SchedSpec.StepIff`, `SchedSpec.BusyRegistersAgain`, `SchedSpec.DeadUnregisters`).

## Model

| member | source | states |
|---|---|---|
| `QueueSpec.EnqueueKeepsInv` | src/runtime/task_queue.c:114-204 | an enqueue, whichever code it returns, keeps capacity, the split into lanes by priority, id uniqueness when duplicates are off, and enqueued = dequeued + size + removed + cleared |
| `QueueSpec.DequeueKeepsInv` | src/runtime/task_queue.c:206-246 | a dequeue keeps the same invariant |
| `QueueSpec.RemoveKeepsInv` | src/runtime/task_queue.c:339-384 | cancellation by id keeps the same invariant |
| `QueueSpec.ContentsUnique` | src/runtime/task_queue.c:135-140 | with duplicates off no id occurs twice in the whole list |
| `QueueSpec.RunInv` | src/runtime/task_queue.c:102-246 | the invariant holds after every sequence of operations from an empty queue |
| `QueueSpec.RunConserves` | src/runtime/task_queue.c:102-246 | in every run the accepted tasks are, with multiplicity, the delivered, the discarded and the queued ones |
| `QueueSpec.RunInOrder` | src/runtime/task_queue.h:19-22 | in every run each priority delivers a subsequence of what it accepted in the order it came, and exactly that when nothing was cancelled |
| `QueueSpec.FlaggedFirst` | src/runtime/task_queue.c:155-190 | in every run a listed task with the high-priority flag stands before every one without it, whatever was removed in between |
| `QueueSpec.DeliversListed` | src/runtime/task_queue.c:206-246 | n dequeues in a row deliver the first n listed tasks in order and leave the others as they were |
| `QueueSpec.RunTallied` | src/runtime/task_queue.c:114-246 | in every run the counters are the numbers of accepted, delivered and discarded tasks |
| `QueueSpec.CodesMean` | src/runtime/task_queue.c:120-145 | after every run the result of an enqueue is refused, full, duplicate or success exactly when the queue is shut down or allocation fails, is at its capacity, lists the id, or none of these, tested in this order; only success changes the queue |
| `TaskQueue.TaskQueue.constructor` | src/runtime/task_queue.c:44-66 | a new queue is empty with the given capacity and duplicate rule |
| `TaskQueue.TaskQueue.TaskExists` | src/runtime/task_queue.c:102-112 | walking the list finds an id exactly when some queued task has it |
| `TaskQueue.TaskQueue.InsertBetween` | src/runtime/task_queue.c:165-180 | linking a node between neighbours inserts it at that position and keeps links, tail and distinctness |
| `TaskQueue.TaskQueue.LastHigh` | src/runtime/task_queue.c:165-171 | the walk stops between the last high-priority node and its successor |
| `TaskQueue.TaskQueue.InsertHigh` | src/runtime/task_queue.c:155-181 | a high-priority node goes behind the last high-priority one, in all three list shapes |
| `TaskQueue.TaskQueue.InsertNormal` | src/runtime/task_queue.c:182-190 | a normal node goes to the tail |
| `TaskQueue.TaskQueue.Enqueue` | src/runtime/task_queue.c:114-204 | the linked list refines enqueue on the pair of lanes: same code, same new contents, tail the last node |
| `TaskQueue.TaskQueue.Dequeue` | src/runtime/task_queue.c:206-246 | the linked list refines dequeue: returns and removes the first task |
| `TaskQueue.TaskQueue.Peek` | src/runtime/task_queue.c:319-337 | returns the task a dequeue would |
| `TaskQueue.TaskQueue.IsEmpty` | src/runtime/task_queue.c:386-395 | the stored size is zero exactly when no task is queued |
| `TaskQueue.TaskQueue.Unlink` | src/runtime/task_queue.c:353-361 | unlinking at any position, head and tail included, keeps the chain of the other nodes |
| `TaskQueue.TaskQueue.RemoveById` | src/runtime/task_queue.c:339-384 | the linked list refines cancellation of the first task with the id; found exactly when one is queued |
| `TaskQueue.TaskQueue.Clear` | src/runtime/task_queue.c:436-462 | empties the queue and returns how many tasks it held |
| `QueueMonitor.ApplySafe` | src/runtime/task_queue.c:192-198 | every event except a timeout that swallows a signal keeps: if anyone sleeps, the size is at most the number of woken waiters, and blocked_threads counts the threads inside the wait, timed-out ones that have not regained the mutex included; what an event does to the tasks is in the rows of `MonitorRuns` |
| `QueueMonitor.ExecSafe` | src/runtime/task_queue.c:248-317 | the same after every interleaving of enqueue, dequeue, wait, remove, clear, broadcast, shutdown, spurious wakeups, plain timeouts and the return of a timed-out waiter; what the interleaving delivers is in the rows of `MonitorRuns` |
| `QueueMonitor.NobodySleepsBesideATask` | src/runtime/task_queue.c:269-290 | once the woken waiters have run, in any order, nobody sleeps while a task is queued |
| `QueueMonitor.ExpireSignalledIff` | src/runtime/task_queue.c:278-282 | a timeout that consumes a signal keeps the monitor safe if and only if nobody sleeps or a woken waiter is to spare |
| `QueueMonitor.LostWakeup` | src/runtime/task_queue.c:278-282 | a run of four events in which such a timeout leaves a waiter asleep beside a task |
| `QueueMonitor.WokenLeavesIff` | src/runtime/task_queue.c:269-303 | a woken waiter leaves the wait if and only if the queue is non-empty or shutting down; otherwise it sleeps again and nothing changes |
| `QueueMonitor.WakeAllLeavesIff` | src/runtime/task_queue.c:464-471 | the same for a waiter woken by the broadcast of wake_all |
| `QueueMonitor.WakeAllSleepsAgain` | src/runtime/task_queue.c:464-471 | one waiter on an empty queue is asleep again after wake_all |
| `QueueMonitor.EnterLeavesIff` | src/runtime/task_queue.c:248-303 | a thread that starts to wait leaves at once if and only if the queue is non-empty or shutting down, one task shorter when it was given one; otherwise it sleeps and the queue is unchanged |
| `MonitorRuns.TakesTheFirst` | src/runtime/task_queue.c:206-317 | every event that returns a task, waiting or not, returns the first listed one and removes exactly it |
| `MonitorRuns.RemovedIsFirst` | src/runtime/task_queue.c:339-384 | a cancellation finds a task exactly when one with the id is listed, and it is the first such task in list order |
| `MonitorRuns.ExecConserves` | src/runtime/task_queue.c:114-462 | over every interleaving the accepted tasks are, with multiplicity, those returned to some thread, those thrown away and those still listed |
| `MonitorRuns.ExecInOrder` | src/runtime/task_queue.c:114-462 | over every interleaving what each priority returned, followed by what it still holds, is a subsequence of what it accepted in order, and exactly that when nothing was thrown away |
| `SchedSpec.RegisterIff` | src/coordinator/scheduler.c:94-135 | registration keeps ids distinct and counters exact if and only if the table is full, the worker is new, or it is idle |
| `SchedSpec.UnregisterIff` | src/coordinator/scheduler.c:137-170 | removal keeps them if and only if the worker is unknown or not dead |
| `SchedSpec.HeartbeatCounted` | src/coordinator/scheduler.c:172-195 | a heartbeat, reviving or not, keeps the counters exact |
| `SchedSpec.MarkBusyCounted` | src/coordinator/scheduler.c:197-217 | marking a worker busy keeps the counters exact |
| `SchedSpec.MarkIdleCounted` | src/coordinator/scheduler.c:219-238 | marking a worker idle keeps the counters exact |
| `SchedSpec.CompleteCounted` | src/coordinator/scheduler.c:286-333 | completing any task id, tracked or not, keeps the counters exact |
| `SchedSpec.SweepCounted` | src/coordinator/scheduler.c:335-371 | a timeout sweep, stopped after any row, keeps the counters exact |
| `SchedSpec.SweepLeavesOnlyRecent` | src/coordinator/scheduler.c:335-371 | after a sweep a worker is dead exactly when it was dead or was last heard of beyond the limit |
| `SchedSpec.StepIff` | src/coordinator/scheduler.c:94-371 | any operation keeps ids distinct and idle, busy, dead, active and scheduled counters exact if and only if it re-registers no busy or dead worker and removes no dead one |
| `SchedSpec.BusyRegistersAgain` | src/coordinator/scheduler.c:94-135 | from empty tables, registering any worker, marking it busy and registering it again leaves the counters wrong |
| `SchedSpec.DeadUnregisters` | src/coordinator/scheduler.c:137-170 | from empty tables, registering any worker, letting it time out and removing it leaves the counters wrong |
| `SchedSpec.RunCounted` | src/coordinator/scheduler.c:94-371 | the same over every such run from an empty table |
| `SchedRuns.RunTotals` | src/coordinator/scheduler.c:94-333 | on every run, re-registrations and removals included, the totals are the numbers of workers that joined, of credited results with status zero and of credited results with another status |
| `SchedRuns.RowsTell` | src/coordinator/scheduler.c:94-371 | on every run each worker's whole row is the one its own registrations, heartbeats, batches, results and timeouts leave, computed for that worker alone |
| `SchedRuns.TasksTell` | src/coordinator/scheduler.c:259-333 | on every run each task's whole row is the one its first tracking and its latest result leave, computed for that task alone |
| `Scheduler.Scheduler.constructor` | src/coordinator/scheduler.c:38-79 | new tables are empty, with room for the given workers and 100000 tasks |
| `Scheduler.Scheduler.FindWorker` | src/coordinator/scheduler.c:107-108 | the search loop returns the first row with the id, or the count |
| `Scheduler.Scheduler.Register` | src/coordinator/scheduler.c:94-135 | the arrays refine registration, full table first |
| `Scheduler.Scheduler.Unregister` | src/coordinator/scheduler.c:137-170 | the arrays refine removal by swapping in the last row |
| `Scheduler.Scheduler.Heartbeat` | src/coordinator/scheduler.c:172-195 | the arrays refine the heartbeat |
| `Scheduler.Scheduler.MarkBusy` | src/coordinator/scheduler.c:197-217 | the arrays refine marking busy |
| `Scheduler.Scheduler.MarkIdle` | src/coordinator/scheduler.c:219-238 | the arrays refine marking idle |
| `Scheduler.Scheduler.GetIdleWorkers` | src/coordinator/scheduler.c:240-257 | the output array receives the first idle rows in table order, at most the given number |
| `Scheduler.IdleRowsExact` | src/coordinator/scheduler.c:247-252 | with room for all, exactly the idle workers are listed |
| `Scheduler.IdleRowsDistinct` | src/coordinator/scheduler.c:247-252 | no worker is listed twice |
| `Scheduler.IdleRowsInOrder` | src/coordinator/scheduler.c:247-252 | they are listed in table order |
| `Scheduler.Scheduler.Track` | src/coordinator/scheduler.c:259-284 | the arrays refine tracking, refused when the table is full |
| `Scheduler.Scheduler.Credit` | src/coordinator/scheduler.c:298-323 | charges one ended task to its worker and makes it idle when it has none left |
| `Scheduler.Scheduler.Complete` | src/coordinator/scheduler.c:286-333 | the arrays refine completion of the first row with the task id |
| `Scheduler.Scheduler.CheckTimeouts` | src/coordinator/scheduler.c:335-371 | the arrays refine the sweep and the result is the number of workers that died |
| `TableViews.ViewUnregister` | src/coordinator/scheduler.c:155-159 | swap-removal forgets exactly that worker and leaves every other worker's row as it was |
| `TableViews.ViewComplete` | src/coordinator/scheduler.c:286-333 | completion changes only the row of the worker the task is tracked for |
| `TableViews.OwnerComplete` | src/coordinator/scheduler.c:286-333 | completion leaves every task's tracked worker alone |
| `TableViews.StillAsListed` | src/coordinator/main.c:249-280 | when a listed worker's turn comes its row is still the listed one |
| `Batches.BatchIsPrefix` | src/coordinator/main.c:120-134 | a batch is the front of the list and the rest stays queued in order |
| `Batches.BatchSize` | src/coordinator/main.c:120-134 | a batch has the smaller of the limit and the queue size |
| `Batches.EnqueueCount` | src/worker/main.c:332-335 | each offered task is either queued or turned away, counted per id |
| `Batches.EnqueueFits` | src/worker/main.c:332-335 | with room for all and no id twice no task is turned away |
| `Batches.RequeueRestores` | src/coordinator/main.c:273-278 | putting a batch back restores the multiset of tasks, flags included, and keeps the size and the invariant of the queue |
| `Batches.TrackOwners` | src/coordinator/main.c:268-272 | tracking a batch assigns its tasks to the worker as far as the table has room and leaves other assignments alone |
| `Coordinator.CreateTaskBatch` | src/coordinator/main.c:120-134 | fills the batch array with the first tasks of the queue, up to the limit, whenever they fit it |
| `Coordinator.RequeueBatch` | src/coordinator/main.c:273-278 | enqueues the whole batch again in order |
| `Coordinator.TrackBatch` | src/coordinator/main.c:268-272 | tracks every task of the batch |
| `CoordSpec.InSlotsIff` | src/coordinator/main.c:254-260 | a worker's batch fits the local array of 100 if and only if the queue or the worker's limit is at most 100 |
| `CoordSpec.BatchOverrunsSlots` | src/coordinator/main.c:252-260 | for every worker that registered for more than 100 tasks at a time, and any 101 to 10000 tasks submitted to a new queue, the batch is larger than the array |
| `CoordSpec.TurnTakes` | src/coordinator/main.c:252-272 | a turn with a successful send takes the front of the list, the smaller of the queue size and the number the row names, ten for none |
| `Coordinator.Dispatch` | src/coordinator/main.c:252-280 | one turn of the dispatch loop on the linked queue and the arrays, for a successful and a failed send, whenever the batch fits the local array: the tasks sent are the front of the list, as many as the row names, or ten when it names none, or the whole queue when that is shorter |
| `Coordinator.DispatchRound` | src/coordinator/main.c:248-280 | the whole dispatch pass over the idle workers, ended by an empty queue; with `CoordSpec.TurnTakes` and `EventLoop.PassServesAll` on what each turn and the pass achieve |
| `Coordinator.HandleRegister` | src/coordinator/main.c:54-81 | a registration message registers the worker with defaults for zero capabilities |
| `CoordSpec.RegisteredRow` | src/coordinator/main.c:54-81 | while the table has room the row left is exactly the one of the message, with one rank and ten tasks for missing numbers, idle, heard of now, and dated when the worker is new |
| `WorkerLoop.StandaloneWorker.constructor` | src/worker/main.c:268-286 | a worker starts with an empty local queue of 1000 slots without duplicates and no slot reserved |
| `WorkerLoop.StandaloneWorker.Receive` | src/worker/main.c:324-337 | unpacking a batch on the linked queue is the receive event |
| `WorkerLoop.StandaloneWorker.Reserve` | src/runtime/resource_limits.c:400-420 | a slot is reserved exactly when fewer than the maximum are |
| `WorkerLoop.StandaloneWorker.Release` | src/runtime/resource_limits.c:422-444 | releasing saturates at zero and counts the task as completed or failed |
| `WorkerLoop.StandaloneWorker.Begin` | src/worker/main.c:342-351 | taking a task with a slot, or putting it back, is the begin event |
| `WorkerLoop.StandaloneWorker.Finish` | src/worker/main.c:368-375 | answering, releasing the slot and counting the task by its status is the finish event |
| `Places.ReceivedHeld` | src/worker/main.c:324-337 | unpacking a batch moves tasks between the places of one worker and loses none |
| `Places.BegunHeld` | src/worker/main.c:342-351 | starting a task loses none and counts one execution |
| `Places.BegunWithSlot` | src/worker/main.c:342-351 | below eight reserved slots the first task is begun and the rest stays in order; otherwise it goes back and the queue holds the same tasks |
| `Places.FinishedHeld` | src/worker/main.c:368-375 | answering, or failing to, loses no task and frees one slot, none when none is reserved |
| `Safety.NothingDropped` | src/worker/main.c:332-335 | a worker with at most 100 outstanding, no id twice, accepts its whole next batch |
| `Safety.DoneSafe` | src/coordinator/main.c:90-117 | processing a result keeps the invariant: places, executions, owners, running counts and counters |
| `Safety.SentSafe` | src/coordinator/main.c:260-272 | dispatching a batch keeps the invariant |
| `Safety.FailedSafe` | src/coordinator/main.c:273-278 | a failed dispatch keeps the invariant |
| `Safety.ApplySafe` | src/coordinator/main.c:220-287 | every event of coordinator, worker or environment keeps the invariant |
| `Safety.ExecSafe` | src/coordinator/main.c:220-287 | the invariant holds after every interleaving |
| `Safety.ExactlyOnePlace` | src/coordinator/main.c:252-280 | on every run each submitted task is in exactly one place: queued, in flight, in a worker queue, executing, answered, completed, refused or lost with its answer |
| `Safety.ExecutedAtMostOnce` | src/worker/main.c:342-375 | on every run no task is executed twice |
| `Safety.NoRejection` | src/worker/main.c:332-335 | on every run without a declared death no worker queue turns a task away |
| `Safety.FailedSendRestores` | src/coordinator/main.c:273-278 | on every run a failed send leaves the multiset of queued tasks, flags included, and everything else as it was |
| `Safety.RunningIsOutstanding` | src/coordinator/scheduler.c:197-217 | on every run in which at most 100000 tasks were dispatched, timeouts and revivals included, a worker's running count is the number of tasks sent to it whose results are not processed, and a busy worker has at least one |
| `Safety.RoomMeansAllTracked` | src/coordinator/scheduler.c:259-284 | on every run, while the tracking table has room it holds one row per dispatched task |
| `Limits.BatchAsNamed` | src/coordinator/main.c:252-272 | on every run a worker that is sent a batch is sent the front of the queue, exactly the smaller of the queue size and the number the worker named when it started, ten for zero |
| `Limits.NeverSentMore` | src/coordinator/main.c:252-260 | on every run no batch on its way to a worker is larger than the worker named |
| `Histories.MessagesInOrder` | src/coordinator/main.c:220-246 | on every run the messages handled for a worker are those it sent, in the order it sent them, each once |
| `Histories.BatchesInOrder` | src/worker/main.c:324-337 | on every run the batches unpacked by a worker are those sent to it, in order, each once |
| `Histories.WorkerServesQueue` | src/worker/main.c:324-351 | on every run a worker begins, in order, the tasks a queue of 1000 delivers that is given those batches |
| `Histories.DeskServesQueue` | src/coordinator/main.c:252-280 | on every run the coordinator's queue is the one left by the submissions, the batches taken and the batches put back |
| `Histories.TablesFollow` | src/coordinator/main.c:54-117 | on every run the coordinator's tables are those left by the messages in the order they were sent, the batches sent and the sweeps |
| `Histories.RowsFollow` | src/coordinator/main.c:54-117 | hence on every run a worker's row is the story those operations tell of that worker alone |
| `Histories.TaskRowsFollow` | src/coordinator/main.c:90-117 | and a task's row the story of that task alone |
| `Safety.BusyHasWork` | src/coordinator/scheduler.c:314-320 | on every run, while the tracking table has room, running counts are exact and a busy worker that refused nothing and lost no answer has something left to finish |
| `Stuck.StuckUntilExpired` | src/coordinator/scheduler.c:335-371 | a busy worker with nothing left to finish stays so through any event if and only if that event is not a sweep that finds its heartbeat too old |
| `Stuck.StuckForGood` | src/coordinator/scheduler.c:335-371 | through every continuation in which no sweep declares it dead such a worker stays busy with nothing to finish |
| `Stuck.StuckWithoutSweeps` | src/coordinator/main.c:220-280 | from every reachable state it stays so through every continuation without a sweep |
| `Stuck.LostAnswerLeavesStuck` | src/worker/main.c:368-375 | for every worker and task a run of seven events ends in such a state: the one answer is lost with its send |
| `Stranded.StrandedUntilExpired` | src/coordinator/scheduler.c:286-333 | a busy worker that was sent a task the full tracking table does not hold, whose result is therefore ignored, stays in that state through any event if and only if the event is not a sweep that declares it dead |
| `Stranded.NoRoomLeavesBusy` | src/coordinator/scheduler.c:259-284 | from every reachable state, a worker sent a batch the tracking table has no room for is busy after every continuation in which no sweep declares it dead |
| `Stranded.RoomRunsOut` | src/coordinator/scheduler.c:259-284 | on every system with a worker there is a run to such a state in which the worker is free, lost no answer, and nobody died |
| `Cycle.CanWorkOff` | src/coordinator/main.c:220-287 | for every number of tasks up to 100000 there is a run in which a worker registers and works them off one by one, ending free and idle |
| `Safety.CountersStayExact` | src/coordinator/scheduler.c:94-371 | on every run of the step system counters are exact and ids distinct |
| `EventLoop.RoundIsARun` | src/coordinator/main.c:248-280 | one pass of the dispatch loop is exactly a run of dispatch events of the step system |
| `EventLoop.IdleRowsListed` | src/coordinator/main.c:249-250 | in every state with sound tables the scheduler's list of idle workers satisfies what that needs |
| `EventLoop.DispatchPassIsARun` | src/coordinator/main.c:248-280 | from every reachable state one pass of the loop over the listed idle workers is a run of the step system and keeps the invariant |
| `EventLoop.PassServesAll` | src/coordinator/main.c:248-280 | from every reachable state, when all sends succeed, a pass leaves the queue empty or no worker idle |
| `MpiFraming.StepIff` | src/net/transport_mpi.c:75-180 | a half of a send or receive keeps headers and payloads paired on its link if and only if it is not a header without its payload, a failed payload send, or a failed allocation; no other link changes |
| `MpiFraming.ReceivedIsPrefixOfSent` | src/net/transport_mpi.c:75-180 | over every interleaving of many senders, whatever faults other links have, what a rank received over a link without faults is a prefix of what was sent over it, each header with its own payload |
| `MpiFraming.SentIsOutgoing` | src/net/transport_mpi.c:75-110 | over every interleaving the frames recorded as sent over a link are those of its send events, in order, each with the header and payload it was given |
| `MpiFraming.DrainedIsComplete` | src/net/transport_mpi.c:75-180 | when nothing is on its way, what was received over a link without faults is everything that was sent over it |
| `MpiFraming.EveryListDeliverable` | src/net/transport_mpi.c:75-180 | for every list of valid frames, of any lengths, there is a run that delivers exactly that list |
| `MpiFraming.DeliveryIsValid` | src/net/transport_mpi.c:151-168 | every header on its way passes validation and the payload about to be paired with a held header has the announced length |
| `MpiFraming.OrphanTakesTheNextPayload` | src/net/transport_mpi.c:91-180 | for any two messages, a header sent without its payload takes the payload of the next one: delivered with it when that is no longer than announced, otherwise both are lost to the failed receive |
| `ConjugateGradient.IterationKeepsInv` | fortran/kernels/optimisation/conjugate_newton.f90:300-331 | an iteration keeps r = b - Ax, pairwise orthogonal residuals, pairwise A-conjugate directions |
| `ConjugateGradient.CurvaturePositive` | fortran/kernels/optimisation/conjugate_newton.f90:300-331 | the divisor p^T A p is positive while the residual is not zero |
| `ConjugateGradient.IterationsBounded` | fortran/kernels/optimisation/conjugate_newton.f90:293-331 | no run completes more iterations than the dimension |
| `ConjugateGradient.Breakdown` | fortran/kernels/optimisation/conjugate_newton.f90:300-331 | a zero divisor is met only with a tolerance that is not positive, and then x solves the system |
| `ConjugateGradient.ConjugateGradientLinear` | fortran/kernels/optimisation/conjugate_newton.f90:278-338 | the invariant over the whole run, at most n iterations, and with more than n allowed it converges for a positive tolerance |
| `Orthogonal.AtMostDimension` | fortran/kernels/optimisation/conjugate_newton.f90:293-331 | at most n pairwise orthogonal non-zero vectors exist, the reason the iterations are bounded |
| `Bfgs.UpdateIsProductForm` | fortran/kernels/optimisation/quasi_newton.f90:163-189 | the coded rank-two update equals (I - rho s y^T) H (I - rho y s^T) + rho s s^T for symmetric H |
| `Bfgs.UpdateSymmetric` | fortran/kernels/optimisation/quasi_newton.f90:163-189 | the update keeps H symmetric |
| `Bfgs.QuadraticForm` | fortran/kernels/optimisation/quasi_newton.f90:163-189 | x^T H' x is w^T H w plus a gain that is positive unless w = x |
| `Bfgs.UpdatePosDef` | fortran/kernels/optimisation/quasi_newton.f90:163-189 | the update keeps H positive definite for rho > 0 |
| `Bfgs.SecantEquation` | fortran/kernels/optimisation/quasi_newton.f90:163-189 | H' y = s when rho is the inverse of s^T y |
| `Bfgs.RunSpd` | fortran/kernels/optimisation/quasi_newton.f90:94-142 | in every run of the recurrences from the identity the inverse Hessian stays symmetric positive definite |
| `Bfgs.EveryDirectionDescends` | fortran/kernels/optimisation/quasi_newton.f90:94-142 | hence in every run each direction has negative slope exactly when the gradient is not zero, always with a positive tolerance, and each update meets the secant equation or leaves H alone |
| `Bfgs.EveryStep` | fortran/kernels/optimisation/quasi_newton.f90:94-142 | in every run each iteration starts where the one before ended, moves by its length times minus H times the gradient there, and with a positive tolerance goes downhill if and only if its length is positive |
| `Bfgs.FirstStep` | fortran/kernels/optimisation/quasi_newton.f90:94-110 | the first step is along minus the gradient |
| `Bfgs.Minimize` | fortran/kernels/optimisation/quasi_newton.f90:72-142 | the loop, for any gradient and step rule, makes such a run and reports convergence exactly when the gradient is below the tolerance before the limit; each new point is the old one plus the step along minus H times the gradient, and with a positive tolerance and positive steps every step goes downhill to first order |
| `Sums.RootBelowIff` | fortran/kernels/optimisation/quasi_newton.f90:104-109 | the convergence test without the square root: for r >= 0, r r passes if and only if r is below the tolerance |
| `MatrixPower.PowerAdd` | fortran/kernels/linear_algebra/dense_matrix.f90:415-467 | A^j A^k = A^(j+k), from associativity of the product |
| `MatrixPower.PowerOfSquare` | fortran/kernels/linear_algebra/dense_matrix.f90:415-467 | (A A)^k = A^(2k) |
| `MatrixPower.MatrixPower` | fortran/kernels/linear_algebra/dense_matrix.f90:415-467 | repeated squaring gives the k-fold product for every square A and k >= 0, and an error exactly otherwise |
| `LinAlg.MatMulAssoc` | fortran/kernels/linear_algebra/dense_matrix.f90:415-467 | the matrix product is associative, by exchanging sums |
| `Tridiagonal.SolveTridiagonal` | fortran/kernels/linear_algebra/solve_linear.f90:164-212 | success means every row of the system holds and the solution is the only one; a size error exactly when a length is wrong; singular exactly when a pivot is below the tolerance; always success on dominant systems |
| `Tridiagonal.ForwardSweep` | fortran/kernels/linear_algebra/solve_linear.f90:184-204 | the sweep computes the eliminated coefficients and stops exactly at a small pivot |
| `Tridiagonal.DominantPivots` | fortran/kernels/linear_algebra/solve_linear.f90:188-204 | on a dominant system every pivot exceeds the next coefficient by the tolerance |
| `Tridiagonal.DominantNotSingular` | fortran/kernels/linear_algebra/solve_linear.f90:188-204 | a dominant system is never reported singular |
| `TriangularSolve.LuSolve` | fortran/kernels/linear_algebra/solve_linear.f90:322-365 | success gives L (U x) = b permuted by P |
| `TriangularSolve.CholeskySolve` | fortran/kernels/linear_algebra/solve_linear.f90:410-447 | success gives L (L^T x) = b |
| `TriangularSolve.LuSolutionSolves` | fortran/kernels/linear_algebra/solve_linear.f90:322-365 | the result solves the system of the matrix product of the factors |
| `TriangularSolve.CholeskySolutionSolves` | fortran/kernels/linear_algebra/solve_linear.f90:410-447 | the result solves the system of L L^T |
| `TriangularSolve.FactoredUnique` | fortran/kernels/linear_algebra/solve_linear.f90:322-365 | with non-zero diagonals the solution is the only one |
| `SparseTranspose.Transpose` | fortran/kernels/linear_algebra/sparse_matrix.f90:229-277 | the counting sort yields a well-formed matrix whose rows are the columns in storage order |
| `SparseTranspose.CountColumns` | fortran/kernels/linear_algebra/sparse_matrix.f90:247-252 | counts the entries of each column |
| `SparseTranspose.BuildPointers` | fortran/kernels/linear_algebra/sparse_matrix.f90:254-258 | the pointers are the partial sums of the counts |
| `SparseTranspose.FillAll` | fortran/kernels/linear_algebra/sparse_matrix.f90:260-272 | every entry is placed in its own slot |
| `SparseTranspose.TransposeDense` | fortran/kernels/linear_algebra/sparse_matrix.f90:229-277 | the dense meaning is the transpose |
| `SparseTranspose.TransposeSorted` | fortran/kernels/linear_algebra/sparse_matrix.f90:229-277 | the rows of a transpose are sorted |
| `SparseTranspose.TransposeStrict` | fortran/kernels/linear_algebra/sparse_matrix.f90:229-277 | they are strictly increasing if and only if no row stores a column twice |
| `SparseTranspose.TransposeTwice` | fortran/kernels/linear_algebra/sparse_matrix.f90:229-277 | transposing twice returns the identical arrays if and only if the rows are sorted and the storage is exact |
| `SparseOps.GetValue` | fortran/kernels/linear_algebra/sparse_matrix.f90:180-201 | the first stored value at the place, zero outside or when none |
| `SparseOps.ToDense` | fortran/kernels/linear_algebra/sparse_matrix.f90:280-297 | the last stored value at each place, zero elsewhere |
| `SparseOps.MatVecMult` | fortran/kernels/linear_algebra/sparse_matrix.f90:204-226 | the product equals the dense product, and the rest of y is zero |
| `SparseOps.RowDotDense` | fortran/kernels/linear_algebra/sparse_matrix.f90:204-226 | walking the stored cells computes the dense inner product, repeated cells included |
| `SparseBuild.CountNonZeros` | fortran/kernels/linear_algebra/sparse_matrix.f90:38-87 | the column-major count is exactly the length of the row-major fill |
| `SparseBuild.FromDense` | fortran/kernels/linear_algebra/sparse_matrix.f90:38-87 | the built matrix stores exactly the entries above the tolerance, row by row |
| `SparseBuild.StoresMeaning` | fortran/kernels/linear_algebra/sparse_matrix.f90:38-87 | it means the dense matrix with small entries zeroed, each stored once and in order |
| `SparseBuild.RoundTrip` | fortran/kernels/linear_algebra/sparse_matrix.f90:280-297 | building and expanding again zeroes the small entries and nothing else |
| `SparseArith.MatrixMult` | fortran/kernels/linear_algebra/sparse_matrix.f90:367-414 | the product stores the dense product above the tolerance; size error exactly on mismatch |
| `SparseArith.ProductMeaning` | fortran/kernels/linear_algebra/sparse_matrix.f90:367-414 | its dense meaning is A B with entries of magnitude at most the tolerance zeroed |
| `SparseArith.AddScaled` | fortran/kernels/linear_algebra/sparse_matrix.f90:332-363 | the sum has the pattern of A with combined values; size error exactly on mismatch |
| `SparseArith.AddScaledExactIff` | fortran/kernels/linear_algebra/sparse_matrix.f90:332-363 | an entry equals alpha A + beta B if and only if the value of B found there, taken once for each time A stores the place, adds up to the entry of B |
| `SparseArith.AddScaledExactOnce` | fortran/kernels/linear_algebra/sparse_matrix.f90:332-363 | without repeated places: if and only if A stores the place or B contributes nothing there |
| `SparseArith.AddScaledLosesEntry` | fortran/kernels/linear_algebra/sparse_matrix.f90:332-363 | wherever A stores nothing and B contributes, the sum is zero instead |
| `SparseArith.ZeroPlusOneIsZero` | fortran/kernels/linear_algebra/sparse_matrix.f90:332-363 | an empty 1 x 1 matrix plus one gives zero |
| `SparseArith.RepeatedPlaceCountsTwice` | fortran/kernels/linear_algebra/sparse_matrix.f90:332-363 | 1 stored as 1 and 0, plus 1, gives 3 |
| `VolumeSteps.UpwindIsLaxFriedrichs` | fortran/kernels/pde/finite_volume.f90:223-253 | the two fluxes are equal |
| `VolumeSteps.ComputeFluxes` | fortran/kernels/pde/finite_volume.f90:212-269 | the flux array holds the scheme's flux at each interface, the first and last being the same place |
| `VolumeSteps.Advection` | fortran/kernels/pde/finite_volume.f90:45-79 | the array version computes the conservative update, or copies above the CFL limit |
| `VolumeSteps.AdvectionConserves` | fortran/kernels/pde/finite_volume.f90:45-79 | for every scheme the cell sum is conserved |
| `VolumeSteps.AdvectionTame` | fortran/kernels/pde/finite_volume.f90:45-79 | an upwind or Lax-Friedrichs step conserves the sum, keeps bounds and adds no variation |
| `VolumeSteps.Diffusion` | fortran/kernels/pde/finite_volume.f90:124-152 | the array version computes the periodic three-point update, or copies above the stability limit |
| `VolumeSteps.DiffusionTame` | fortran/kernels/pde/finite_volume.f90:124-152 | a diffusion step conserves the sum, keeps bounds and adds no variation |
| `VolumeSteps.AdvectionDiffusion` | fortran/kernels/pde/finite_volume.f90:191-209 | the array version is advection followed by diffusion |
| `VolumeSteps.StepsTame` | fortran/kernels/pde/finite_volume.f90:191-209 | any number of steps conserves the sum, stays within the initial bounds and never adds periodic variation |
| `VolumeSteps.SameSteps` | fortran/kernels/pde/finite_volume.f90:191-253 | both schemes take the same steps |
| `VolumeSteps.DefaultIsUpwindIff` | fortran/kernels/pde/finite_volume.f90:265-267 | the step of an unknown scheme equals the upwind step if and only if the step is above the CFL limit, the velocity or the time step is zero, or all cells are equal |
| `VolumeSteps.DefaultDiffersFromUpwind` | fortran/kernels/pde/finite_volume.f90:265-267 | two cells for which they differ |
| `VolumeLaws.DiffusionLaw` | fortran/kernels/pde/finite_volume.f90:124-152 | a diffusion step satisfies the discrete heat equation: the change of a cell times dx squared is the diffusivity times dt times its second difference, as long as twice the diffusivity times dt is at most dx squared, and nothing changes beyond that |
| `VolumeLaws.CflIff` | fortran/kernels/pde/finite_volume.f90:52-62 | the number compared with the limit is at most one if and only if the flow crosses at most one cell per step |
| `VolumeLaws.AdvectionLaw` | fortran/kernels/pde/finite_volume.f90:45-79 | within that limit the change of a cell times dx is dt times what flows in less what flows out, for every scheme, and nothing changes beyond it |
| `VolumeLaws.FluxesAround` | fortran/kernels/pde/finite_volume.f90:212-269 | the flux on either side of a cell is the scheme's flux between that cell and its periodic neighbour |
| `VolumeLaws.UpwindShifts` | fortran/kernels/pde/finite_volume.f90:45-79 | at the limit, where the wind crosses exactly one cell per step, an upwind step moves the profile by one cell |
| `VolumeLaws.LaxWendroffIsUpwindPlus` | fortran/kernels/pde/finite_volume.f90:254-264 | twice the Lax-Wendroff flux less twice the upwind flux is (abs v - v v) times the difference of the two cells, so the two agree at unit speed |
| `FiniteVolume.MixConserves` | fortran/kernels/pde/finite_volume.f90:73-76 | a periodic three-point average with weights summing to one conserves the sum |
| `FiniteVolume.MixBounded` | fortran/kernels/pde/finite_volume.f90:144-151 | with non-negative weights it keeps bounds |
| `FiniteVolume.MixVariation` | fortran/kernels/pde/finite_volume.f90:144-151 | and adds no periodic total variation |
| `FiniteDifference.FirstDerivative` | fortran/kernels/pde/finite_difference.f90:86-103 | the centred difference with periodic neighbours at every point; `DifferenceLaws.DerivativeOfPoly` says what that is on a quadratic |
| `FiniteDifference.SecondDerivative` | fortran/kernels/pde/finite_difference.f90:132-149 | the second difference with periodic neighbours at every point; `DifferenceLaws.DerivativeOfPoly` says what that is on a quadratic |
| `DifferenceLaws.StencilsExact` | fortran/kernels/pde/finite_difference.f90:86-149 | on the samples of a quadratic the centred difference is its derivative and the second difference its second derivative, at every point and spacing |
| `DifferenceLaws.DerivativeOfPoly` | fortran/kernels/pde/finite_difference.f90:86-149 | the routines give the derivatives of a sampled quadratic exactly at every point whose neighbours do not wrap |
| `DifferenceLaws.DerivativeOfConstant` | fortran/kernels/pde/finite_difference.f90:86-149 | the routines give zero at every point, wrapped ones included, for constant samples |
| `FiniteDifference.DerivativeX` | fortran/kernels/pde/finite_difference.f90:258-283 | the slice-wise derivative in x; exact on quadratic fields by `DifferenceLaws.GradientOfField` |
| `FiniteDifference.DerivativeY` | fortran/kernels/pde/finite_difference.f90:284-293 | the slice-wise derivative in y; exact on quadratic fields by `DifferenceLaws.GradientOfField` |
| `FiniteDifference.Gradient` | fortran/kernels/pde/finite_difference.f90:425-432 | both first derivatives; exact on quadratic fields by `DifferenceLaws.GradientOfField` |
| `FiniteDifference.Divergence` | fortran/kernels/pde/finite_difference.f90:435-453 | the sum of the directional derivatives; exact on quadratic fields by `DifferenceLaws.DivergenceOfFields` |
| `FiniteDifference.Curl` | fortran/kernels/pde/finite_difference.f90:456-474 | the difference of the cross derivatives; exact on quadratic fields by `DifferenceLaws.DivergenceOfFields` |
| `FiniteDifference.CurlOfGradientIsZero` | fortran/kernels/pde/finite_difference.f90:425-474 | the discrete curl of the discrete gradient is exactly zero at every cell |
| `FiniteDifference.CurlOfGradient` | fortran/kernels/pde/finite_difference.f90:425-474 | the same for the arrays the two routines produce, for sides of at least two |
| `FiniteDifference.Laplacian` | fortran/kernels/pde/finite_difference.f90:330-385 | the nine-case Laplacian equals the sum of the two directional second derivatives at every cell |
| `DifferenceLaws.GradientOfField` | fortran/kernels/pde/finite_difference.f90:425-432 | the routine gives the gradient of a sampled two-variable quadratic exactly at every inner cell |
| `DifferenceLaws.DivergenceOfFields` | fortran/kernels/pde/finite_difference.f90:435-474 | the routines give the divergence and the curl of a pair of such fields exactly at every inner cell |
| `DifferenceLaws.LaplacianOfField` | fortran/kernels/pde/finite_difference.f90:330-385 | the routine gives the Laplacian of such a field exactly at every inner cell |
| `DifferenceLaws.FlatEverywhere` | fortran/kernels/pde/finite_difference.f90:258-474 | on a constant field both directional differences are zero at every cell, the wrapped ones included |
| `Bracketing.SolveSecant` | fortran/kernels/root_find/secant.f90:180-308 | stops at an end with a small stored value, else the loop refines the bracket sequence; success means a small value or a narrow sign-changing bracket within the given ends |
| `Bracketing.AfterKept` | fortran/kernels/root_find/secant.f90:245-302 | for either order of the ends every bracket holds a sign change and lies inside all earlier ones |
| `Bracketing.AfterSound` | fortran/kernels/root_find/secant.f90:245-302 | with a < b the stored, halved values keep the true signs, the trial point is strictly inside, and the bracket shrinks |
| `Bracketing.SecantInside` | fortran/kernels/root_find/secant.f90:259-268 | between opposite values the secant point is strictly inside |
| `Bracketing.SecantIsChordZero` | fortran/kernels/root_find/secant.f90:259-268 | the secant point is the one point where the chord through the stored values is zero |
| `Bracketing.IllinoisWeights` | fortran/kernels/root_find/secant.f90:278-302 | while the loop runs, the value stored for an end is the value there, halved once for every turn in a row after the first that the end stayed; for the upper end when a < b |
| `Bracketing.NarrowIff` | fortran/kernels/root_find/secant.f90:248-255 | the width test, written out |
| `Bracketing.AffineInOneTurn` | fortran/kernels/root_find/secant.f90:180-308 | on an affine function, with the ends in order, the method succeeds in at most one turn |
| `Bracketing.StoredSignIff` | fortran/kernels/root_find/secant.f90:220-243 | past the first checks the value stored for the upper end has the true sign if and only if a < b |
| `Bracketing.SwappedEndsStoreTheWrongSign` | fortran/kernels/root_find/secant.f90:224-229 | for every a > b a function for which the wrong sign is stored |
| `Bracketing.SolveNewton` | fortran/kernels/root_find/newton_rhapson.f90:163-263 | the loop refines the bracket sequence; success means convergence, and unless the lower end is a root a small value or a narrow sign-changing bracket around the result; `Bracketing.TrialIsTangentZero` and `Bracketing.FlatTrialIsMiddle` say which points it tries |
| `Bracketing.MovedIff` | fortran/kernels/root_find/newton_rhapson.f90:249-254 | a move keeps the sign change if and only if the lower end is no root or the trial value does not agree with the upper end |
| `Bracketing.TrialIsTangentZero` | fortran/kernels/root_find/newton_rhapson.f90:231-243 | with a steep slope the trial point is the zero of the tangent when that lies in the bracket, and the middle of the bracket when not |
| `Bracketing.HasTangentZero` | fortran/kernels/root_find/newton_rhapson.f90:231-243 | with a steep slope there is such a zero |
| `Bracketing.FlatTrialIsMiddle` | fortran/kernels/root_find/newton_rhapson.f90:231-243 | with a slope of at most `tiny` it is the middle of the bracket |
| `Bracketing.MiddleIsHalfway` | fortran/kernels/root_find/newton_rhapson.f90:244-247 | the middle is as far from one end as from the other |
| `Bracketing.ConvergedIff` | fortran/kernels/root_find/newton_rhapson.f90:217-228 | the two convergence tests, written out |
| `Bracketing.AffineInTwoTurns` | fortran/kernels/root_find/newton_rhapson.f90:163-263 | on an affine function with a steep slope the method succeeds within two turns |
| `Bracketing.NewtonAfterKept` | fortran/kernels/root_find/newton_rhapson.f90:216-257 | started with a lower end that is no root, every bracket holds a sign change and lies inside all earlier ones |
| `Bracketing.RootAtLowerEndIsLost` | fortran/kernels/root_find/newton_rhapson.f90:184-257 | for every a < b a function whose root at a is lost at once and never found again |

## Left out

- Logging, crash reports, signals, command lines, file loading, the metadata store and the storage back ends: foreign calls and file plumbing.
- The ZeroMQ transport: its sockets are foreign calls; the step system uses reliable FIFO channels whose sends may fail.
- Batches.EnqueueCount: a failed node allocation while a batch is put into a queue; QueueSpec.Enqueue and the linked list have that case.
- Coordinator.RequeueBatch: a failed node allocation, which loses the task it was for.
- WorkerLoop.StandaloneWorker.Receive: a failed node allocation while unpacking, which loses the task it was for.
- WorkerLoop.StandaloneWorker.Begin: a failed node allocation when the task is put back for lack of a slot.
- Coordinator.Dispatch: a batch of more than 100 tasks, for which the code writes past its local array (CoordSpec.InSlotsIff says when, CoordSpec.BatchOverrunsSlots that it happens).
- Coordinator.DispatchRound: the same.
- The producers' condition variable of the queue: no operation ever waits on it.
- The cluster-head worker mode, and re-dispatch of a dead worker's tasks, which the code does not do.
- Bytes of the message payloads between coordinator and worker: messages carry the values they encode.
- Progress: the step system states what no run violates, not that events eventually happen.
- Broadcast, statistics and poll of the MPI transport, and receives that fail for another reason than a payload longer than announced.
- The rounding of floating point, non-finite inputs, and 32- and 64-bit wrap-around of counters.
- L-BFGS, Adam, line-search tuning, constrained optimisation, ODE drivers, spectral kernels and random numbers.
- LAPACK-backed factorisations, eigenvalues and singular values; chaining them into the triangular solvers.
- Two- and three-dimensional finite-volume steps, reconstruction and limiters, fourth-order and non-periodic differences.
- The unbracketed Newton and secant solvers, sums and Kronecker products of dense matrices: only easy claims.
