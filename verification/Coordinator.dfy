/** What one turn of the coordinator does to its queue and tables, as functions. */
module CoordSpec {
  import opened QueueSpec
  import opened Batches
  import S = SchedSpec

  const COORDINATOR_CAPACITY := 10000
  const BATCH_SLOTS := 100
  const DEFAULT_BATCH := 10
  const IDLE_SLOTS := 256

  /** The row built from a registration; absent or zero capabilities get defaults. */
  function NewWorker(id: nat, ranks: nat, maxBatch: nat, capabilities: nat, now: int): S.WorkerInfo {
    S.WorkerInfo(id, S.Idle, now, 0, if ranks == 0 then 1 else ranks, if maxBatch == 0 then DEFAULT_BATCH else maxBatch,
                 capabilities, 0, 0, 0)
  }

  /** The row a registration leaves while the table has room: a missing number of ranks is one, of tasks ten; the time of
      registration is kept when the worker is new. */
  lemma RegisteredRow(s: S.Sched, id: nat, ranks: nat, maxBatch: nat, capabilities: nat, now: int)
    requires |s.workers| < s.maxWorkers
    ensures var s' := S.Register(s, NewWorker(id, ranks, maxBatch, capabilities, now), now);
      S.Knows(s', id) && S.RowOf(s', id)
        == S.WorkerInfo(id, S.Idle, now, if S.Knows(s, id) then 0 else now, if ranks == 0 then 1 else ranks,
                        if maxBatch == 0 then 10 else maxBatch, capabilities, 0, 0, 0)
  {
    var s' := S.Register(s, NewWorker(id, ranks, maxBatch, capabilities, now), now);
    assert s'.workers[if S.Knows(s, id) then S.IndexOf(s.workers, id) else |s.workers|].id == id;
    assert forall k | 0 <= k < |s.workers| :: s'.workers[k].id == s.workers[k].id;
  }

  function BatchLimit(w: S.WorkerInfo): nat {
    if w.maxBatchSize > 0 then w.maxBatchSize else DEFAULT_BATCH
  }

  function Smaller(a: nat, b: nat): nat {
    if a <= b then a else b
  }

  /** Whether BATCH_SLOTS slots hold any batch taken for the worker from n queued tasks. */
  predicate InSlots(n: nat, w: S.WorkerInfo) {
    n <= BATCH_SLOTS || BatchLimit(w) <= BATCH_SLOTS
  }

  /** That is exactly when the batch fits the coordinator's local array. */
  lemma InSlotsIff(q: Queue, w: S.WorkerInfo)
    ensures InSlots(Size(q), w) <==> |Batch(q, BatchLimit(w))| <= BATCH_SLOTS
  {
    BatchSize(q, BatchLimit(w));
  }

  /** A normal task without options. */
  function Plain(id: nat): Task {
    Task(id, Flags(false, false, false))
  }

  /** n of them, with the ids below n. */
  function Numbered(n: nat): (b: seq<Task>)
    ensures |b| == n && forall k {:trigger b[k]} | 0 <= k < n :: b[k].id == k
  {
    seq(n, (k: nat) => Plain(k))
  }

  lemma {:induction false} NumberedOnce(n: nat, k: nat, id: nat)
    requires k <= n
    ensures CountTo(Numbered(n), k, id) == if id < k then 1 else 0
  {
    if k > 0 { NumberedOnce(n, k - 1, id); }
  }

  /** With more than 100 tasks submitted to a new queue, a worker that asked for more than 100 is given more than fit. */
  lemma BatchOverrunsSlots(n: nat, id: nat, ranks: nat, maxBatch: nat, capabilities: nat, now: int)
    requires BATCH_SLOTS < n <= COORDINATOR_CAPACITY && BATCH_SLOTS < maxBatch
    ensures var q, w := EnqueueAll(Empty(COORDINATOR_CAPACITY, false), Numbered(n)),
                        NewWorker(id, ranks, maxBatch, capabilities, now);
      && Size(q) == n && |Batch(q, BatchLimit(w))| == (if n <= maxBatch then n else maxBatch) > BATCH_SLOTS
      && !InSlots(Size(q), w)
  {
    var q0, b := Empty(COORDINATOR_CAPACITY, false), Numbered(n);
    forall k: nat ensures InQueue(q0, k) + CountTo(b, n, k) <= 1 { NumberedOnce(n, n, k); }
    EnqueueFits(q0, b, n);
    EnqueueSize(q0, b, n);
    BatchSize(EnqueueAll(q0, b), maxBatch);
  }

  /** The queue after offering the worker a batch: taken if the send worked, put back at the end if not. */
  function DispatchedQueue(q: Queue, max: nat, sent: bool): Queue {
    if sent then AfterBatch(q, max) else EnqueueAll(AfterBatch(q, max), Batch(q, max))
  }

  /** The tables after a batch was sent to the worker. */
  function DispatchedSched(s: S.Sched, b: seq<Task>, worker: nat, sent: bool, now: int): S.Sched {
    if sent && b != [] then TrackFirst(S.MarkBusy(s, worker, |b|), b, |b|, worker, now) else s
  }

  /** The coordinator's queue and tables. */
  datatype Desk = Desk(q: Queue, s: S.Sched)

  /** One worker's turn in the dispatch loop. */
  function Offered(d: Desk, w: S.WorkerInfo, sent: bool, now: int): Desk {
    Desk(DispatchedQueue(d.q, BatchLimit(w), sent), DispatchedSched(d.s, Batch(d.q, BatchLimit(w)), w.id, sent, now))
  }

  /** With an empty queue nothing happens. */
  function Turn(d: Desk, w: S.WorkerInfo, sent: bool, now: int): Desk {
    if Size(d.q) == 0 then d else Offered(d, w, sent, now)
  }

  /** The turns of the first n listed workers. */
  function Round(d: Desk, ws: seq<S.WorkerInfo>, n: nat, sendOk: nat -> bool, now: int): Desk
    requires n <= |ws|
  {
    if n == 0 then d else Turn(Round(d, ws, n - 1, sendOk, now), ws[n - 1], sendOk(ws[n - 1].id), now)
  }

  /** A turn with a successful send takes the oldest tasks, as many as the row allows; ten when it names no number. */
  lemma TurnTakes(d: Desk, w: S.WorkerInfo, now: int)
    ensures var b := Batch(d.q, if w.maxBatchSize > 0 then w.maxBatchSize else 10);
      && |b| == Smaller(Size(d.q), if w.maxBatchSize > 0 then w.maxBatchSize else 10)
      && Contents(d.q) == b + Contents(Turn(d, w, true, now).q)
  {
    BatchSize(d.q, if w.maxBatchSize > 0 then w.maxBatchSize else 10);
    BatchIsPrefix(d.q, if w.maxBatchSize > 0 then w.maxBatchSize else 10);
  }

  lemma TurnSize(d: Desk, w: S.WorkerInfo, sent: bool, now: int)
    ensures Size(Turn(d, w, sent, now).q) <= Size(d.q)
  {
    var max := BatchLimit(w);
    BatchSize(d.q, max);
    EnqueueSize(AfterBatch(d.q, max), Batch(d.q, max), |Batch(d.q, max)|);
  }

  /** No turn makes the queue longer. */
  lemma {:induction false} RoundSize(d: Desk, ws: seq<S.WorkerInfo>, n: nat, sendOk: nat -> bool, now: int)
    requires n <= |ws|
    ensures Size(Round(d, ws, n, sendOk, now).q) <= Size(d.q)
  {
    if n > 0 {
      RoundSize(d, ws, n - 1, sendOk, now);
      TurnSize(Round(d, ws, n - 1, sendOk, now), ws[n - 1], sendOk(ws[n - 1].id), now);
    }
  }
}

/** The coordinator's event handlers and dispatch, on the linked queue and the scheduler's arrays. */
module Coordinator {
  import opened QueueSpec
  import opened Batches
  import opened CoordSpec
  import S = SchedSpec
  import TaskQueue
  import Scheduler

  lemma {:induction false} BatchStops(q: Queue, i: nat, max: nat)
    requires i <= max && Next(AfterBatch(q, i)).None?
    ensures AfterBatch(q, max) == AfterBatch(q, i) && Batch(q, max) == Batch(q, i)
  {
    if i < max { BatchStops(q, i, max - 1); }
  }

  /** The first n slots hold exactly b. */
  ghost predicate Holds(slots: seq<Task>, n: nat, b: seq<Task>) {
    n == |b| <= |slots| && forall k | 0 <= k < n :: slots[k] == b[k]
  }

  /** Room for one more task behind the i-th offer. */
  lemma RoomFor(q: Queue, i: nat, slots: nat)
    requires (Size(q) <= slots || i < slots) && Next(AfterBatch(q, i)).Some?
    ensures |Batch(q, i)| < slots
  {
    BatchSize(q, i);
  }

  /** Writes one more task behind the n tasks stored. */
  method StoreTask(batch: array<Task>, n: nat, t: Task, ghost b: seq<Task>)
    requires n < batch.Length && Holds(batch[..], n, b)
    modifies batch
    ensures Holds(batch[..], n + 1, b + [t])
  {
    batch[n] := t;
  }

  lemma HoldsSlice(slots: seq<Task>, n: nat, b: seq<Task>)
    requires Holds(slots, n, b)
    ensures slots[..n] == b
  {}

  /** One dequeue into the slot behind the tasks b; `taken` says whether it gave a task. */
  method TakeTask(queue: TaskQueue.TaskQueue, batch: array<Task>, count: nat, ghost b: seq<Task>) returns (taken: bool)
    requires queue.Valid() && Holds(batch[..], count, b) && (Next(queue.model).Some? ==> count < batch.Length)
    modifies queue, batch
    ensures queue.Valid() && queue.repr == old(queue.repr) && queue.model == Dequeue(old(queue.model))
    ensures taken == Next(old(queue.model)).Some?
    ensures if taken then Holds(batch[..], count + 1, b + [Next(old(queue.model)).value]) else Holds(batch[..], count, b)
  {
    var next := queue.Dequeue();
    taken := next.Some?;
    if taken {
      StoreTask(batch, count, next.value, b);
    }
  }

  /** The first i dequeues from q have been made, and what they gave is in the batch. */
  ghost predicate Gathered(queue: TaskQueue.TaskQueue, batch: array<Task>, count: nat, q: Queue, i: nat)
    reads queue, queue.nodes, batch
  {
    queue.Valid() && queue.model == AfterBatch(q, i) && Holds(batch[..], count, Batch(q, i))
  }

  /** The dequeue number i; one that gives nothing ends the batch. */
  method Gather(queue: TaskQueue.TaskQueue, batch: array<Task>, count: nat, ghost q: Queue, ghost i: nat, ghost max: nat)
    returns (taken: bool)
    requires Gathered(queue, batch, count, q, i) && i < max && (Size(q) <= batch.Length || max <= batch.Length)
    modifies queue, batch
    ensures queue.repr == old(queue.repr)
    ensures if taken then Gathered(queue, batch, count + 1, q, i + 1) else Gathered(queue, batch, count, q, max)
  {
    if Next(queue.model).Some? { RoomFor(q, i, batch.Length); } else { BatchStops(q, i, max); }
    taken := TakeTask(queue, batch, count, Batch(q, i));
  }

  method CreateTaskBatch(queue: TaskQueue.TaskQueue, batch: array<Task>, max: nat) returns (count: nat)
    requires queue.Valid() && (Size(queue.model) <= batch.Length || max <= batch.Length)
    modifies queue, batch
    ensures Gathered(queue, batch, count, old(queue.model), max) && queue.repr == old(queue.repr)
  {
    count := 0;
    ghost var q := queue.model;
    for i := 0 to max
      invariant Gathered(queue, batch, count, q, i) && queue.repr == old(queue.repr)
    {
      var taken := Gather(queue, batch, count, q, i, max);
      if !taken {
        break;
      }
      count := count + 1;
    }
  }

  method RequeueBatch(queue: TaskQueue.TaskQueue, batch: array<Task>, count: nat)
    requires queue.Valid() && count <= batch.Length
    modifies queue, queue.repr
    ensures queue.Valid() && queue.model == EnqueueAll(old(queue.model), batch[..count])
    ensures fresh(queue.repr - old(queue.repr))
  {
    ghost var q, b := queue.model, batch[..count];
    for j := 0 to count
      invariant queue.Valid() && queue.model == EnqueueFirst(q, b, j)
      invariant fresh(queue.repr - old(queue.repr))
    {
      assert batch[j] == b[j];
      var _ := queue.Enqueue(batch[j], true);
    }
  }

  method TrackBatch(sched: Scheduler.Scheduler, batch: array<Task>, count: nat, worker: nat, now: int)
    requires sched.Valid() && count <= batch.Length
    modifies sched, sched.tasks
    ensures sched.Valid() && sched.model == TrackFirst(old(sched.model), batch[..count], count, worker, now)
  {
    ghost var s, b := sched.model, batch[..count];
    for j := 0 to count
      invariant sched.Valid() && sched.model == TrackFirst(s, b, j, worker, now)
    {
      assert batch[j] == b[j];
      var _ := sched.Track(batch[j].id, worker, now);
    }
  }

  method MarkSent(sched: Scheduler.Scheduler, batch: array<Task>, count: nat, worker: nat, now: int)
    requires sched.Valid() && 0 < count <= batch.Length
    modifies sched, sched.workers, sched.tasks
    ensures sched.Valid() && sched.model == DispatchedSched(old(sched.model), batch[..count], worker, true, now)
  {
    sched.MarkBusy(worker, count);
    TrackBatch(sched, batch, count, worker, now);
  }

  /** Sends a batch that holds any task, and marks the worker and tracks the tasks; or puts them back when the send fails. */
  method SendBatch(queue: TaskQueue.TaskQueue, sched: Scheduler.Scheduler, batch: array<Task>, count: nat, worker: nat,
                   sendOk: bool, now: int)
    requires queue.Valid() && sched.Valid() && count <= batch.Length
    modifies queue, queue.repr, sched, sched.workers, sched.tasks
    ensures queue.Valid() && sched.Valid()
    ensures queue.model == if sendOk then old(queue.model) else EnqueueAll(old(queue.model), batch[..count])
    ensures sched.model == DispatchedSched(old(sched.model), batch[..count], worker, sendOk, now)
    ensures fresh(queue.repr - old(queue.repr))
  {
    if count > 0 {
      if sendOk {
        MarkSent(sched, batch, count, worker, now);
      } else {
        RequeueBatch(queue, batch, count);
      }
    }
  }

  /** A batch from the queue in a local array. */
  method TakeBatch(queue: TaskQueue.TaskQueue, max: nat) returns (batch: array<Task>, count: nat)
    requires queue.Valid() && (Size(queue.model) <= BATCH_SLOTS || max <= BATCH_SLOTS)
    modifies queue
    ensures queue.Valid() && queue.repr == old(queue.repr) && queue.model == AfterBatch(old(queue.model), max)
    ensures fresh(batch) && count <= batch.Length && batch[..count] == Batch(old(queue.model), max)
  {
    batch := new Task[BATCH_SLOTS](_ => Plain(0));
    ghost var q := queue.model;
    count := CreateTaskBatch(queue, batch, max);
    HoldsSlice(batch[..], count, Batch(q, max));
  }

  /** Takes a batch from the queue and hands it to the worker; `sent` is what left. */
  method HandOut(queue: TaskQueue.TaskQueue, sched: Scheduler.Scheduler, worker: nat, max: nat, sendOk: bool, now: int)
    returns (sent: seq<Task>)
    requires queue.Valid() && sched.Valid() && (Size(queue.model) <= BATCH_SLOTS || max <= BATCH_SLOTS)
    modifies queue, queue.repr, sched, sched.workers, sched.tasks
    ensures queue.Valid() && sched.Valid() && fresh(queue.repr - old(queue.repr))
    ensures sent == if sendOk then Batch(old(queue.model), max) else []
    ensures queue.model == DispatchedQueue(old(queue.model), max, sendOk)
    ensures sched.model == DispatchedSched(old(sched.model), Batch(old(queue.model), max), worker, sendOk, now)
  {
    var batch, count := TakeBatch(queue, max);
    sent := if sendOk then batch[..count] else [];
    SendBatch(queue, sched, batch, count, worker, sendOk, now);
  }

  /** One turn of the dispatch loop; `sendOk` is the outcome of the send, `sent` the batch that left. */
  method Dispatch(queue: TaskQueue.TaskQueue, sched: Scheduler.Scheduler, w: S.WorkerInfo, sendOk: bool, now: int)
    returns (sent: seq<Task>)
    requires queue.Valid() && sched.Valid() && InSlots(Size(queue.model), w)
    modifies queue, queue.repr, sched, sched.workers, sched.tasks
    ensures queue.Valid() && sched.Valid()
    ensures |sent| == if sendOk then Smaller(Size(old(queue.model)), if w.maxBatchSize > 0 then w.maxBatchSize else 10) else 0
    ensures sendOk ==> Contents(old(queue.model)) == sent + Contents(queue.model)
    ensures sent == if sendOk then Batch(old(queue.model), BatchLimit(w)) else []
    ensures Desk(queue.model, sched.model) == Offered(Desk(old(queue.model), old(sched.model)), w, sendOk, now)
    ensures fresh(queue.repr - old(queue.repr))
  {
    BatchSize(queue.model, BatchLimit(w));
    BatchIsPrefix(queue.model, BatchLimit(w));
    sent := HandOut(queue, sched, w.id, BatchLimit(w), sendOk, now);
  }

  method HandleRegister(sched: Scheduler.Scheduler, worker: nat, ranks: nat, maxBatch: nat, capabilities: nat, now: int)
    requires sched.Valid()
    modifies sched, sched.workers
    ensures sched.Valid()
    ensures sched.model == S.Register(old(sched.model), NewWorker(worker, ranks, maxBatch, capabilities, now), now)
  {
    var info := S.WorkerInfo(worker, S.Idle, now, 0, ranks, maxBatch, capabilities, 0, 0, 0);
    if info.numLocalRanks == 0 {
      info := info.(numLocalRanks := 1);
    }
    if info.maxBatchSize == 0 {
      info := info.(maxBatchSize := DEFAULT_BATCH);
    }
    var _ := sched.Register(info, now);
  }

  lemma {:induction false} RoundStops(d: Desk, ws: seq<S.WorkerInfo>, i: nat, n: nat, sendOk: nat -> bool, now: int)
    requires i <= n <= |ws| && Size(Round(d, ws, i, sendOk, now).q) == 0
    ensures Round(d, ws, n, sendOk, now) == Round(d, ws, i, sendOk, now)
    decreases n
  {
    if i < n { RoundStops(d, ws, i, n - 1, sendOk, now); }
  }

  lemma RoundGoesOn(d: Desk, ws: seq<S.WorkerInfo>, i: nat, sendOk: nat -> bool, now: int)
    requires i < |ws| && Size(Round(d, ws, i, sendOk, now).q) > 0 && InSlots(Size(d.q), ws[i])
    ensures InSlots(Size(Round(d, ws, i, sendOk, now).q), ws[i])
    ensures Round(d, ws, i + 1, sendOk, now) == Offered(Round(d, ws, i, sendOk, now), ws[i], sendOk(ws[i].id), now)
  {
    RoundSize(d, ws, i, sendOk, now);
  }

  /** The first i listed workers have had their turn. */
  ghost predicate AtTurn(queue: TaskQueue.TaskQueue, sched: Scheduler.Scheduler, listed: seq<S.WorkerInfo>, i: nat,
                         sendOk: nat -> bool, now: int, d: Desk)
    requires i <= |listed|
    reads queue, queue.nodes, sched, sched.workers, sched.tasks
  {
    queue.Valid() && sched.Valid() && Desk(queue.model, sched.model) == Round(d, listed, i, sendOk, now)
  }

  /** The turn of the i-th listed worker, if there is one, while tasks are queued. */
  method ServeWorker(queue: TaskQueue.TaskQueue, sched: Scheduler.Scheduler, listed: seq<S.WorkerInfo>, i: nat,
                     sendOk: nat -> bool, now: int, ghost d: Desk) returns (next: nat)
    requires i <= |listed| && AtTurn(queue, sched, listed, i, sendOk, now, d)
    requires i < |listed| ==> Size(queue.model) > 0 && InSlots(Size(d.q), listed[i])
    modifies queue, queue.repr, sched, sched.workers, sched.tasks
    ensures i <= next <= |listed| && (i < |listed| ==> i < next) && AtTurn(queue, sched, listed, next, sendOk, now, d)
    ensures fresh(queue.repr - old(queue.repr))
  {
    if i == |listed| {
      return i;
    }
    RoundGoesOn(d, listed, i, sendOk, now);
    var _ := Dispatch(queue, sched, listed[i], sendOk(listed[i].id), now);
    return i + 1;
  }

  /** Once the queue is empty no later turn changes anything. */
  lemma NothingLeft(queue: TaskQueue.TaskQueue, sched: Scheduler.Scheduler, listed: seq<S.WorkerInfo>, i: nat,
                    sendOk: nat -> bool, now: int, d: Desk)
    requires i <= |listed| && AtTurn(queue, sched, listed, i, sendOk, now, d) && Size(queue.model) == 0
    ensures AtTurn(queue, sched, listed, |listed|, sendOk, now, d)
  {
    RoundStops(d, listed, i, |listed|, sendOk, now);
  }

  /** The worker whose turn it is: the i-th while tasks are queued, none once the queue is empty. */
  method NextTurn(queue: TaskQueue.TaskQueue, sched: Scheduler.Scheduler, listed: seq<S.WorkerInfo>, i: nat,
                  sendOk: nat -> bool, now: int, ghost d: Desk) returns (next: nat)
    requires i < |listed| && AtTurn(queue, sched, listed, i, sendOk, now, d)
    ensures next == if Size(queue.model) > 0 then i else |listed|
    ensures AtTurn(queue, sched, listed, next, sendOk, now, d)
  {
    var empty := queue.IsEmpty();
    if empty {
      NothingLeft(queue, sched, listed, i, sendOk, now, d);
    }
    next := if empty then |listed| else i;
  }

  /** One turn of the loop over the listed workers; an empty queue ends it. */
  method TakeTurn(queue: TaskQueue.TaskQueue, sched: Scheduler.Scheduler, listed: seq<S.WorkerInfo>, i: nat,
                  sendOk: nat -> bool, now: int, ghost d: Desk) returns (next: nat)
    requires i < |listed| && InSlots(Size(d.q), listed[i]) && AtTurn(queue, sched, listed, i, sendOk, now, d)
    modifies queue, queue.repr, sched, sched.workers, sched.tasks
    ensures i < next <= |listed| && AtTurn(queue, sched, listed, next, sendOk, now, d)
    ensures fresh(queue.repr - old(queue.repr))
  {
    next := NextTurn(queue, sched, listed, i, sendOk, now, d);
    next := ServeWorker(queue, sched, listed, next, sendOk, now, d);
  }

  /** Gives each listed worker its turn until the queue is empty. */
  method DispatchListed(queue: TaskQueue.TaskQueue, sched: Scheduler.Scheduler, listed: seq<S.WorkerInfo>,
                        sendOk: nat -> bool, now: int)
    requires queue.Valid() && sched.Valid() && forall k | 0 <= k < |listed| :: InSlots(Size(queue.model), listed[k])
    modifies queue, queue.repr, sched, sched.workers, sched.tasks
    ensures queue.Valid() && sched.Valid()
    ensures Desk(queue.model, sched.model)
         == Round(Desk(old(queue.model), old(sched.model)), listed, |listed|, sendOk, now)
  {
    ghost var d := Desk(queue.model, sched.model);
    var i := 0;
    while i < |listed|
      invariant i <= |listed| && AtTurn(queue, sched, listed, i, sendOk, now, d)
      invariant fresh(queue.repr - old(queue.repr))
    {
      i := TakeTurn(queue, sched, listed, i, sendOk, now, d);
    }
  }

  /** The scheduling half of the event loop; sendOk tells which sends succeed. */
  method DispatchRound(queue: TaskQueue.TaskQueue, sched: Scheduler.Scheduler, sendOk: nat -> bool, now: int)
    requires queue.Valid() && sched.Valid()
    requires forall k | 0 <= k < |sched.model.workers| :: InSlots(Size(queue.model), sched.model.workers[k])
    modifies queue, queue.repr, sched, sched.workers, sched.tasks
    ensures queue.Valid() && sched.Valid()
    ensures var ws := Scheduler.IdleRows(old(sched.model).workers, |old(sched.model).workers|, IDLE_SLOTS);
      Desk(queue.model, sched.model) == Round(Desk(old(queue.model), old(sched.model)), ws, |ws|, sendOk, now)
  {
    var workers := new S.WorkerInfo[IDLE_SLOTS](_ => Scheduler.NO_WORKER);
    var count := sched.GetIdleWorkers(workers, IDLE_SLOTS);
    ListedInSlots(Size(queue.model), sched.model.workers, |sched.model.workers|, IDLE_SLOTS);
    DispatchListed(queue, sched, workers[..count], sendOk, now);
  }

  lemma {:induction false} ListedInSlots(size: nat, ws: seq<S.WorkerInfo>, n: nat, max: nat)
    requires n <= |ws| && forall k | 0 <= k < |ws| :: InSlots(size, ws[k])
    ensures forall k {:trigger Scheduler.IdleRows(ws, n, max)[k]} | 0 <= k < |Scheduler.IdleRows(ws, n, max)| ::
      InSlots(size, Scheduler.IdleRows(ws, n, max)[k])
  {
    if n > 0 { ListedInSlots(size, ws, n - 1, max); }
  }
}
