/** Coordinator, workers and channels as one step system: where every task is, over all interleavings. */
module Protocol {
  import opened Wrappers
  import opened QueueSpec
  import opened Batches
  import opened CoordSpec
  import S = SchedSpec

  const LOCAL_CAPACITY := 1000
  const MAX_CONCURRENT := 8
  const MAX_WORKERS := 256
  const HEARTBEAT_TIMEOUT := 30

  datatype Message = Hello(maxBatch: nat) | Beat | Done(task: nat, status: int)

  /** A worker process, the channel to it, the channel from it, and what it lost on the way. */
  datatype Worker = Worker(started: bool, inbox: seq<seq<Task>>, local: Queue, executing: Option<Task>, reserved: nat,
                           outbox: seq<Message>, dropped: seq<Task>, lost: seq<Task>)

  /** `deaths` records whether a timeout sweep has ever declared a worker dead. */
  datatype System = System(q: Queue, s: S.Sched, ws: seq<Worker>, submitted: seq<Task>, executed: seq<Task>,
                           completed: seq<Message>, deaths: bool)

  /** A queue as task_queue_create leaves it. */
  predicate Vacant(q: Queue, capacity: nat) {
    && q.high == [] && q.normal == [] && q.maxSize == capacity && !q.allowDuplicates && !q.shuttingDown
    && q.enqueued == q.dequeued == q.removed == q.cleared == 0
  }

  /** Tables as scheduler_create leaves them. */
  predicate Blank(s: S.Sched) {
    && s.workers == [] && s.tasks == []
    && s.maxWorkers == MAX_WORKERS && s.maxTasks == S.MAX_TRACKED_TASKS && s.timeout == HEARTBEAT_TIMEOUT
    && s.stats.total == s.stats.active == s.stats.idle == s.stats.busy == s.stats.dead == 0
    && s.stats.scheduled == s.stats.completed == s.stats.failed == 0
  }

  /** A worker process that has not started yet. */
  predicate Unstarted(x: Worker) {
    && !x.started && x.inbox == [] && Vacant(x.local, LOCAL_CAPACITY) && x.executing == None && x.reserved == 0
    && x.outbox == [] && x.dropped == [] && x.lost == []
  }

  predicate Initial(y: System) {
    && Vacant(y.q, COORDINATOR_CAPACITY) && Blank(y.s) && (forall w | 0 <= w < |y.ws| :: Unstarted(y.ws[w]))
    && y.submitted == [] && y.executed == [] && y.completed == [] && !y.deaths
  }

  datatype Event =
    | Submit(t: Task)
    | Start(w: nat, maxBatch: nat, sent: bool)
    | SendBeat(w: nat, sent: bool)
    | Receive(w: nat)
    | Begin(w: nat)
    | Finish(w: nat, status: int, sent: bool)
    | Handle(w: nat, now: int)
    | Dispatch(w: nat, sent: bool, now: int)
    | Sweep(now: int)

  /** Ids are never submitted twice, a worker registers once, and no worker asks for more than 100 tasks at a time. */
  predicate Enabled(y: System, e: Event) {
    match e
    case Submit(t) => forall k | 0 <= k < |y.submitted| :: y.submitted[k].id != t.id
    case Start(w, maxBatch, sent) => w < |y.ws| && !y.ws[w].started && maxBatch <= BATCH_SLOTS
    case SendBeat(w, sent) => w < |y.ws| && y.ws[w].started
    case Receive(w) => w < |y.ws| && y.ws[w].inbox != []
    case Begin(w) => w < |y.ws| && y.ws[w].executing.None? && Size(y.ws[w].local) > 0
    case Finish(w, status, sent) => w < |y.ws| && y.ws[w].executing.Some?
    case Handle(w, now) => w < |y.ws| && y.ws[w].outbox != []
    case Dispatch(w, sent, now) => w < |y.ws| && S.Knows(y.s, w) && S.RowOf(y.s, w).state == S.Idle && Size(y.q) > 0
    case Sweep(now) => true
  }

  function DoSubmit(y: System, t: Task): System {
    if EnqueueCode(y.q, t, true) != OK then y else y.(q := Enqueue(y.q, t, true), submitted := y.submitted + [t])
  }

  function Started(x: Worker, maxBatch: nat, sent: bool): Worker {
    if sent then x.(started := true, outbox := x.outbox + [Hello(maxBatch)]) else x.(started := true)
  }

  function Beaten(x: Worker, sent: bool): Worker {
    if sent then x.(outbox := x.outbox + [Beat]) else x
  }

  /** Unpacks the oldest batch into the local queue; what the queue refuses is gone. */
  function Received(x: Worker): Worker
    requires x.inbox != []
  {
    var b := x.inbox[0];
    x.(inbox := x.inbox[1..], local := EnqueueAll(x.local, b), dropped := x.dropped + Rejected(x.local, b))
  }

  predicate MayReserve(x: Worker) {
    x.reserved < MAX_CONCURRENT
  }

  /** Takes a task and reserves a slot for it, or puts it back when there is none. */
  function Begun(x: Worker): Worker
    requires Next(x.local).Some?
  {
    var t := Next(x.local).value;
    if MayReserve(x) then x.(local := Dequeue(x.local), executing := Some(t), reserved := x.reserved + 1)
    else x.(local := Enqueue(Dequeue(x.local), t, true))
  }

  function Finished(x: Worker, status: int, sent: bool): Worker
    requires x.executing.Some?
  {
    var t, less := x.executing.value, if x.reserved > 0 then x.reserved - 1 else 0;
    if sent then x.(executing := None, reserved := less, outbox := x.outbox + [Done(t.id, status)])
    else x.(executing := None, reserved := less, lost := x.lost + [t])
  }

  function HandledSched(s: S.Sched, w: nat, m: Message, now: int): S.Sched {
    match m
    case Hello(maxBatch) => S.Register(s, NewWorker(w, 1, maxBatch, 0, now), now)
    case Beat => S.Heartbeat(s, w, now)
    case Done(task, status) => S.Complete(s, task, status)
  }

  function DoHandle(y: System, w: nat, now: int): System
    requires Enabled(y, Handle(w, now))
  {
    var x := y.ws[w];
    var m := x.outbox[0];
    y.(ws := y.ws[w := x.(outbox := x.outbox[1..])], s := HandledSched(y.s, w, m, now),
       completed := if m.Done? then y.completed + [m] else y.completed)
  }

  function DoDispatch(y: System, w: nat, sent: bool, now: int): System
    requires Enabled(y, Dispatch(w, sent, now))
  {
    var max, x := BatchLimit(S.RowOf(y.s, w)), y.ws[w];
    var b := Batch(y.q, max);
    y.(q := DispatchedQueue(y.q, max, sent), s := DispatchedSched(y.s, b, w, sent, now),
       ws := if sent then y.ws[w := x.(inbox := x.inbox + [b])] else y.ws)
  }

  function DoSweep(y: System, now: int): System {
    var s := S.CheckTimeouts(y.s, now);
    y.(s := s, deaths := y.deaths || s != y.s)
  }

  function Do(y: System, e: Event): System
    requires Enabled(y, e)
  {
    match e
    case Submit(t) => DoSubmit(y, t)
    case Start(w, maxBatch, sent) => y.(ws := y.ws[w := Started(y.ws[w], maxBatch, sent)])
    case SendBeat(w, sent) => y.(ws := y.ws[w := Beaten(y.ws[w], sent)])
    case Receive(w) => y.(ws := y.ws[w := Received(y.ws[w])])
    case Begin(w) =>
      y.(ws := y.ws[w := Begun(y.ws[w])],
         executed := if MayReserve(y.ws[w]) then y.executed + [Next(y.ws[w].local).value] else y.executed)
    case Finish(w, status, sent) => y.(ws := y.ws[w := Finished(y.ws[w], status, sent)])
    case Handle(w, now) => DoHandle(y, w, now)
    case Dispatch(w, sent, now) => DoDispatch(y, w, sent, now)
    case Sweep(now) => DoSweep(y, now)
  }

  /** An event that is not enabled does nothing. */
  function Apply(y: System, e: Event): System {
    if Enabled(y, e) then Do(y, e) else y
  }

  /** The state after a run of events from the given state. */
  function Exec(y: System, es: seq<Event>): System {
    if es == [] then y else Apply(Exec(y, es[..|es| - 1]), es[|es| - 1])
  }

  lemma ExecAppend(y: System, es: seq<Event>, e: Event)
    ensures Exec(y, es + [e]) == Apply(Exec(y, es), e)
  {
    assert (es + [e])[..|es|] == es;
  }
}
