/** The way of one task through a system with a free worker, step by step, and as often as one likes. */
module Cycle {
  import opened QueueSpec
  import opened Batches
  import opened CoordSpec
  import opened Protocol
  import opened TableViews
  import opened Safety
  import S = SchedSpec

  // Where the one task of a worker can be

  predicate Free(x: Worker) {
    x.inbox == [] && Size(x.local) == 0 && x.executing.None? && x.outbox == [] && x.lost == []
  }

  predicate Boxed(x: Worker) {
    |x.inbox| == 1 && |x.inbox[0]| == 1 && Size(x.local) == 0 && x.executing.None? && x.outbox == [] && x.lost == []
  }

  predicate Queued(x: Worker) {
    x.inbox == [] && Size(x.local) == 1 && x.executing.None? && x.outbox == [] && x.lost == []
  }

  predicate Running(x: Worker) {
    x.inbox == [] && Size(x.local) == 0 && x.executing.Some? && x.outbox == [] && x.lost == []
  }

  predicate Answered(x: Worker) {
    x.inbox == [] && Size(x.local) == 0 && x.executing.None? && |x.outbox| == 1 && x.outbox[0].Done? && x.lost == []
  }

  /** Worker w is registered, and nobody has been declared dead. */
  ghost predicate Alive(y: System, w: nat) {
    Safe(y) && w < |y.ws| && View(y.s, w).Some? && !y.deaths
  }

  /** A registered worker with nothing outstanding is idle. */
  lemma FreeIsIdle(y: System, w: nat)
    requires Alive(y, w) && Free(y.ws[w]) && Exact(y)
    ensures View(y.s, w).value.state == S.Idle
  {
    assert WorkerOk(y.ws[w], View(y.s, w), y.deaths, Exact(y));
    S.CountNoUnknown(y.s.workers, S.IndexOf(y.s.workers, w));
  }

  // The steps

  lemma Submitted(y: System, t: Task)
    requires Safe(y) && Size(y.q) == 0 && Enabled(y, Submit(t))
    ensures var y' := Apply(y, Submit(t));
      y' == y.(q := y'.q, submitted := y.submitted + [t]) && Size(y'.q) == 1
  {}

  lemma BatchOfOne(q: Queue, max: nat)
    requires Size(q) == 1 && max > 0
    ensures |Batch(q, max)| == 1 && Size(AfterBatch(q, max)) == 0
  {
    BatchSize(q, max);
  }

  lemma Dispatched(y: System, w: nat, now: int)
    requires Alive(y, w) && Size(y.q) == 1 && Free(y.ws[w]) && View(y.s, w).value.state == S.Idle
    ensures var y' := Apply(y, Dispatch(w, true, now));
      && Alive(y', w) && Size(y'.q) == 0 && Boxed(y'.ws[w]) && y'.submitted == y.submitted
      && View(y'.s, w).value.state == S.Busy
  {
    ApplySafe(y, Dispatch(w, true, now));
    BatchOfOne(y.q, BatchLimit(S.RowOf(y.s, w)));
    ViewDispatched(y.s, Batch(y.q, BatchLimit(S.RowOf(y.s, w))), w, true, now, w);
  }

  lemma UnpacksOne(x: Worker)
    requires Boxed(x) && Received(x).dropped == []
    ensures Queued(Received(x))
  {
    EnqueueSize(x.local, x.inbox[0], 1);
  }

  lemma Unpacked(y: System, w: nat)
    requires Alive(y, w) && Boxed(y.ws[w])
    ensures var y' := Apply(y, Receive(w)); Alive(y', w) && y' == y.(ws := y'.ws) && Queued(y'.ws[w])
  {
    ApplySafe(y, Receive(w));
    var y' := Apply(y, Receive(w));
    assert WorkerOk(y'.ws[w], View(y'.s, w), y'.deaths, Exact(y'));
    UnpacksOne(y.ws[w]);
  }

  lemma Executed(y: System, w: nat)
    requires Alive(y, w) && Queued(y.ws[w])
    ensures var y' := Apply(y, Begin(w)); Alive(y', w) && y' == y.(ws := y'.ws, executed := y'.executed) && Running(y'.ws[w])
  {
    ApplySafe(y, Begin(w));
    assert WorkerOk(y.ws[w], View(y.s, w), y.deaths, Exact(y));
  }

  lemma Replied(y: System, w: nat, status: int)
    requires Alive(y, w) && Running(y.ws[w])
    ensures var y' := Apply(y, Finish(w, status, true)); Alive(y', w) && y' == y.(ws := y'.ws) && Answered(y'.ws[w])
  {
    ApplySafe(y, Finish(w, status, true));
  }

  lemma Processed(y: System, w: nat, now: int)
    requires Alive(y, w) && Answered(y.ws[w])
    ensures var y' := Apply(y, Handle(w, now));
      Alive(y', w) && y'.q == y.q && y'.submitted == y.submitted && Free(y'.ws[w])
  {
    ApplySafe(y, Handle(w, now));
    var m := y.ws[w].outbox[0];
    ViewComplete(y.s, m.task, m.status, w);
  }

  // From the start

  predicate Greeting(x: Worker, maxBatch: nat) {
    && x.inbox == [] && Size(x.local) == 0 && x.executing.None? && x.lost == []
    && |x.outbox| == 1 && x.outbox[0] == Hello(maxBatch)
  }

  /** Nothing has been submitted and nobody is registered or dead. */
  predicate Untouched(y: System) {
    Size(y.q) == 0 && y.submitted == [] && y.s.workers == [] && y.s.maxWorkers > 0 && !y.deaths
  }

  lemma Launched(y: System, w: nat, maxBatch: nat)
    requires Initial(y) && w < |y.ws| && maxBatch <= BATCH_SLOTS
    ensures var y' := Apply(y, Start(w, maxBatch, true)); Untouched(y') && w < |y'.ws| && Greeting(y'.ws[w], maxBatch)
  {}

  lemma ViewOfFirst(s: S.Sched, w: nat, maxBatch: nat, now: int)
    requires s.workers == [] && s.maxWorkers > 0
    ensures View(S.Register(s, NewWorker(w, 1, maxBatch, 0, now), now), w).Some?
  {
    ViewRegister(s, NewWorker(w, 1, maxBatch, 0, now), now, w);
  }

  lemma Registered(y: System, w: nat, maxBatch: nat, now: int)
    requires Safe(y) && Untouched(y) && w < |y.ws| && Greeting(y.ws[w], maxBatch)
    ensures Rested(Apply(y, Handle(w, now)), w, 0)
  {
    ApplySafe(y, Handle(w, now));
    ViewOfFirst(y.s, w, maxBatch, now);
    var y' := Apply(y, Handle(w, now));
    assert y'.s == HandledSched(y.s, w, y.ws[w].outbox[0], now) && y'.ws[w] == Popped(y.ws[w]);
  }

  /** n tasks, with ids below n, came and went, and worker w is free. */
  ghost predicate Rested(y: System, w: nat, n: nat) {
    && Alive(y, w) && Free(y.ws[w]) && Size(y.q) == 0
    && |y.submitted| == n && forall k | 0 <= k < n :: y.submitted[k].id < n
  }

  function Joining(w: nat, maxBatch: nat, now: int): seq<Event> {
    [] + [Start(w, maxBatch, true)] + [Handle(w, now)]
  }

  lemma JoinedRests(y0: System, w: nat, maxBatch: nat, now: int)
    requires Initial(y0) && w < |y0.ws| && maxBatch <= BATCH_SLOTS
    ensures Rested(Exec(y0, Joining(w, maxBatch, now)), w, 0)
  {
    var e1 := [] + [Start(w, maxBatch, true)];
    Launched(y0, w, maxBatch);
    ExecAppend(y0, [], Start(w, maxBatch, true));
    ExecSafe(y0, e1);
    Registered(Exec(y0, e1), w, maxBatch, now);
    ExecAppend(y0, e1, Handle(w, now));
  }

  // One round after the other

  /** From a rested system to one in which the task is running. */
  lemma RunsNext(y: System, w: nat, n: nat, t: Task, now: int)
    requires Rested(y, w, n) && n <= S.MAX_TRACKED_TASKS && Enabled(y, Submit(t))
    ensures var y1 := Apply(y, Submit(t));
      && Alive(y1, w) && Free(y1.ws[w]) && Size(y1.q) == 1 && y1.s == y.s && View(y1.s, w).value.state == S.Idle
      && var y2 := Apply(y1, Dispatch(w, true, now));
      && var y4 := Apply(Apply(y2, Receive(w)), Begin(w));
      && Alive(y4, w) && Running(y4.ws[w]) && Size(y4.q) == 0 && y4.submitted == y.submitted + [t]
      && View(y4.s, w).value.state == S.Busy
  {
    FreeIsIdle(y, w);
    Submitted(y, t);
    ApplySafe(y, Submit(t));
    var y1 := Apply(y, Submit(t));
    Dispatched(y1, w, now);
    var y2 := Apply(y1, Dispatch(w, true, now));
    Unpacked(y2, w);
    Executed(Apply(y2, Receive(w)), w);
  }

  lemma FreshId(y: System, w: nat, n: nat)
    requires Rested(y, w, n)
    ensures Enabled(y, Submit(Plain(n)))
  {}

  lemma OneMoreBelow(s: seq<Task>, n: nat)
    requires |s| == n && forall k | 0 <= k < n :: s[k].id < n
    ensures |s + [Plain(n)]| == n + 1 && forall k | 0 <= k < n + 1 :: (s + [Plain(n)])[k].id < n + 1
  {}

  /** The state after one more task was submitted, executed by worker w, answered and processed. */
  function AfterRound(y: System, w: nat, t: Task, now: int): System {
    Apply(Apply(Apply(Apply(Apply(Apply(y, Submit(t)), Dispatch(w, true, now)), Receive(w)), Begin(w)),
                Finish(w, 0, true)), Handle(w, now))
  }

  lemma RestsAgain(y: System, w: nat, n: nat, now: int)
    requires Rested(y, w, n) && n <= S.MAX_TRACKED_TASKS
    ensures Rested(AfterRound(y, w, Plain(n), now), w, n + 1)
  {
    FreshId(y, w, n);
    RunsNext(y, w, n, Plain(n), now);
    var y4 := Apply(Apply(Apply(Apply(y, Submit(Plain(n))), Dispatch(w, true, now)), Receive(w)), Begin(w));
    Replied(y4, w, 0);
    Processed(Apply(y4, Finish(w, 0, true)), w, now);
    OneMoreBelow(y.submitted, n);
  }

  lemma ExecRound(y: System, es: seq<Event>, w: nat, t: Task, now: int)
    ensures Exec(y, es + [Submit(t)] + [Dispatch(w, true, now)] + [Receive(w)] + [Begin(w)])
         == Apply(Apply(Apply(Apply(Exec(y, es), Submit(t)), Dispatch(w, true, now)), Receive(w)), Begin(w))
  {
    ExecAppend(y, es, Submit(t));
    ExecAppend(y, es + [Submit(t)], Dispatch(w, true, now));
    ExecAppend(y, es + [Submit(t)] + [Dispatch(w, true, now)], Receive(w));
    ExecAppend(y, es + [Submit(t)] + [Dispatch(w, true, now)] + [Receive(w)], Begin(w));
  }

  function OneRound(es: seq<Event>, w: nat, t: Task, now: int): seq<Event> {
    es + [Submit(t)] + [Dispatch(w, true, now)] + [Receive(w)] + [Begin(w)] + [Finish(w, 0, true)] + [Handle(w, now)]
  }

  lemma ExecOneRound(y: System, es: seq<Event>, w: nat, t: Task, now: int)
    ensures Exec(y, OneRound(es, w, t, now)) == AfterRound(Exec(y, es), w, t, now)
  {
    var e4 := es + [Submit(t)] + [Dispatch(w, true, now)] + [Receive(w)] + [Begin(w)];
    ExecRound(y, es, w, t, now);
    ExecAppend(y, e4, Finish(w, 0, true));
    ExecAppend(y, e4 + [Finish(w, 0, true)], Handle(w, now));
  }

  lemma RestsOnceMore(y0: System, es: seq<Event>, w: nat, n: nat, now: int)
    requires Rested(Exec(y0, es), w, n) && n <= S.MAX_TRACKED_TASKS
    ensures Rested(Exec(y0, OneRound(es, w, Plain(n), now)), w, n + 1)
  {
    RestsAgain(Exec(y0, es), w, n, now);
    ExecOneRound(y0, es, w, Plain(n), now);
  }

  /** On every system with a worker w, any number of tasks the tracking table has room for can be worked off one by one. */
  lemma {:induction false} CanWorkOff(y0: System, w: nat, now: int, n: nat)
    requires Initial(y0) && w < |y0.ws| && n <= S.MAX_TRACKED_TASKS
    ensures exists es: seq<Event> :: Rested(Exec(y0, es), w, n)
  {
    if n == 0 {
      JoinedRests(y0, w, 1, now);
    } else {
      CanWorkOff(y0, w, now, n - 1);
      var es: seq<Event> :| Rested(Exec(y0, es), w, n - 1);
      RestsOnceMore(y0, es, w, n - 1, now);
    }
  }

  /** The table then has one row for each. */
  lemma RestedRows(y: System, w: nat, n: nat)
    requires Rested(y, w, n) && n <= S.MAX_TRACKED_TASKS
    ensures |y.s.tasks| == n
  {}
}
