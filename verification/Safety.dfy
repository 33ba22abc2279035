/** The invariant of the step system, kept by every event, and what follows on every run. */
module Safety {
  import opened Wrappers
  import opened QueueSpec
  import opened Batches
  import opened CoordSpec
  import opened Protocol
  import opened Places
  import opened TableViews
  import S = SchedSpec

  /** No dispatched task has been refused tracking. */
  predicate Exact(y: System) {
    |y.submitted| <= S.MAX_TRACKED_TASKS + Size(y.q)
  }

  /** Only processes of the system are in the table. */
  ghost predicate KnownBelow(s: S.Sched, n: nat) {
    forall v: nat | n <= v :: View(s, v) == None
  }

  ghost predicate Fit(q: Queue, capacity: nat) {
    Inv(q) && q.maxSize == capacity && !q.allowDuplicates && !q.shuttingDown
  }

  ghost predicate Ready(x: Worker) {
    Fit(x.local, LOCAL_CAPACITY) && x.reserved == if x.executing.Some? then 1 else 0
  }

  /** A worker says hello first and once, and is known only after that. */
  ghost predicate Polite(x: Worker, known: bool) {
    && (!x.started ==> !known && x.outbox == [])
    && (forall k | 1 <= k < |x.outbox| :: !x.outbox[k].Hello?)
    && (x.outbox != [] && x.outbox[0].Hello? ==> !known && x.outbox[0].maxBatch <= BATCH_SLOTS)
  }

  /** The scheduler's row for a worker against what the worker has outstanding. */
  ghost predicate Booked(view: Option<S.WorkerInfo>, n: nat, deaths: bool, exact: bool) {
    && (view.None? ==> n == 0)
    && (view.Some? ==> RowOk(view.value, n, deaths, exact))
    && (!deaths ==> n <= BATCH_SLOTS)
  }

  ghost predicate RowOk(r: S.WorkerInfo, n: nat, deaths: bool, exact: bool) {
    && 0 < r.maxBatchSize <= BATCH_SLOTS && r.running >= n && (exact ==> r.running == n)
    && (r.state == S.Busy ==> r.running > 0)
    && (!deaths ==> r.state != S.Dead && (r.state == S.Idle ==> r.running == 0))
  }

  ghost predicate WorkerOk(x: Worker, view: Option<S.WorkerInfo>, deaths: bool, exact: bool) {
    && Ready(x) && Polite(x, view.Some?) && Booked(view, Outstanding(x), deaths, exact)
    && (!deaths ==> x.dropped == [])
  }

  ghost predicate WorkersOk(y: System) {
    forall w | 0 <= w < |y.ws| :: WorkerOk(y.ws[w], View(y.s, w), y.deaths, Exact(y))
  }

  /** A submitted task is in exactly one place, once. */
  ghost predicate Placed(y: System, id: nat) {
    InQueue(y.q, id) + HeldBy(y.ws, id) + InMessages(y.completed, |y.completed|, id) == CountOf(y.submitted, id) <= 1
  }

  /** Every execution shows up at a worker or among the processed results. */
  ghost predicate Ran(y: System, id: nat) {
    CountOf(y.executed, id) == BegunBy(y.ws, id) + InMessages(y.completed, |y.completed|, id)
  }

  ghost predicate OwnedBy(o: Option<nat>, w: nat, exact: bool) {
    o == Some(w) || (o == None && !exact)
  }

  /** The tracking table names the worker that holds the task. */
  ghost predicate Tracked(y: System, id: nat) {
    && (InQueue(y.q, id) > 0 ==> Owner(y.s, id) == None)
    && (Owner(y.s, id).Some? ==> CountOf(y.submitted, id) > 0)
    && (forall w | 0 <= w < |y.ws| :: Held(y.ws[w], id) > 0 ==> OwnedBy(Owner(y.s, id), w, Exact(y)))
  }

  ghost predicate TaskOk(y: System, id: nat) {
    Placed(y, id) && Ran(y, id) && Tracked(y, id)
  }

  ghost predicate TablesOk(y: System) {
    && Fit(y.q, COORDINATOR_CAPACITY) && S.Counted(y.s)
    && y.s.maxTasks == S.MAX_TRACKED_TASKS && y.s.maxWorkers == MAX_WORKERS && KnownBelow(y.s, |y.ws|)
    && |y.s.tasks| == if Exact(y) then |y.submitted| - Size(y.q) else S.MAX_TRACKED_TASKS
  }

  ghost predicate Safe(y: System) {
    TablesOk(y) && WorkersOk(y) && forall id: nat :: TaskOk(y, id)
  }

  // Events inside one worker

  /** The worker holds the same tasks before and after. */
  ghost predicate SameTasks(x: Worker, x': Worker, id: nat) {
    Held(x', id) == Held(x, id)
  }

  ghost predicate SameRuns(x: Worker, x': Worker, e: seq<Task>, e': seq<Task>, id: nat) {
    CountOf(e', id) + Began(x, id) == CountOf(e, id) + Began(x', id)
  }

  lemma LocalTask(y: System, w: nat, x': Worker, e': seq<Task>, id: nat)
    requires w < |y.ws| && TaskOk(y, id) && SameTasks(y.ws[w], x', id) && SameRuns(y.ws[w], x', y.executed, e', id)
    ensures TaskOk(y.(ws := y.ws[w := x'], executed := e'), id)
  {
    HeldUpdate(y.ws, w, x', id);
  }

  lemma LocalStep(y: System, w: nat, x': Worker, e': seq<Task>)
    requires Safe(y) && w < |y.ws| && WorkerOk(x', View(y.s, w), y.deaths, Exact(y))
    requires forall id: nat :: SameTasks(y.ws[w], x', id) && SameRuns(y.ws[w], x', y.executed, e', id)
    ensures Safe(y.(ws := y.ws[w := x'], executed := e'))
  {
    var y' := y.(ws := y.ws[w := x'], executed := e');
    forall id: nat ensures TaskOk(y', id) {
      assert TaskOk(y, id) && SameTasks(y.ws[w], x', id);
      LocalTask(y, w, x', e', id);
    }
    forall v | 0 <= v < |y'.ws| ensures WorkerOk(y'.ws[v], View(y'.s, v), y'.deaths, Exact(y')) {
      assert WorkerOk(y.ws[v], View(y.s, v), y.deaths, Exact(y));
    }
  }

  lemma StartSafe(y: System, w: nat, maxBatch: nat, sent: bool)
    requires Safe(y) && Enabled(y, Start(w, maxBatch, sent))
    ensures Safe(Do(y, Start(w, maxBatch, sent)))
  {
    var x, x' := y.ws[w], Started(y.ws[w], maxBatch, sent);
    assert WorkerOk(x, View(y.s, w), y.deaths, Exact(y));
    SaidHeld(x, Hello(maxBatch), 0);
    forall id: nat ensures SameTasks(x, x', id) && SameRuns(x, x', y.executed, y.executed, id) {
      SaidHeld(x, Hello(maxBatch), id);
    }
    LocalStep(y, w, x', y.executed);
  }

  lemma BeatSafe(y: System, w: nat, sent: bool)
    requires Safe(y) && Enabled(y, SendBeat(w, sent))
    ensures Safe(Do(y, SendBeat(w, sent)))
  {
    var x, x' := y.ws[w], Beaten(y.ws[w], sent);
    assert WorkerOk(x, View(y.s, w), y.deaths, Exact(y));
    assert x.(started := true) == x;
    SaidHeld(x, Beat, 0);
    forall id: nat ensures SameTasks(x, x', id) && SameRuns(x, x', y.executed, y.executed, id) {
      SaidHeld(x, Beat, id);
    }
    LocalStep(y, w, x', y.executed);
  }

  /** No id occurs twice at one worker. */
  lemma HeldOnce(y: System, w: nat, id: nat)
    requires Placed(y, id) && w < |y.ws|
    ensures Held(y.ws[w], id) <= 1
  {
    HeldPart(y.ws, w, id);
  }

  lemma ReceivedOk(x: Worker, view: Option<S.WorkerInfo>, deaths: bool, exact: bool)
    requires WorkerOk(x, view, deaths, exact) && x.inbox != [] && forall id: nat :: Held(x, id) <= 1
    ensures WorkerOk(Received(x), view, deaths, exact)
  {
    var b := x.inbox[0];
    EnqueueInv(x.local, b, |b|);
    ReceivedHeld(x, 0);
    if !deaths { NothingDropped(x); }
  }

  /** A worker with at most one batch outstanding has room for it, and no id twice. */
  lemma NothingDropped(x: Worker)
    requires Ready(x) && x.inbox != [] && Outstanding(x) <= BATCH_SLOTS && forall id: nat :: Held(x, id) <= 1
    ensures Rejected(x.local, x.inbox[0]) == []
  {
    var b := x.inbox[0];
    BatchesShift(x.inbox, x.inbox[1..], |x.inbox| - 1, 0);
    forall id: nat ensures InQueue(x.local, id) + CountTo(b, |b|, id) <= 1 {
      assert Held(x, id) <= 1;
      BatchesShift(x.inbox, x.inbox[1..], |x.inbox| - 1, id);
    }
    EnqueueFits(x.local, b, |b|);
  }

  lemma ReceiveSafe(y: System, w: nat)
    requires Safe(y) && Enabled(y, Receive(w))
    ensures Safe(Do(y, Receive(w)))
  {
    var x := y.ws[w];
    forall id: nat ensures Held(x, id) <= 1 && SameTasks(x, Received(x), id)
      && SameRuns(x, Received(x), y.executed, y.executed, id)
    {
      assert TaskOk(y, id);
      HeldOnce(y, w, id);
      ReceivedHeld(x, id);
    }
    assert WorkerOk(x, View(y.s, w), y.deaths, Exact(y));
    ReceivedOk(x, View(y.s, w), y.deaths, Exact(y));
    LocalStep(y, w, Received(x), y.executed);
  }

  lemma BegunOk(x: Worker, view: Option<S.WorkerInfo>, deaths: bool, exact: bool)
    requires WorkerOk(x, view, deaths, exact) && x.executing.None? && Next(x.local).Some?
    ensures WorkerOk(Begun(x), view, deaths, exact)
  {
    DequeueKeepsInv(x.local);
    BegunHeld(x, 0);
  }

  lemma BeginSafe(y: System, w: nat)
    requires Safe(y) && Enabled(y, Begin(w))
    ensures Safe(Do(y, Begin(w)))
  {
    var x := y.ws[w];
    assert WorkerOk(x, View(y.s, w), y.deaths, Exact(y));
    BegunOk(x, View(y.s, w), y.deaths, Exact(y));
    var t := Next(x.local).value;
    var e' := y.executed + [t];
    forall id: nat ensures SameTasks(x, Begun(x), id) && SameRuns(x, Begun(x), y.executed, e', id) {
      BegunHeld(x, id);
      CountAppend(y.executed, t, id);
    }
    LocalStep(y, w, Begun(x), e');
  }

  lemma FinishSafe(y: System, w: nat, status: int, sent: bool)
    requires Safe(y) && Enabled(y, Finish(w, status, sent))
    ensures Safe(Do(y, Finish(w, status, sent)))
  {
    var x, x' := y.ws[w], Finished(y.ws[w], status, sent);
    assert WorkerOk(x, View(y.s, w), y.deaths, Exact(y));
    FinishedHeld(x, status, sent, 0);
    forall id: nat ensures SameTasks(x, x', id) && SameRuns(x, x', y.executed, y.executed, id) {
      FinishedHeld(x, status, sent, id);
    }
    LocalStep(y, w, x', y.executed);
  }

  // Submitting

  lemma SubmitTask(y: System, t: Task, id: nat)
    requires TaskOk(y, id) && CountOf(y.submitted, t.id) == 0
    ensures TaskOk(y.(q := Insert(y.q, t), submitted := y.submitted + [t]), id)
  {
    InsertCount(y.q, t, id);
    CountAppend(y.submitted, t, id);
  }

  lemma Weaker(x: Worker, view: Option<S.WorkerInfo>, deaths: bool, exact: bool, exact': bool)
    requires WorkerOk(x, view, deaths, exact) && (exact' ==> exact)
    ensures WorkerOk(x, view, deaths, exact')
  {}

  lemma SubmitSafe(y: System, t: Task)
    requires Safe(y) && Enabled(y, Submit(t))
    ensures Safe(Do(y, Submit(t)))
  {
    if EnqueueCode(y.q, t, true) == OK {
      var y' := Do(y, Submit(t));
      EnqueueKeepsInv(y.q, t, true);
      CountHolds(y.submitted, |y.submitted|, t.id);
      forall id: nat ensures TaskOk(y', id) {
        assert TaskOk(y, id);
        SubmitTask(y, t, id);
      }
      forall v | 0 <= v < |y'.ws| ensures WorkerOk(y'.ws[v], View(y'.s, v), y'.deaths, Exact(y')) {
        Weaker(y.ws[v], View(y.s, v), y.deaths, Exact(y), Exact(y'));
      }
    }
  }

  // Handling a message

  /** Moves d occurrences of the task from worker w to the processed results. */
  ghost predicate Moves(x: Worker, x': Worker, c: seq<Message>, c': seq<Message>, id: nat) {
    && Held(x, id) + InMessages(c, |c|, id) == Held(x', id) + InMessages(c', |c'|, id)
    && Began(x, id) + InMessages(c, |c|, id) == Began(x', id) + InMessages(c', |c'|, id)
    && Held(x', id) <= Held(x, id)
  }

  lemma HandleTask(y: System, w: nat, x': Worker, s': S.Sched, c': seq<Message>, id: nat)
    requires w < |y.ws| && TaskOk(y, id) && Owner(s', id) == Owner(y.s, id) && Moves(y.ws[w], x', y.completed, c', id)
    ensures TaskOk(y.(ws := y.ws[w := x'], s := s', completed := c'), id)
  {
    HeldUpdate(y.ws, w, x', id);
  }

  /** The tables say the same of every worker but w, and of every task. */
  ghost predicate SameElsewhere(s: S.Sched, s': S.Sched, w: nat) {
    && s'.maxTasks == s.maxTasks && s'.maxWorkers == s.maxWorkers && |s'.tasks| == |s.tasks|
    && (forall v: nat | v != w :: View(s', v) == View(s, v))
    && (forall id: nat :: Owner(s', id) == Owner(s, id))
  }

  /** The state after a message of worker w was handled. */
  function HandledState(y: System, w: nat, x': Worker, s': S.Sched, c': seq<Message>): System
    requires w < |y.ws|
  {
    y.(ws := y.ws[w := x'], s := s', completed := c')
  }

  lemma HandledWorkers(y: System, w: nat, x': Worker, s': S.Sched, c': seq<Message>)
    requires w < |y.ws| && WorkersOk(y) && SameElsewhere(y.s, s', w) && WorkerOk(x', View(s', w), y.deaths, Exact(y))
    ensures WorkersOk(HandledState(y, w, x', s', c'))
  {
    var y' := HandledState(y, w, x', s', c');
    forall v | 0 <= v < |y'.ws| ensures WorkerOk(y'.ws[v], View(y'.s, v), y'.deaths, Exact(y')) {
      assert WorkerOk(y.ws[v], View(y.s, v), y.deaths, Exact(y));
    }
  }

  lemma HandleStep(y: System, w: nat, x': Worker, s': S.Sched, c': seq<Message>)
    requires Safe(y) && w < |y.ws| && S.Counted(s') && SameElsewhere(y.s, s', w)
    requires WorkerOk(x', View(s', w), y.deaths, Exact(y))
    requires forall id: nat :: Moves(y.ws[w], x', y.completed, c', id)
    ensures Safe(HandledState(y, w, x', s', c'))
  {
    var y' := HandledState(y, w, x', s', c');
    forall id: nat ensures TaskOk(y', id) {
      assert TaskOk(y, id) && Moves(y.ws[w], x', y.completed, c', id);
      HandleTask(y, w, x', s', c', id);
    }
    HandledWorkers(y, w, x', s', c');
    forall v: nat | |y.ws| <= v ensures View(s', v) == None { assert View(s', v) == View(y.s, v); }
  }

  /** The worker after its oldest message is taken. */
  function Popped(x: Worker): Worker
    requires x.outbox != []
  {
    x.(outbox := x.outbox[1..])
  }

  lemma PoppedPolite(x: Worker, known: bool, known': bool)
    requires Polite(x, known) && x.outbox != [] && (known' ==> known || x.outbox[0].Hello?)
    ensures Polite(Popped(x), known')
  {}

  lemma HelloSafe(y: System, w: nat, now: int)
    requires Safe(y) && Enabled(y, Handle(w, now)) && y.ws[w].outbox[0].Hello?
    ensures Safe(Do(y, Handle(w, now)))
  {
    var x, s' := y.ws[w], HandledSched(y.s, w, y.ws[w].outbox[0], now);
    var info := NewWorker(w, 1, x.outbox[0].maxBatch, 0, now);
    assert WorkerOk(x, View(y.s, w), y.deaths, Exact(y));
    S.RegisterIff(y.s, info, now);
    ViewRegister(y.s, info, now, w);
    PoppedHeld(x, 0);
    PoppedPolite(x, false, View(s', w).Some?);
    forall v: nat | v != w ensures View(s', v) == View(y.s, v) { ViewRegister(y.s, info, now, v); }
    forall id: nat ensures Moves(x, Popped(x), y.completed, y.completed, id) { PoppedHeld(x, id); }
    HandleStep(y, w, Popped(x), s', y.completed);
  }

  lemma BeatHandledSafe(y: System, w: nat, now: int)
    requires Safe(y) && Enabled(y, Handle(w, now)) && y.ws[w].outbox[0].Beat?
    ensures Safe(Do(y, Handle(w, now)))
  {
    var x, s' := y.ws[w], S.Heartbeat(y.s, w, now);
    assert WorkerOk(x, View(y.s, w), y.deaths, Exact(y));
    S.HeartbeatCounted(y.s, w, now);
    ViewHeartbeat(y.s, w, now, w);
    PoppedHeld(x, 0);
    PoppedPolite(x, View(y.s, w).Some?, View(s', w).Some?);
    forall v: nat | v != w ensures View(s', v) == View(y.s, v) { ViewHeartbeat(y.s, w, now, v); }
    forall id: nat ensures Moves(x, Popped(x), y.completed, y.completed, id) { PoppedHeld(x, id); }
    HandleStep(y, w, Popped(x), s', y.completed);
  }

  /** The row of a worker with n + 1 tasks outstanding, one of which has just ended. */
  lemma SettledOk(r: S.WorkerInfo, n: nat, deaths: bool, exact: bool, status: int)
    requires RowOk(r, n + 1, deaths, exact)
    ensures RowOk(Settled(r, status), n, deaths, exact)
  {}

  lemma DonePopped(x: Worker, view: Option<S.WorkerInfo>, view': Option<S.WorkerInfo>, o: Option<nat>, w: nat, status: int,
                   deaths: bool, exact: bool)
    requires WorkerOk(x, view, deaths, exact) && x.outbox != [] && x.outbox[0].Done? && OwnedBy(o, w, exact)
    requires view' == if o == Some(w) && view.Some? then Some(Settled(view.value, status)) else view
    ensures WorkerOk(Popped(x), view', deaths, exact)
  {
    PoppedHeld(x, 0);
    PoppedPolite(x, view.Some?, view'.Some?);
    if view.Some? && o == Some(w) { SettledOk(view.value, Outstanding(Popped(x)), deaths, exact, status); }
  }

  lemma DoneTask(x: Worker, c: seq<Message>, id: nat)
    requires x.outbox != [] && x.outbox[0].Done?
    ensures Moves(x, Popped(x), c, c + [x.outbox[0]], id)
  {
    PoppedHeld(x, id);
    MessagesAppend(c, x.outbox[0], id);
  }

  lemma DoneWorker(y: System, w: nat)
    requires w < |y.ws| && WorkerOk(y.ws[w], View(y.s, w), y.deaths, Exact(y)) && y.ws[w].outbox != [] && y.ws[w].outbox[0].Done?
    requires TaskOk(y, y.ws[w].outbox[0].task)
    ensures var x, m := y.ws[w], y.ws[w].outbox[0];
      WorkerOk(Popped(x), View(S.Complete(y.s, m.task, m.status), w), y.deaths, Exact(y))
  {
    var x, m := y.ws[w], y.ws[w].outbox[0];
    PoppedHeld(x, m.task);
    ViewComplete(y.s, m.task, m.status, w);
    DonePopped(x, View(y.s, w), View(S.Complete(y.s, m.task, m.status), w), Owner(y.s, m.task), w, m.status, y.deaths, Exact(y));
  }

  lemma OthersUnseen(y: System, w: nat, v: nat)
    requires w < |y.ws| && v != w && y.ws[w].outbox != [] && y.ws[w].outbox[0].Done?
    requires TaskOk(y, y.ws[w].outbox[0].task)
    ensures var m := y.ws[w].outbox[0]; View(S.Complete(y.s, m.task, m.status), v) == View(y.s, v)
  {
    var m := y.ws[w].outbox[0];
    PoppedHeld(y.ws[w], m.task);
    ViewComplete(y.s, m.task, m.status, v);
  }

  lemma DoneElsewhere(y: System, w: nat)
    requires w < |y.ws| && y.ws[w].outbox != [] && y.ws[w].outbox[0].Done? && TaskOk(y, y.ws[w].outbox[0].task)
    ensures var m := y.ws[w].outbox[0]; SameElsewhere(y.s, S.Complete(y.s, m.task, m.status), w)
  {
    var m := y.ws[w].outbox[0];
    var s' := S.Complete(y.s, m.task, m.status);
    OwnerComplete(y.s, m.task, m.status, 0);
    forall v: nat | v != w ensures View(s', v) == View(y.s, v) { OthersUnseen(y, w, v); }
    forall id: nat ensures Owner(s', id) == Owner(y.s, id) { OwnerComplete(y.s, m.task, m.status, id); }
  }

  lemma DoneSafe(y: System, w: nat, now: int)
    requires Safe(y) && Enabled(y, Handle(w, now)) && y.ws[w].outbox[0].Done?
    ensures Safe(Do(y, Handle(w, now)))
  {
    var x, m := y.ws[w], y.ws[w].outbox[0];
    var s' := S.Complete(y.s, m.task, m.status);
    assert WorkerOk(x, View(y.s, w), y.deaths, Exact(y)) && TaskOk(y, m.task);
    S.CompleteCounted(y.s, m.task, m.status);
    DoneWorker(y, w);
    DoneElsewhere(y, w);
    forall id: nat ensures Moves(x, Popped(x), y.completed, y.completed + [m], id) { DoneTask(x, y.completed, id); }
    HandleStep(y, w, Popped(x), s', y.completed + [m]);
  }

  // Dispatching

  lemma DispatchTask(y: System, w: nat, b: seq<Task>, q': Queue, s': S.Sched, id: nat)
    requires w < |y.ws| && TaskOk(y, id) && InQueue(y.q, id) == CountOf(b, id) + InQueue(q', id)
    requires CountOf(b, id) == 0 ==> Owner(s', id) == Owner(y.s, id)
    requires CountOf(b, id) > 0 ==> OwnedBy(Owner(s', id), w, Exact(y.(q := q')))
    requires Size(q') <= Size(y.q)
    ensures TaskOk(y.(ws := y.ws[w := y.ws[w].(inbox := y.ws[w].inbox + [b])], q := q', s := s'), id)
  {
    var x' := y.ws[w].(inbox := y.ws[w].inbox + [b]);
    SentHeld(y.ws[w], b, id);
    HeldUpdate(y.ws, w, x', id);
    forall v | 0 <= v < |y.ws| ensures Held(y.ws[v], id) <= HeldBy(y.ws, id) { HeldPart(y.ws, v, id); }
  }

  /** The row of an idle worker after a batch of n tasks was sent to it. */
  lemma LoadedOk(r: S.WorkerInfo, m: nat, n: nat, deaths: bool, exact: bool)
    requires RowOk(r, m, deaths, exact) && r.state == S.Idle && 0 < n <= BATCH_SLOTS
    ensures RowOk(Loaded(r, n), m + n, deaths, exact) && (!deaths ==> m == 0)
  {}

  /** The tables after batch b was sent to worker w. */
  function Sent(s: S.Sched, w: nat, b: seq<Task>, now: int): S.Sched {
    TrackFirst(S.MarkBusy(s, w, |b|), b, |b|, w, now)
  }

  lemma SentTask(y: System, w: nat, max: nat, now: int, id: nat)
    requires w < |y.ws| && TaskOk(y, id)
    requires Exact(y.(q := AfterBatch(y.q, max))) ==> |y.s.tasks| + |Batch(y.q, max)| <= y.s.maxTasks
    ensures var b := Batch(y.q, max);
      TaskOk(y.(ws := y.ws[w := y.ws[w].(inbox := y.ws[w].inbox + [b])], q := AfterBatch(y.q, max), s := Sent(y.s, w, b, now)), id)
  {
    var b := Batch(y.q, max);
    BatchSize(y.q, max);
    BatchCount(y.q, max, id);
    TrackOwners(S.MarkBusy(y.s, w, |b|), b, |b|, w, now, id);
    DispatchTask(y, w, b, AfterBatch(y.q, max), Sent(y.s, w, b, now), id);
  }

  lemma SentView(s: S.Sched, w: nat, b: seq<Task>, now: int, v: nat)
    ensures View(Sent(s, w, b, now), v)
         == if v == w && View(s, v).Some? then Some(Loaded(View(s, v).value, |b|)) else View(s, v)
  {
    TrackKeeps(S.MarkBusy(s, w, |b|), b, |b|, w, now);
    ViewMarkBusy(s, w, |b|, v);
  }

  lemma SentTables(s: S.Sched, w: nat, b: seq<Task>, now: int)
    requires S.Counted(s)
    ensures var s' := Sent(s, w, b, now);
      && S.Counted(s') && s'.maxTasks == s.maxTasks && s'.maxWorkers == s.maxWorkers
      && |s'.tasks| == if |s.tasks| + |b| <= s.maxTasks then |s.tasks| + |b| else s.maxTasks
  {
    S.MarkBusyCounted(s, w, |b|);
    TrackCounted(S.MarkBusy(s, w, |b|), b, |b|, w, now);
    TrackKeeps(S.MarkBusy(s, w, |b|), b, |b|, w, now);
  }

  lemma SentWorker(x: Worker, r: S.WorkerInfo, b: seq<Task>, deaths: bool, exact: bool)
    requires WorkerOk(x, Some(r), deaths, exact) && r.state == S.Idle && 0 < |b| <= BATCH_SLOTS
    ensures WorkerOk(x.(inbox := x.inbox + [b]), Some(Loaded(r, |b|)), deaths, exact)
  {
    SentHeld(x, b, 0);
    LoadedOk(r, Outstanding(x), |b|, deaths, exact);
  }

  /** The state after the coordinator sent worker w a batch of at most max tasks. */
  function Shipped(y: System, w: nat, max: nat, now: int): System
    requires w < |y.ws|
  {
    var b := Batch(y.q, max);
    y.(ws := y.ws[w := y.ws[w].(inbox := y.ws[w].inbox + [b])], q := AfterBatch(y.q, max), s := Sent(y.s, w, b, now))
  }

  lemma ShippedTables(y: System, w: nat, max: nat, now: int)
    requires w < |y.ws| && TablesOk(y)
    ensures TablesOk(Shipped(y, w, max, now))
  {
    var b := Batch(y.q, max);
    BatchSize(y.q, max);
    BatchInv(y.q, max);
    SentTables(y.s, w, b, now);
    forall v: nat | |y.ws| <= v ensures View(Sent(y.s, w, b, now), v) == None { SentView(y.s, w, b, now, v); }
  }

  lemma ShippedWorker(y: System, w: nat, max: nat, now: int, v: nat)
    requires w < |y.ws| && v < |y.ws| && WorkerOk(y.ws[v], View(y.s, v), y.deaths, Exact(y))
    requires v == w ==> View(y.s, w).Some? && View(y.s, w).value.state == S.Idle
    requires 0 < |Batch(y.q, max)| <= BATCH_SLOTS
    ensures var y' := Shipped(y, w, max, now); WorkerOk(y'.ws[v], View(y'.s, v), y'.deaths, Exact(y'))
  {
    var b, y' := Batch(y.q, max), Shipped(y, w, max, now);
    BatchSize(y.q, max);
    SentView(y.s, w, b, now, v);
    if v == w { SentWorker(y.ws[w], View(y.s, w).value, b, y.deaths, Exact(y)); }
    Weaker(y'.ws[v], View(y'.s, v), y.deaths, Exact(y), Exact(y'));
  }

  lemma ShippedTask(y: System, w: nat, max: nat, now: int, id: nat)
    requires w < |y.ws| && TablesOk(y) && TaskOk(y, id)
    ensures TaskOk(Shipped(y, w, max, now), id)
  {
    BatchSize(y.q, max);
    SentTask(y, w, max, now, id);
  }

  lemma SentSafe(y: System, w: nat, now: int)
    requires Safe(y) && Enabled(y, Dispatch(w, true, now))
    ensures Safe(Do(y, Dispatch(w, true, now)))
  {
    assert WorkerOk(y.ws[w], View(y.s, w), y.deaths, Exact(y));
    var max := BatchLimit(S.RowOf(y.s, w));
    var y' := Shipped(y, w, max, now);
    BatchSize(y.q, max);
    ShippedTables(y, w, max, now);
    forall id: nat ensures TaskOk(y', id) {
      assert TaskOk(y, id);
      ShippedTask(y, w, max, now, id);
    }
    forall v | 0 <= v < |y'.ws| ensures WorkerOk(y'.ws[v], View(y'.s, v), y'.deaths, Exact(y')) {
      assert WorkerOk(y.ws[v], View(y.s, v), y.deaths, Exact(y));
      ShippedWorker(y, w, max, now, v);
    }
    assert Do(y, Dispatch(w, true, now)) == y';
  }

  lemma FailedTask(y: System, q': Queue, id: nat)
    requires TaskOk(y, id) && InQueue(q', id) == InQueue(y.q, id) && Size(q') == Size(y.q)
    ensures TaskOk(y.(q := q'), id)
  {}

  lemma FailedSafe(y: System, w: nat, now: int)
    requires Safe(y) && Enabled(y, Dispatch(w, false, now))
    ensures Safe(Do(y, Dispatch(w, false, now)))
  {
    var max := BatchLimit(S.RowOf(y.s, w));
    var y' := Do(y, Dispatch(w, false, now));
    forall id: nat ensures InQueue(y.q, id) <= 1 { assert TaskOk(y, id); }
    RequeueRestores(y.q, max);
    forall id: nat ensures TaskOk(y', id) {
      assert TaskOk(y, id);
      FailedTask(y, y'.q, id);
    }
  }

  // Sweeping

  lemma SweepSafe(y: System, now: int)
    requires Safe(y)
    ensures Safe(Do(y, Sweep(now)))
  {
    var y' := Do(y, Sweep(now));
    S.SweepCounted(y.s, now, |y.s.workers|);
    forall v: nat | |y.ws| <= v ensures View(y'.s, v) == None { ViewSweep(y.s, now, v); }
    forall id: nat ensures TaskOk(y', id) { assert TaskOk(y, id); }
    forall v | 0 <= v < |y'.ws| ensures WorkerOk(y'.ws[v], View(y'.s, v), y'.deaths, Exact(y')) {
      assert WorkerOk(y.ws[v], View(y.s, v), y.deaths, Exact(y));
      ViewSweep(y.s, now, v);
    }
  }

  // Whole runs

  lemma ApplySafe(y: System, e: Event)
    requires Safe(y)
    ensures Safe(Apply(y, e))
  {
    if Enabled(y, e) {
      match e
      case Submit(t) => SubmitSafe(y, t);
      case Start(w, maxBatch, sent) => StartSafe(y, w, maxBatch, sent);
      case SendBeat(w, sent) => BeatSafe(y, w, sent);
      case Receive(w) => ReceiveSafe(y, w);
      case Begin(w) => BeginSafe(y, w);
      case Finish(w, status, sent) => FinishSafe(y, w, status, sent);
      case Handle(w, now) =>
        match y.ws[w].outbox[0] {
          case Hello(_) => HelloSafe(y, w, now);
          case Beat => BeatHandledSafe(y, w, now);
          case Done(_, _) => DoneSafe(y, w, now);
        }
      case Dispatch(w, sent, now) => if sent { SentSafe(y, w, now); } else { FailedSafe(y, w, now); }
      case Sweep(now) => SweepSafe(y, now);
    }
  }

  lemma InitTask(y: System, id: nat)
    requires Initial(y)
    ensures TaskOk(y, id)
  {
    NobodyHolds(y.ws, id);
    forall w | 0 <= w < |y.ws| ensures Held(y.ws[w], id) == 0 { HoldsNothing(y.ws[w], id); }
  }

  lemma VacantFit(q: Queue, capacity: nat)
    requires Vacant(q, capacity)
    ensures Fit(q, capacity)
  {}

  lemma UnstartedOk(x: Worker, exact: bool)
    requires Unstarted(x)
    ensures WorkerOk(x, None, false, exact)
  {
    VacantFit(x.local, LOCAL_CAPACITY);
    HoldsNothing(x, 0);
  }

  lemma InitTables(y: System)
    requires Initial(y)
    ensures TablesOk(y)
  {
    VacantFit(y.q, COORDINATOR_CAPACITY);
  }

  lemma InitSafe(y: System)
    requires Initial(y)
    ensures Safe(y)
  {
    InitTables(y);
    forall id: nat ensures TaskOk(y, id) { InitTask(y, id); }
    forall w | 0 <= w < |y.ws| ensures WorkerOk(y.ws[w], View(y.s, w), false, Exact(y)) {
      UnstartedOk(y.ws[w], Exact(y));
    }
  }

  lemma {:induction false} ExecKeepsSafe(y: System, es: seq<Event>)
    requires Safe(y)
    ensures Safe(Exec(y, es))
  {
    if es != [] {
      ExecKeepsSafe(y, es[..|es| - 1]);
      ApplySafe(Exec(y, es[..|es| - 1]), es[|es| - 1]);
    }
  }

  lemma ExecSafe(y: System, es: seq<Event>)
    requires Initial(y)
    ensures Safe(Exec(y, es))
  {
    InitSafe(y);
    ExecKeepsSafe(y, es);
  }

  // What the invariant says on every run

  /** Each submitted task is in exactly one place, and no other task is anywhere. */
  lemma ExactlyOnePlace(y0: System, es: seq<Event>, id: nat)
    requires Initial(y0)
    ensures var y := Exec(y0, es);
      InQueue(y.q, id) + HeldBy(y.ws, id) + InMessages(y.completed, |y.completed|, id)
        == if HasId(y.submitted, id) then 1 else 0
  {
    ExecSafe(y0, es);
    var y := Exec(y0, es);
    assert TaskOk(y, id);
    CountHolds(y.submitted, |y.submitted|, id);
  }

  /** No task is executed twice, by one worker or by two. */
  lemma ExecutedAtMostOnce(y0: System, es: seq<Event>, id: nat)
    requires Initial(y0)
    ensures CountOf(Exec(y0, es).executed, id) <= 1
  {
    ExecSafe(y0, es);
    var y := Exec(y0, es);
    assert TaskOk(y, id);
    BegunWithinHeld(y.ws, id);
  }

  /** As long as no worker was declared dead, no worker queue turned a task away. */
  lemma NoRejection(y0: System, es: seq<Event>, w: nat)
    requires Initial(y0)
    requires !Exec(y0, es).deaths && w < |Exec(y0, es).ws|
    ensures Exec(y0, es).ws[w].dropped == [] && Outstanding(Exec(y0, es).ws[w]) <= BATCH_SLOTS
  {
    ExecSafe(y0, es);
    var y := Exec(y0, es);
    assert WorkerOk(y.ws[w], View(y.s, w), y.deaths, Exact(y));
  }

  /** A failed send restores the queue's multiset of tasks and leaves everything else alone. */
  lemma FailedSendRestores(y0: System, es: seq<Event>, w: nat, now: int)
    requires Initial(y0)
    ensures var y := Exec(y0, es);
      var y' := Apply(y, Dispatch(w, false, now));
      && multiset(Contents(y'.q)) == multiset(Contents(y.q)) && Size(y'.q) == Size(y.q) && y' == y.(q := y'.q)
      && forall id: nat :: InQueue(y'.q, id) == InQueue(y.q, id)
  {
    ExecSafe(y0, es);
    var y := Exec(y0, es);
    forall i: nat ensures InQueue(y.q, i) <= 1 { assert TaskOk(y, i); }
    if Enabled(y, Dispatch(w, false, now)) { RequeueRestores(y.q, BatchLimit(S.RowOf(y.s, w))); }
  }

  /** As long as at most 100000 tasks were dispatched, a worker's running count is what it has outstanding, dead or
      alive, and a busy worker has something outstanding. */
  lemma RunningIsOutstanding(y0: System, es: seq<Event>, w: nat)
    requires Initial(y0)
    requires var y := Exec(y0, es); |y.submitted| - Size(y.q) <= S.MAX_TRACKED_TASKS && w < |y.ws| && S.Knows(y.s, w)
    ensures var y := Exec(y0, es);
      && S.RowOf(y.s, w).running == Outstanding(y.ws[w])
      && (S.RowOf(y.s, w).state == S.Busy ==> Outstanding(y.ws[w]) > 0)
  {
    ExecSafe(y0, es);
    var y := Exec(y0, es);
    assert WorkerOk(y.ws[w], View(y.s, w), y.deaths, Exact(y));
  }

  /** A tracking table with room means exactly the dispatched tasks are tracked. */
  lemma RoomMeansAllTracked(y0: System, es: seq<Event>)
    requires Initial(y0) && |Exec(y0, es).s.tasks| < S.MAX_TRACKED_TASKS
    ensures var y := Exec(y0, es); |y.submitted| - Size(y.q) == |y.s.tasks|
  {
    ExecSafe(y0, es);
  }

  /** While the tracking table has room, running is outstanding, and a busy worker whose queue refused nothing and whose
      answers were all sent has something left to finish. */
  lemma BusyHasWork(y0: System, es: seq<Event>, w: nat)
    requires Initial(y0)
    requires var y := Exec(y0, es); |y.s.tasks| < S.MAX_TRACKED_TASKS && w < |y.ws| && S.Knows(y.s, w)
    ensures var y := Exec(y0, es);
      && S.RowOf(y.s, w).running == Outstanding(y.ws[w])
      && (S.RowOf(y.s, w).state == S.Busy && y.ws[w].dropped == [] && y.ws[w].lost == [] ==> Unfinished(y.ws[w]) > 0)
  {
    RoomMeansAllTracked(y0, es);
    RunningIsOutstanding(y0, es, w);
  }

  /** The scheduler's counters stay exact and its worker ids distinct. */
  lemma CountersStayExact(y0: System, es: seq<Event>)
    requires Initial(y0)
    ensures S.Counted(Exec(y0, es).s)
  {
    ExecSafe(y0, es);
  }
}
