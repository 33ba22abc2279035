/** Workers that stay busy because the tracking table had no room for a task that was sent to them. */
module Stranded {
  import opened Wrappers
  import opened QueueSpec
  import opened Batches
  import opened CoordSpec
  import opened Protocol
  import opened Places
  import opened TableViews
  import opened Safety
  import opened Stuck
  import opened Cycle
  import S = SchedSpec

  ghost predicate IsBusy(y: System, w: nat) {
    w < |y.ws| && View(y.s, w).Some? && View(y.s, w).value.state == S.Busy
  }

  /** The table is full without the task, so that its result will be ignored. */
  ghost predicate Untracked(s: S.Sched, id: nat) {
    Owner(s, id) == None && |s.tasks| >= s.maxTasks
  }

  /** The worker still holds the task, or more is counted as running than it has outstanding. */
  ghost predicate Overbooked(x: Worker, r: S.WorkerInfo, id: nat) {
    Held(x, id) > 0 || r.running > Outstanding(x)
  }

  ghost predicate IsStranded(y: System, w: nat, id: nat) {
    IsBusy(y, w) && Untracked(y.s, id) && Overbooked(y.ws[w], View(y.s, w).value, id)
  }

  // One event

  /** The result of another, tracked task leaves an overbooked worker busy. */
  lemma TrackedResult(x: Worker, r: S.WorkerInfo, id: nat, status: int)
    requires Overbooked(x, r, id) && r.running >= Outstanding(x) && r.state == S.Busy
    requires x.outbox != [] && x.outbox[0].Done? && x.outbox[0].task != id
    ensures Settled(r, status).state == S.Busy && Overbooked(Popped(x), Settled(r, status), id)
  {
    PoppedHeld(x, id);
    HeldOutstanding(Popped(x), id);
  }

  /** An ignored result leaves one more counted as running than is outstanding. */
  lemma IgnoredResult(x: Worker, r: S.WorkerInfo, id: nat)
    requires r.running >= Outstanding(x) && x.outbox != [] && x.outbox[0].Done?
    ensures Overbooked(Popped(x), r, id)
  {
    PoppedHeld(x, id);
  }

  lemma OwnDone(y: System, w: nat, id: nat)
    requires Safe(y) && IsStranded(y, w, id) && y.ws[w].outbox != [] && y.ws[w].outbox[0].Done?
    ensures var m := y.ws[w].outbox[0];
      var view := View(S.Complete(y.s, m.task, m.status), w);
      view.Some? && view.value.state == S.Busy && Overbooked(Popped(y.ws[w]), view.value, id)
  {
    var x, m, r := y.ws[w], y.ws[w].outbox[0], View(y.s, w).value;
    assert WorkerOk(x, View(y.s, w), y.deaths, Exact(y));
    ViewComplete(y.s, m.task, m.status, w);
    if Owner(y.s, m.task) == Some(w) { TrackedResult(x, r, id, m.status); } else { IgnoredResult(x, r, id); }
  }

  lemma CompleteUntracked(s: S.Sched, task: nat, status: int, id: nat)
    requires Untracked(s, id)
    ensures Untracked(S.Complete(s, task, status), id)
  {
    OwnerComplete(s, task, status, id);
  }

  lemma StrandedThroughDone(y: System, w: nat, id: nat, v: nat, now: int)
    requires Safe(y) && IsStranded(y, w, id) && Enabled(y, Handle(v, now)) && y.ws[v].outbox[0].Done?
    ensures IsStranded(Do(y, Handle(v, now)), w, id)
  {
    var m := y.ws[v].outbox[0];
    CompleteUntracked(y.s, m.task, m.status, id);
    if v == w { OwnDone(y, w, id); } else { OthersDone(y, w, v); }
  }

  lemma StrandedThroughHello(y: System, w: nat, id: nat, v: nat, now: int)
    requires Safe(y) && IsStranded(y, w, id) && Enabled(y, Handle(v, now)) && y.ws[v].outbox[0].Hello?
    ensures IsStranded(Do(y, Handle(v, now)), w, id)
  {
    assert WorkerOk(y.ws[v], View(y.s, v), y.deaths, Exact(y));
    ViewRegister(y.s, NewWorker(v, 1, y.ws[v].outbox[0].maxBatch, 0, now), now, w);
  }

  lemma StrandedThroughBeat(y: System, w: nat, id: nat, v: nat, now: int)
    requires IsStranded(y, w, id) && Enabled(y, Handle(v, now)) && y.ws[v].outbox[0].Beat?
    ensures IsStranded(Do(y, Handle(v, now)), w, id)
  {
    PoppedHeld(y.ws[v], id);
    ViewHeartbeat(y.s, v, now, w);
  }

  lemma StrandedThroughHandle(y: System, w: nat, id: nat, v: nat, now: int)
    requires Safe(y) && IsStranded(y, w, id) && Enabled(y, Handle(v, now))
    ensures IsStranded(Do(y, Handle(v, now)), w, id)
  {
    match y.ws[v].outbox[0]
    case Hello(_) => StrandedThroughHello(y, w, id, v, now);
    case Beat => StrandedThroughBeat(y, w, id, v, now);
    case Done(_, _) => StrandedThroughDone(y, w, id, v, now);
  }

  /** A step a worker takes on its own. */
  predicate IsOwn(e: Event) {
    e.Start? || e.SendBeat? || e.Receive? || e.Begin? || e.Finish?
  }

  predicate MayStep(x: Worker, e: Event) {
    && IsOwn(e) && (e.SendBeat? ==> x.started) && (e.Receive? ==> x.inbox != [])
    && (e.Begin? ==> x.executing.None? && MayReserve(x) && Next(x.local).Some?) && (e.Finish? ==> x.executing.Some?)
  }

  function Stepped(x: Worker, e: Event): Worker
    requires MayStep(x, e)
  {
    match e
    case Start(_, maxBatch, sent) => Started(x, maxBatch, sent)
    case SendBeat(_, sent) => Beaten(x, sent)
    case Receive(_) => Received(x)
    case Begin(_) => Begun(x)
    case Finish(_, status, sent) => Finished(x, status, sent)
  }

  /** Such a step changes neither what the worker holds nor what it has outstanding. */
  lemma SteppedHeld(x: Worker, e: Event, id: nat)
    requires MayStep(x, e)
    ensures Held(Stepped(x, e), id) == Held(x, id) && Outstanding(Stepped(x, e)) == Outstanding(x)
  {
    match e
    case Start(_, maxBatch, sent) => SaidHeld(x, Hello(maxBatch), id);
    case SendBeat(_, sent) =>
      assert x.(started := true) == x;
      SaidHeld(x, Beat, id);
    case Receive(_) => ReceivedHeld(x, id);
    case Begin(_) => BegunHeld(x, id);
    case Finish(_, status, sent) => FinishedHeld(x, status, sent, id);
  }

  lemma OwnStep(y: System, e: Event)
    requires Safe(y) && Enabled(y, e) && IsOwn(e)
    ensures MayStep(y.ws[e.w], e) && Do(y, e).s == y.s && Do(y, e).ws == y.ws[e.w := Stepped(y.ws[e.w], e)]
  {
    assert WorkerOk(y.ws[e.w], View(y.s, e.w), y.deaths, Exact(y));
  }

  lemma StrandedThroughOwn(y: System, w: nat, id: nat, e: Event)
    requires Safe(y) && IsStranded(y, w, id) && Enabled(y, e) && IsOwn(e)
    ensures IsStranded(Do(y, e), w, id)
  {
    OwnStep(y, e);
    SteppedHeld(y.ws[e.w], e, id);
  }

  lemma {:induction false} FullTracksNothing(s: S.Sched, b: seq<Task>, n: nat, worker: nat, now: int)
    requires n <= |b| && |s.tasks| >= s.maxTasks
    ensures TrackFirst(s, b, n, worker, now) == s
  {
    if n > 0 { FullTracksNothing(s, b, n - 1, worker, now); }
  }

  lemma StrandedThroughDispatch(y: System, w: nat, id: nat, v: nat, sent: bool, now: int)
    requires IsStranded(y, w, id) && Enabled(y, Dispatch(v, sent, now))
    ensures IsStranded(Do(y, Dispatch(v, sent, now)), w, id)
  {
    var b := Batch(y.q, BatchLimit(S.RowOf(y.s, v)));
    ViewDispatched(y.s, b, v, sent, now, w);
    FullTracksNothing(S.MarkBusy(y.s, v, |b|), b, |b|, v, now);
  }

  /** A stranded worker is still stranded after an event if and only if the event is not a sweep that declares it dead. */
  lemma StrandedUntilExpired(y: System, w: nat, id: nat, e: Event)
    requires Safe(y) && IsStranded(y, w, id)
    ensures IsStranded(Apply(y, e), w, id) <==> !Expires(y, w, e)
  {
    if Enabled(y, e) {
      match e
      case Submit(t) =>
      case Handle(v, now) => StrandedThroughHandle(y, w, id, v, now);
      case Dispatch(v, sent, now) => StrandedThroughDispatch(y, w, id, v, sent, now);
      case Sweep(now) => ViewSweep(y.s, now, w);
      case _ => StrandedThroughOwn(y, w, id, e);
    }
  }

  // Whole continuations

  lemma {:induction false} StrandedForGood(y: System, w: nat, id: nat, es: seq<Event>)
    requires Safe(y) && IsStranded(y, w, id) && Spared(y, w, es)
    ensures IsStranded(Exec(y, es), w, id)
  {
    if es != [] {
      StrandedForGood(y, w, id, es[..|es| - 1]);
      ExecKeepsSafe(y, es[..|es| - 1]);
      StrandedUntilExpired(Exec(y, es[..|es| - 1]), w, id, es[|es| - 1]);
    }
  }

  /** The last task of a batch that the table has no room for stays untracked. */
  lemma LastRefused(s: S.Sched, b: seq<Task>, w: nat, now: int)
    requires b != [] && |s.tasks| <= s.maxTasks < |s.tasks| + |b|
    requires var id := b[|b| - 1].id; Owner(s, id) == None && CountOf(b, id) <= 1
    ensures Untracked(TrackFirst(s, b, |b|, w, now), b[|b| - 1].id)
  {
    var n, id := |b| - 1, b[|b| - 1].id;
    TrackOwners(s, b, n, w, now, id);
    TrackKeeps(s, b, n, w, now);
    assert CountTo(b, n + 1, id) == CountTo(b, n, id) + 1;
  }

  /** The batch the coordinator takes for worker w. */
  function BatchFor(y: System, w: nat): seq<Task>
    requires S.Knows(y.s, w)
  {
    Batch(y.q, BatchLimit(S.RowOf(y.s, w)))
  }

  lemma QueuedOnce(y: System, b: seq<Task>, max: nat)
    requires Safe(y) && b == Batch(y.q, max) && b != []
    ensures var id := b[|b| - 1].id; Owner(y.s, id) == None && CountOf(b, id) == 1
  {
    var id := b[|b| - 1].id;
    assert TaskOk(y, id);
    BatchCount(y.q, max, id);
    assert CountTo(b, |b|, id) == CountTo(b, |b| - 1, id) + 1;
  }

  /** The next batch for worker w will be sent, and the tracking table has no room for all of it. */
  ghost predicate LacksRoom(y: System, w: nat, now: int) {
    Enabled(y, Dispatch(w, true, now)) && |y.s.tasks| + |BatchFor(y, w)| > S.MAX_TRACKED_TASKS
  }

  lemma RefusedTask(y: System, w: nat, now: int)
    requires Safe(y) && LacksRoom(y, w, now)
    ensures BatchFor(y, w) != []
    ensures var b := BatchFor(y, w);
      Untracked(Do(y, Dispatch(w, true, now)).s, b[|b| - 1].id) && CountOf(b, b[|b| - 1].id) > 0
  {
    var b := BatchFor(y, w);
    BatchSize(y.q, BatchLimit(S.RowOf(y.s, w)));
    QueuedOnce(y, b, BatchLimit(S.RowOf(y.s, w)));
    LastRefused(S.MarkBusy(y.s, w, |b|), b, w, now);
  }

  lemma RefusedLeavesStranded(y: System, w: nat, now: int)
    requires Safe(y) && LacksRoom(y, w, now)
    ensures var b := BatchFor(y, w); b != [] && IsStranded(Do(y, Dispatch(w, true, now)), w, b[|b| - 1].id)
  {
    RefusedTask(y, w, now);
    var b := BatchFor(y, w);
    SentHeld(y.ws[w], b, b[|b| - 1].id);
    ViewDispatched(y.s, b, w, true, now, w);
  }

  lemma RefusedStaysBusy(y: System, w: nat, now: int, es: seq<Event>)
    requires Safe(y) && LacksRoom(y, w, now) && Spared(Apply(y, Dispatch(w, true, now)), w, es)
    ensures IsBusy(Exec(Apply(y, Dispatch(w, true, now)), es), w)
  {
    RefusedLeavesStranded(y, w, now);
    ApplySafe(y, Dispatch(w, true, now));
    var b := BatchFor(y, w);
    StrandedForGood(Apply(y, Dispatch(w, true, now)), w, b[|b| - 1].id, es);
  }

  /** A worker sent a batch that the tracking table has no room for is busy from then on, whatever happens, until a
      sweep declares it dead. */
  lemma NoRoomLeavesBusy(y0: System, past: seq<Event>, w: nat, now: int, es: seq<Event>)
    requires Initial(y0) && LacksRoom(Exec(y0, past), w, now)
    requires Spared(Apply(Exec(y0, past), Dispatch(w, true, now)), w, es)
    ensures IsBusy(Exec(Apply(Exec(y0, past), Dispatch(w, true, now)), es), w)
  {
    ExecSafe(y0, past);
    RefusedStaysBusy(Exec(y0, past), w, now, es);
  }

  // Runs that fill the table

  /** There is no room although worker w is free, has lost no answer, and nobody has died. */
  ghost predicate OutOfRoom(y: System, w: nat, now: int) {
    LacksRoom(y, w, now) && Free(y.ws[w]) && !y.deaths
  }

  lemma NextLacksRoom(y: System, w: nat, n: nat, now: int)
    requires Rested(y, w, n) && n == S.MAX_TRACKED_TASKS
    ensures OutOfRoom(Apply(y, Submit(Plain(n))), w, now)
  {
    FreshId(y, w, n);
    RunsNext(y, w, n, Plain(n), now);
    RestedRows(y, w, n);
    var y' := Apply(y, Submit(Plain(n)));
    BatchSize(y'.q, BatchLimit(S.RowOf(y'.s, w)));
  }

  lemma ThenLacksRoom(y0: System, es: seq<Event>, w: nat, n: nat, now: int)
    requires Rested(Exec(y0, es), w, n) && n == S.MAX_TRACKED_TASKS
    ensures OutOfRoom(Exec(y0, es + [Submit(Plain(n))]), w, now)
  {
    NextLacksRoom(Exec(y0, es), w, n, now);
    ExecAppend(y0, es, Submit(Plain(n)));
  }

  /** On every system with a worker w there is a run that leads there. */
  lemma RoomRunsOut(y0: System, w: nat, now: int)
    requires Initial(y0) && w < |y0.ws|
    ensures exists past: seq<Event> :: OutOfRoom(Exec(y0, past), w, now)
  {
    var n: nat := S.MAX_TRACKED_TASKS;
    CanWorkOff(y0, w, now, n);
    var es: seq<Event> :| Rested(Exec(y0, es), w, n);
    ThenLacksRoom(y0, es, w, n, now);
  }
}
