/** What the counters and rows of the tables say about the run that made them. */
module SchedRuns {
  import opened Wrappers
  import opened SchedSpec
  import opened TableViews
  import opened Batches

  // Ids stay distinct on every run, careful or not

  lemma RegisterDistinct(s: Sched, info: WorkerInfo, now: int)
    requires DistinctIds(s.workers)
    ensures DistinctIds(Register(s, info, now).workers)
  {}

  lemma RowsKeepIds(ws: seq<WorkerInfo>, ws': seq<WorkerInfo>)
    requires DistinctIds(ws) && |ws'| == |ws| && forall k | 0 <= k < |ws| :: ws'[k].id == ws[k].id
    ensures DistinctIds(ws')
  {}

  lemma StepDistinct(s: Sched, op: Op)
    requires DistinctIds(s.workers)
    ensures DistinctIds(Step(s, op).workers)
  {
    match op
    case RegisterOp(info, now) => RegisterDistinct(s, info, now);
    case UnregisterOp(id) => if Knows(s, id) { SwapRemoveKeepsIds(s.workers, IndexOf(s.workers, id)); }
    case HeartbeatOp(_, _) => RowsKeepIds(s.workers, Step(s, op).workers);
    case BusyOp(_, _) => RowsKeepIds(s.workers, Step(s, op).workers);
    case IdleOp(_) => RowsKeepIds(s.workers, Step(s, op).workers);
    case TrackOp(_, _, _) =>
    case CompleteOp(_, _) => RowsKeepIds(s.workers, Step(s, op).workers);
    case TimeoutsOp(_) => RowsKeepIds(s.workers, Step(s, op).workers);
  }

  lemma {:induction false} RunDistinct(maxWorkers: nat, timeout: int, ops: seq<Op>)
    ensures DistinctIds(Run(New(maxWorkers, timeout), ops).workers)
  {
    if ops != [] {
      RunDistinct(maxWorkers, timeout, ops[..|ops| - 1]);
      StepDistinct(Run(New(maxWorkers, timeout), ops[..|ops| - 1]), ops[|ops| - 1]);
    }
  }

  // The totals

  /** The result is of a tracked task whose worker is registered. */
  predicate Credits(s: Sched, op: Op) {
    op.CompleteOp? && Tracks(s, op.task) && Knows(s, OwnerOf(s, op.task))
  }

  /** How many results with status zero, or with another status, were credited. */
  ghost function Results(s: Sched, ops: seq<Op>, good: bool): nat {
    if ops == [] then 0
    else
      var front, op := ops[..|ops| - 1], ops[|ops| - 1];
      Results(s, front, good) + if Credits(Run(s, front), op) && (op.status == 0) == good then 1 else 0
  }

  /** How many workers registered that were not in the table. */
  ghost function Arrivals(s: Sched, ops: seq<Op>): nat {
    if ops == [] then 0
    else
      var front, op := ops[..|ops| - 1], ops[|ops| - 1];
      var t := Run(s, front);
      Arrivals(s, front) + if op.RegisterOp? && |t.workers| < t.maxWorkers && !Knows(t, op.info.id) then 1 else 0
  }

  lemma StepTotals(s: Sched, op: Op)
    ensures var t, t' := s.stats, Step(s, op).stats;
      && t'.completed == t.completed + (if Credits(s, op) && op.status == 0 then 1 else 0)
      && t'.failed == t.failed + (if Credits(s, op) && op.status != 0 then 1 else 0)
      && t'.total == t.total + if op.RegisterOp? && |s.workers| < s.maxWorkers && !Knows(s, op.info.id) then 1 else 0
  {
    if op.TimeoutsOp? { SweepTotals(s, op.now, |s.workers|); }
  }

  lemma {:induction false} SweepTotals(s: Sched, now: int, n: nat)
    requires n <= |s.workers|
    ensures var t, t' := s.stats, Sweep(s, now, n).stats;
      t'.completed == t.completed && t'.failed == t.failed && t'.total == t.total
  {
    if n > 0 { SweepTotals(s, now, n - 1); }
  }

  /** On every run the totals count the credited results by their status, and the workers that joined. */
  lemma {:induction false} RunTotals(maxWorkers: nat, timeout: int, ops: seq<Op>)
    ensures var s := New(maxWorkers, timeout);
      && Run(s, ops).stats.completed == Results(s, ops, true) && Run(s, ops).stats.failed == Results(s, ops, false)
      && Run(s, ops).stats.total == Arrivals(s, ops)
  {
    var s := New(maxWorkers, timeout);
    if ops != [] {
      RunTotals(maxWorkers, timeout, ops[..|ops| - 1]);
      StepTotals(Run(s, ops[..|ops| - 1]), ops[|ops| - 1]);
    }
  }

  // The rows

  /** What one operation means for one worker, whatever else is in the tables: `owner` is the worker a result is for. */
  ghost function Told(row: Option<WorkerInfo>, op: Op, id: nat, room: bool, owner: Option<nat>, timeout: int)
    : Option<WorkerInfo>
  {
    if op.RegisterOp? && op.info.id == id && room then
      // a first registration is dated, a repeated one is not
      var r := op.info.(state := Idle, lastHeartbeat := op.now);
      Some(if row.None? then r.(registered := op.now) else r)
    else if row.None? || (op.UnregisterOp? && op.id == id) then None
    else
      var r := row.value;
      if op.HeartbeatOp? && op.id == id then
        Some(if r.state == Dead then r.(lastHeartbeat := op.now, state := Idle) else r.(lastHeartbeat := op.now))
      else if op.BusyOp? && op.id == id then
        Some(r.(running := r.running + op.n, state := if r.state == Idle then Busy else r.state))
      else if op.IdleOp? && op.id == id then
        Some(r.(running := 0, state := if r.state == Busy then Idle else r.state))
      else if op.CompleteOp? && owner == Some(id) then
        var left := if r.running == 0 then 0 else r.running - 1;
        Some(r.(running := left, state := if left == 0 && r.state == Busy then Idle else r.state,
                completed := r.completed + (if op.status == 0 then 1 else 0),
                failed := r.failed + (if op.status == 0 then 0 else 1)))
      else if op.TimeoutsOp? && op.now - r.lastHeartbeat > timeout then Some(r.(state := Dead))
      else row
  }

  /** The story of one worker over a run. */
  ghost function Story(s: Sched, ops: seq<Op>, id: nat): Option<WorkerInfo> {
    if ops == [] then None
    else
      var front, op := ops[..|ops| - 1], ops[|ops| - 1];
      var t := Run(s, front);
      Told(Story(s, front, id), op, id, |t.workers| < t.maxWorkers,
           if op.CompleteOp? then OwnerIn(s, front, op.task) else None, s.timeout)
  }

  /** The worker a task was first tracked for, while the table had room. */
  ghost function OwnerIn(s: Sched, ops: seq<Op>, task: nat): Option<nat> {
    if ops == [] then None
    else
      var front, op := ops[..|ops| - 1], ops[|ops| - 1];
      var t := Run(s, front);
      if op.TrackOp? && op.task == task && |t.tasks| < t.maxTasks && OwnerIn(s, front, task).None? then Some(op.worker)
      else OwnerIn(s, front, task)
  }

  lemma StepOwner(s: Sched, op: Op, task: nat)
    ensures Owner(Step(s, op), task)
         == if op.TrackOp? && op.task == task && |s.tasks| < s.maxTasks && Owner(s, task).None? then Some(op.worker)
            else Owner(s, task)
  {
    if op.TrackOp? { TrackOwner(s, op.task, op.worker, op.now, task); }
    if op.CompleteOp? { OwnerComplete(s, op.task, op.status, task); }
  }

  lemma {:induction false} OwnersTell(maxWorkers: nat, timeout: int, ops: seq<Op>, task: nat)
    ensures var s := New(maxWorkers, timeout); Owner(Run(s, ops), task) == OwnerIn(s, ops, task)
  {
    if ops != [] {
      OwnersTell(maxWorkers, timeout, ops[..|ops| - 1], task);
      StepOwner(Run(New(maxWorkers, timeout), ops[..|ops| - 1]), ops[|ops| - 1], task);
    }
  }

  lemma ViewRegisterKnown(s: Sched, info: WorkerInfo, now: int, v: nat)
    requires Knows(s, info.id) && RegisterCode(s) == OK
    ensures View(Register(s, info, now), v)
         == if v == info.id then Some(info.(state := Idle, lastHeartbeat := now)) else View(s, v)
  {
    ViewUpdate(s, Register(s, info, now), info.(state := Idle, lastHeartbeat := now), v);
  }

  lemma ViewMarkIdle(s: Sched, id: nat, v: nat)
    ensures View(MarkIdle(s, id), v)
         == if v == id && View(s, v).Some?
            then var r := View(s, v).value; Some(r.(running := 0, state := if r.state == Busy then Idle else r.state))
            else View(s, v)
  {
    if Knows(s, id) {
      var w := RowOf(s, id).(running := 0);
      ViewUpdate(s, MarkIdle(s, id), if w.state != Busy then w else w.(state := Idle), v);
    }
  }

  lemma RegisterTold(s: Sched, info: WorkerInfo, now: int, id: nat)
    ensures View(Register(s, info, now), id)
         == Told(View(s, id), RegisterOp(info, now), id, |s.workers| < s.maxWorkers, None, s.timeout)
  {
    if RegisterCode(s) == OK {
      if Knows(s, info.id) { ViewRegisterKnown(s, info, now, id); } else { ViewRegister(s, info, now, id); }
    }
  }

  lemma MarkTold(s: Sched, op: Op, id: nat, room: bool)
    requires op.HeartbeatOp? || op.BusyOp? || op.IdleOp?
    ensures View(Step(s, op), id) == Told(View(s, id), op, id, room, None, s.timeout)
  {
    match op
    case HeartbeatOp(v, now) => ViewHeartbeat(s, v, now, id);
    case BusyOp(v, n) => ViewMarkBusy(s, v, n, id);
    case IdleOp(v) => ViewMarkIdle(s, v, id);
  }

  lemma CompleteTold(s: Sched, task: nat, status: int, id: nat, room: bool)
    requires DistinctIds(s.workers)
    ensures View(Complete(s, task, status), id)
         == Told(View(s, id), CompleteOp(task, status), id, room, Owner(s, task), s.timeout)
  {
    ViewComplete(s, task, status, id);
  }

  lemma SweepTold(s: Sched, now: int, id: nat, room: bool)
    requires DistinctIds(s.workers)
    ensures View(CheckTimeouts(s, now), id) == Told(View(s, id), TimeoutsOp(now), id, room, None, s.timeout)
  {
    ViewSweep(s, now, id);
  }

  lemma StepTold(s: Sched, op: Op, id: nat, room: bool, owner: Option<nat>)
    requires DistinctIds(s.workers)
    requires room == (|s.workers| < s.maxWorkers) && owner == if op.CompleteOp? then Owner(s, op.task) else None
    ensures View(Step(s, op), id) == Told(View(s, id), op, id, room, owner, s.timeout)
  {
    match op
    case RegisterOp(info, now) => RegisterTold(s, info, now, id);
    case UnregisterOp(v) => ViewUnregister(s, v, id);
    case TrackOp(task, worker, now) =>
    case CompleteOp(task, status) => CompleteTold(s, task, status, id, room);
    case TimeoutsOp(now) => SweepTold(s, now, id, room);
    case _ => MarkTold(s, op, id, room);
  }

  lemma StepTimeout(s: Sched, op: Op)
    ensures Step(s, op).timeout == s.timeout
  {
    if op.TimeoutsOp? { SweepTimeout(s, op.now, |s.workers|); }
  }

  lemma {:induction false} SweepTimeout(s: Sched, now: int, n: nat)
    requires n <= |s.workers|
    ensures Sweep(s, now, n).timeout == s.timeout
  {
    if n > 0 { SweepTimeout(s, now, n - 1); }
  }

  /** On every run each worker's row is the story of that worker alone. */
  lemma {:induction false} RowsTell(maxWorkers: nat, timeout: int, ops: seq<Op>, id: nat)
    ensures var s := New(maxWorkers, timeout); View(Run(s, ops), id) == Story(s, ops, id) && Run(s, ops).timeout == timeout
  {
    if ops != [] {
      var front, op := ops[..|ops| - 1], ops[|ops| - 1];
      RowsTell(maxWorkers, timeout, front, id);
      RunDistinct(maxWorkers, timeout, front);
      if op.CompleteOp? { OwnersTell(maxWorkers, timeout, front, op.task); }
      var t := Run(New(maxWorkers, timeout), front);
      StepTold(t, op, id, |t.workers| < t.maxWorkers, if op.CompleteOp? then Owner(t, op.task) else None);
      StepTimeout(t, op);
    }
  }

  // The task table

  ghost function TaskRow(s: Sched, task: nat): Option<TaskInfo> {
    if Tracks(s, task) then Some(s.tasks[TaskIndex(s.tasks, task)]) else None
  }

  /** What one operation means for one task: -1, pending, once tracked, then the status of the latest result. */
  ghost function Noted(row: Option<TaskInfo>, op: Op, task: nat, room: bool): Option<TaskInfo> {
    if op.TrackOp? && op.task == task && row.None? && room then Some(TaskInfo(task, op.worker, op.now, op.now, -1))
    else if op.CompleteOp? && op.task == task && row.Some? then Some(row.value.(status := op.status))
    else row
  }

  ghost function TaskStory(s: Sched, ops: seq<Op>, task: nat): Option<TaskInfo> {
    if ops == [] then None
    else
      var t := Run(s, ops[..|ops| - 1]);
      Noted(TaskStory(s, ops[..|ops| - 1], task), ops[|ops| - 1], task, |t.tasks| < t.maxTasks)
  }

  lemma NotedTracked(s: Sched, op: Op, id: nat)
    requires op.TrackOp?
    ensures TaskRow(Step(s, op), id) == Noted(TaskRow(s, id), op, id, |s.tasks| < s.maxTasks)
  {
    var s' := Step(s, op);
    var i, i' := TaskIndex(s.tasks, id), TaskIndex(s'.tasks, id);
    if |s.tasks| < s.maxTasks {
      assert i < |s.tasks| ==> s'.tasks[i] == s.tasks[i];
      assert i' < |s.tasks| ==> s'.tasks[i'] == s.tasks[i'];
      assert s'.tasks[|s.tasks|].id == op.task;
    }
  }

  lemma NotedCompleted(s: Sched, op: Op, id: nat)
    requires op.CompleteOp?
    ensures TaskRow(Step(s, op), id) == Noted(TaskRow(s, id), op, id, |s.tasks| < s.maxTasks)
  {
    var s' := Step(s, op);
    if Tracks(s, op.task) {
      var i, i' := TaskIndex(s.tasks, id), TaskIndex(s'.tasks, id);
      assert forall k | 0 <= k < |s.tasks| :: s'.tasks[k].id == s.tasks[k].id;
      assert i < |s.tasks| ==> s'.tasks[i].id == id;
      assert i' < |s.tasks| ==> s.tasks[i'].id == id;
    }
  }

  lemma StepNoted(s: Sched, op: Op, task: nat)
    ensures TaskRow(Step(s, op), task) == Noted(TaskRow(s, task), op, task, |s.tasks| < s.maxTasks)
  {
    if op.TrackOp? { NotedTracked(s, op, task); }
    if op.CompleteOp? { NotedCompleted(s, op, task); }
  }

  /** On every run each tracked task's row is the story of that task alone. */
  lemma {:induction false} TasksTell(maxWorkers: nat, timeout: int, ops: seq<Op>, task: nat)
    ensures var s := New(maxWorkers, timeout); TaskRow(Run(s, ops), task) == TaskStory(s, ops, task)
  {
    if ops != [] {
      TasksTell(maxWorkers, timeout, ops[..|ops| - 1], task);
      StepNoted(Run(New(maxWorkers, timeout), ops[..|ops| - 1]), ops[|ops| - 1], task);
    }
  }
}
