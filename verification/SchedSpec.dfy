/** The coordinator's worker and task tables as values, and what their operations keep over whole runs. */
module SchedSpec {
  const OK := 0
  const REFUSED := -2
  const PENDING := -1
  const MAX_TRACKED_TASKS := 100000

  datatype WorkerState = Unknown | Idle | Busy | Dead

  datatype WorkerInfo = WorkerInfo(id: nat, state: WorkerState, lastHeartbeat: int, registered: int,
                                   numLocalRanks: nat, maxBatchSize: nat, capabilities: nat,
                                   running: nat, completed: nat, failed: nat)

  datatype TaskInfo = TaskInfo(id: nat, worker: nat, submitted: int, started: int, status: int)

  /** Unsigned in the source; integers here, so that a decrement below zero shows as a negative number. */
  datatype Stats = Stats(total: int, active: int, idle: int, busy: int, dead: int,
                         scheduled: int, completed: int, failed: int)

  datatype Sched = Sched(workers: seq<WorkerInfo>, tasks: seq<TaskInfo>, stats: Stats,
                         maxWorkers: nat, maxTasks: nat, timeout: int)

  function New(maxWorkers: nat, timeout: int): Sched {
    Sched([], [], Stats(0, 0, 0, 0, 0, 0, 0, 0), maxWorkers, MAX_TRACKED_TASKS, timeout)
  }

  /** First row of the worker, or the table's length. */
  function IndexOf(ws: seq<WorkerInfo>, id: nat): (i: nat)
    ensures i <= |ws| && (forall k | 0 <= k < i :: ws[k].id != id) && (i < |ws| ==> ws[i].id == id)
  {
    IndexFrom(ws, id, 0)
  }

  function IndexFrom(ws: seq<WorkerInfo>, id: nat, from: nat): (i: nat)
    requires from <= |ws|
    ensures from <= i <= |ws| && (forall k | from <= k < i :: ws[k].id != id) && (i < |ws| ==> ws[i].id == id)
    decreases |ws| - from
  {
    if from == |ws| || ws[from].id == id then from else IndexFrom(ws, id, from + 1)
  }

  /** First row tracking the task, or the table's length. */
  function TaskIndex(ts: seq<TaskInfo>, id: nat): (i: nat)
    ensures i <= |ts| && (forall k | 0 <= k < i :: ts[k].id != id) && (i < |ts| ==> ts[i].id == id)
  {
    TaskIndexFrom(ts, id, 0)
  }

  function TaskIndexFrom(ts: seq<TaskInfo>, id: nat, from: nat): (i: nat)
    requires from <= |ts|
    ensures from <= i <= |ts| && (forall k | from <= k < i :: ts[k].id != id) && (i < |ts| ==> ts[i].id == id)
    decreases |ts| - from
  {
    if from == |ts| || ts[from].id == id then from else TaskIndexFrom(ts, id, from + 1)
  }

  predicate Knows(s: Sched, id: nat) {
    IndexOf(s.workers, id) < |s.workers|
  }

  function RowOf(s: Sched, id: nat): WorkerInfo
    requires Knows(s, id)
  {
    s.workers[IndexOf(s.workers, id)]
  }

  // Operations

  function RegisterCode(s: Sched): int {
    if |s.workers| >= s.maxWorkers then REFUSED else OK
  }

  /** A full table refuses even a known worker; a known worker's row is overwritten and the counters are left alone. */
  function Register(s: Sched, info: WorkerInfo, now: int): Sched {
    if RegisterCode(s) != OK then s
    else if Knows(s, info.id) then
      s.(workers := s.workers[IndexOf(s.workers, info.id) := info.(state := Idle, lastHeartbeat := now)])
    else
      s.(workers := s.workers + [info.(state := Idle, lastHeartbeat := now, registered := now)],
         stats := s.stats.(total := s.stats.total + 1, active := s.stats.active + 1, idle := s.stats.idle + 1))
  }

  /** The counters after a worker in the given state leaves the live ones. */
  function Retired(stats: Stats, state: WorkerState): Stats {
    match state
    case Dead => stats
    case Idle => stats.(active := stats.active - 1, idle := stats.idle - 1)
    case Busy => stats.(active := stats.active - 1, busy := stats.busy - 1)
    case Unknown => stats.(active := stats.active - 1)
  }

  /** Row i replaced by the last row, the table one shorter. */
  function SwapRemove(ws: seq<WorkerInfo>, i: nat): (r: seq<WorkerInfo>)
    requires i < |ws|
    ensures |r| == |ws| - 1
    ensures forall k {:trigger r[k]} | 0 <= k < |r| :: r[k] == ws[if k == i then |ws| - 1 else k]
  {
    seq(|ws| - 1, k requires 0 <= k < |ws| - 1 => ws[if k == i then |ws| - 1 else k])
  }

  function Unregister(s: Sched, id: nat): Sched {
    if !Knows(s, id) then s
    else s.(workers := SwapRemove(s.workers, IndexOf(s.workers, id)), stats := Retired(s.stats, RowOf(s, id).state))
  }

  /** Replaces a known worker's row. */
  function WithRow(s: Sched, w: WorkerInfo): Sched
    requires Knows(s, w.id)
  {
    s.(workers := s.workers[IndexOf(s.workers, w.id) := w])
  }

  /** A heartbeat also revives a dead worker, as idle. */
  function Heartbeat(s: Sched, id: nat, now: int): Sched {
    if !Knows(s, id) then s
    else
      var w := RowOf(s, id).(lastHeartbeat := now);
      if w.state != Dead then WithRow(s, w)
      else
        WithRow(s, w.(state := Idle)).(stats := s.stats.(dead := s.stats.dead - 1, active := s.stats.active + 1,
                                                         idle := s.stats.idle + 1))
  }

  function MarkBusy(s: Sched, id: nat, n: nat): Sched {
    if !Knows(s, id) then s
    else
      var w := RowOf(s, id).(running := RowOf(s, id).running + n);
      if w.state != Idle then WithRow(s, w)
      else WithRow(s, w.(state := Busy)).(stats := s.stats.(idle := s.stats.idle - 1, busy := s.stats.busy + 1))
  }

  function MarkIdle(s: Sched, id: nat): Sched {
    if !Knows(s, id) then s
    else
      var w := RowOf(s, id).(running := 0);
      if w.state != Busy then WithRow(s, w)
      else WithRow(s, w.(state := Idle)).(stats := s.stats.(idle := s.stats.idle + 1, busy := s.stats.busy - 1))
  }

  function TrackCode(s: Sched): int {
    if |s.tasks| >= s.maxTasks then REFUSED else OK
  }

  function Track(s: Sched, task: nat, worker: nat, now: int): Sched {
    if TrackCode(s) != OK then s
    else s.(tasks := s.tasks + [TaskInfo(task, worker, now, now, PENDING)],
            stats := s.stats.(scheduled := s.stats.scheduled + 1))
  }

  predicate Tracks(s: Sched, task: nat) {
    TaskIndex(s.tasks, task) < |s.tasks|
  }

  /** The worker a tracked task was sent to. */
  function OwnerOf(s: Sched, task: nat): nat
    requires Tracks(s, task)
  {
    s.tasks[TaskIndex(s.tasks, task)].worker
  }

  /** A worker's row after one of its tasks ended, before the idle test. */
  function Credited(w: WorkerInfo, status: int): WorkerInfo {
    var less := if w.running > 0 then w.running - 1 else 0;
    if status == 0 then w.(running := less, completed := w.completed + 1)
    else w.(running := less, failed := w.failed + 1)
  }

  function CreditedStats(stats: Stats, status: int): Stats {
    if status == 0 then stats.(completed := stats.completed + 1) else stats.(failed := stats.failed + 1)
  }

  function Credit(s: Sched, id: nat, status: int): Sched {
    if !Knows(s, id) then s
    else
      var w, t := Credited(RowOf(s, id), status), CreditedStats(s.stats, status);
      if w.running == 0 && w.state == Busy then
        WithRow(s, w.(state := Idle)).(stats := t.(busy := t.busy - 1, idle := t.idle + 1))
      else WithRow(s, w).(stats := t)
  }

  function Complete(s: Sched, task: nat, status: int): Sched {
    if !Tracks(s, task) then s
    else
      var i := TaskIndex(s.tasks, task);
      Credit(s.(tasks := s.tasks[i := s.tasks[i].(status := status)]), OwnerOf(s, task), status)
  }

  predicate Expired(w: WorkerInfo, now: int, timeout: int) {
    w.state != Dead && now - w.lastHeartbeat > timeout
  }

  /** The timeout test on row i. */
  function ExpireRow(s: Sched, i: nat, now: int): Sched
    requires i < |s.workers|
  {
    var w := s.workers[i];
    if !Expired(w, now, s.timeout) then s
    else
      var t := Retired(s.stats, w.state);
      s.(workers := s.workers[i := w.(state := Dead)], stats := t.(dead := t.dead + 1))
  }

  /** The timeout sweep over the first n rows. */
  function Sweep(s: Sched, now: int, n: nat): (r: Sched)
    requires n <= |s.workers|
    ensures |r.workers| == |s.workers|
    ensures forall k {:trigger r.workers[k]} | 0 <= k < |s.workers| ::
      r.workers[k] == if k < n && Expired(s.workers[k], now, s.timeout) then s.workers[k].(state := Dead) else s.workers[k]
    ensures r == s.(workers := r.workers, stats := r.stats)
  {
    if n == 0 then s else ExpireRow(Sweep(s, now, n - 1), n - 1, now)
  }

  function CheckTimeouts(s: Sched, now: int): Sched {
    Sweep(s, now, |s.workers|)
  }

  // Counters

  function Count(ws: seq<WorkerInfo>, state: WorkerState): nat {
    if ws == [] then 0
    else Count(ws[..|ws| - 1], state) + if ws[|ws| - 1].state == state then 1 else 0
  }

  function One(w: WorkerInfo, state: WorkerState): nat {
    if w.state == state then 1 else 0
  }

  lemma CountSnoc(ws: seq<WorkerInfo>, w: WorkerInfo, state: WorkerState)
    ensures Count(ws + [w], state) == Count(ws, state) + One(w, state)
  {
    assert (ws + [w])[..|ws|] == ws;
  }

  lemma {:induction false} CountUpdate(ws: seq<WorkerInfo>, i: nat, w: WorkerInfo, state: WorkerState)
    requires i < |ws|
    ensures Count(ws[i := w], state) + One(ws[i], state) == Count(ws, state) + One(w, state)
  {
    var n := |ws| - 1;
    if i == n {
      assert ws[i := w][..n] == ws[..n];
    } else {
      CountUpdate(ws[..n], i, w, state);
      assert ws[i := w][..n] == ws[..n][i := w];
    }
  }

  lemma CountSwapRemove(ws: seq<WorkerInfo>, i: nat, state: WorkerState)
    requires i < |ws|
    ensures Count(SwapRemove(ws, i), state) + One(ws[i], state) == Count(ws, state)
  {
    var n := |ws| - 1;
    CountUpdate(ws, i, ws[n], state);
    var moved := ws[i := ws[n]];
    assert moved[..n] == SwapRemove(ws, i);
    assert moved[n] == ws[n];
  }

  ghost predicate DistinctIds(ws: seq<WorkerInfo>) {
    forall i, j | 0 <= i < j < |ws| :: ws[i].id != ws[j].id
  }

  ghost predicate CountersAgree(ws: seq<WorkerInfo>, t: Stats) {
    && t.idle == Count(ws, Idle) && t.busy == Count(ws, Busy) && t.dead == Count(ws, Dead)
    && t.active == t.idle + t.busy && Count(ws, Unknown) == 0
  }

  ghost predicate Counted(s: Sched) {
    && DistinctIds(s.workers) && |s.workers| <= s.maxWorkers && |s.tasks| <= s.maxTasks
    && CountersAgree(s.workers, s.stats) && s.stats.scheduled == |s.tasks|
  }

  /** Replacing a row by one of the same worker keeps the counters exactly when they move with the two states. */
  lemma UpdateCounters(ws: seq<WorkerInfo>, i: nat, w: WorkerInfo, t: Stats, t': Stats)
    requires i < |ws| && CountersAgree(ws, t)
    ensures CountersAgree(ws[i := w], t') <==>
      && w.state != Unknown
      && t'.idle == t.idle - One(ws[i], Idle) + One(w, Idle)
      && t'.busy == t.busy - One(ws[i], Busy) + One(w, Busy)
      && t'.dead == t.dead - One(ws[i], Dead) + One(w, Dead)
      && t'.active == t'.idle + t'.busy
  {
    CountUpdate(ws, i, w, Idle);
    CountUpdate(ws, i, w, Busy);
    CountUpdate(ws, i, w, Dead);
    CountUpdate(ws, i, w, Unknown);
    CountPositive(ws, i);
  }

  lemma {:induction false} CountPositive(ws: seq<WorkerInfo>, i: nat)
    requires i < |ws|
    ensures Count(ws, ws[i].state) > 0
  {
    if i < |ws| - 1 { CountPositive(ws[..|ws| - 1], i); }
  }

  lemma UpdateKeepsIds(ws: seq<WorkerInfo>, i: nat, w: WorkerInfo)
    requires i < |ws| && DistinctIds(ws) && w.id == ws[i].id
    ensures DistinctIds(ws[i := w])
  {}

  /** Registration keeps the counters exact if and only if the table is full, the worker is new, or it is idle. */
  lemma RegisterIff(s: Sched, info: WorkerInfo, now: int)
    requires Counted(s)
    ensures Counted(Register(s, info, now)) <==>
      RegisterCode(s) != OK || !Knows(s, info.id) || RowOf(s, info.id).state == Idle
  {
    if RegisterCode(s) == OK {
      if Knows(s, info.id) {
        var i, w := IndexOf(s.workers, info.id), info.(state := Idle, lastHeartbeat := now);
        UpdateCounters(s.workers, i, w, s.stats, s.stats);
        UpdateKeepsIds(s.workers, i, w);
        CountNoUnknown(s.workers, i);
      } else {
        AppendCounted(s, info.(state := Idle, lastHeartbeat := now, registered := now));
      }
    }
  }

  lemma CountNoUnknown(ws: seq<WorkerInfo>, i: nat)
    requires i < |ws| && Count(ws, Unknown) == 0
    ensures ws[i].state != Unknown
  {
    CountPositive(ws, i);
  }

  lemma AppendCounted(s: Sched, w: WorkerInfo)
    requires Counted(s) && w.state == Idle && !Knows(s, w.id) && |s.workers| < s.maxWorkers
    ensures Counted(s.(workers := s.workers + [w],
                       stats := s.stats.(total := s.stats.total + 1, active := s.stats.active + 1, idle := s.stats.idle + 1)))
  {
    CountSnoc(s.workers, w, Idle);
    CountSnoc(s.workers, w, Busy);
    CountSnoc(s.workers, w, Dead);
    CountSnoc(s.workers, w, Unknown);
  }

  /** Taking one row out of exact counters leaves them exact unless it is dead. */
  lemma RetiredIff(ws: seq<WorkerInfo>, ws': seq<WorkerInfo>, t: Stats, w: WorkerInfo)
    requires CountersAgree(ws, t) && w.state != Unknown
    requires Count(ws', Idle) + One(w, Idle) == Count(ws, Idle) && Count(ws', Busy) + One(w, Busy) == Count(ws, Busy)
    requires Count(ws', Dead) + One(w, Dead) == Count(ws, Dead)
    requires Count(ws', Unknown) + One(w, Unknown) == Count(ws, Unknown)
    ensures CountersAgree(ws', Retired(t, w.state)) <==> w.state != Dead
  {}

  /** Unregistering keeps the counters exact if and only if the worker is unknown or not dead. */
  lemma UnregisterIff(s: Sched, id: nat)
    requires Counted(s)
    ensures Counted(Unregister(s, id)) <==> !Knows(s, id) || RowOf(s, id).state != Dead
  {
    if Knows(s, id) {
      var i := IndexOf(s.workers, id);
      CountSwapRemove(s.workers, i, Idle);
      CountSwapRemove(s.workers, i, Busy);
      CountSwapRemove(s.workers, i, Dead);
      CountSwapRemove(s.workers, i, Unknown);
      CountNoUnknown(s.workers, i);
      RetiredIff(s.workers, SwapRemove(s.workers, i), s.stats, s.workers[i]);
      SwapRemoveKeepsIds(s.workers, i);
    }
  }

  lemma SwapRemoveKeepsIds(ws: seq<WorkerInfo>, i: nat)
    requires i < |ws| && DistinctIds(ws)
    ensures DistinctIds(SwapRemove(ws, i))
  {}

  lemma HeartbeatCounted(s: Sched, id: nat, now: int)
    requires Counted(s)
    ensures Counted(Heartbeat(s, id, now))
  {
    if Knows(s, id) { RowCounted(s, Heartbeat(s, id, now), IndexOf(s.workers, id)); }
  }

  lemma MarkBusyCounted(s: Sched, id: nat, n: nat)
    requires Counted(s)
    ensures Counted(MarkBusy(s, id, n))
  {
    if Knows(s, id) { RowCounted(s, MarkBusy(s, id, n), IndexOf(s.workers, id)); }
  }

  lemma MarkIdleCounted(s: Sched, id: nat)
    requires Counted(s)
    ensures Counted(MarkIdle(s, id))
  {
    if Knows(s, id) { RowCounted(s, MarkIdle(s, id), IndexOf(s.workers, id)); }
  }

  lemma CompleteCounted(s: Sched, task: nat, status: int)
    requires Counted(s)
    ensures Counted(Complete(s, task, status))
  {
    if Tracks(s, task) && Knows(s, OwnerOf(s, task)) {
      RowCounted(s, Complete(s, task, status), IndexOf(s.workers, OwnerOf(s, task)));
    }
  }

  /** The counters moved with the states of row i, the only row that changed. */
  ghost predicate RowMoved(s: Sched, s': Sched, i: nat) {
    && i < |s.workers| == |s'.workers| && s'.workers == s.workers[i := s'.workers[i]]
    && s'.workers[i].id == s.workers[i].id
    && (s.workers[i].state != Unknown ==> s'.workers[i].state != Unknown)
    && s'.stats.idle == s.stats.idle - One(s.workers[i], Idle) + One(s'.workers[i], Idle)
    && s'.stats.busy == s.stats.busy - One(s.workers[i], Busy) + One(s'.workers[i], Busy)
    && s'.stats.dead == s.stats.dead - One(s.workers[i], Dead) + One(s'.workers[i], Dead)
    && s'.stats.active - s.stats.active == s'.stats.idle + s'.stats.busy - s.stats.idle - s.stats.busy
    && s'.maxWorkers == s.maxWorkers && s'.maxTasks == s.maxTasks
    && |s'.tasks| == |s.tasks| && s'.stats.scheduled == s.stats.scheduled
  }

  lemma RowCounted(s: Sched, s': Sched, i: nat)
    requires Counted(s) && RowMoved(s, s', i)
    ensures Counted(s')
  {
    CountNoUnknown(s.workers, i);
    UpdateCounters(s.workers, i, s'.workers[i], s.stats, s'.stats);
    UpdateKeepsIds(s.workers, i, s'.workers[i]);
  }

  lemma ExpireRowCounted(s: Sched, i: nat, now: int)
    requires Counted(s) && i < |s.workers|
    ensures Counted(ExpireRow(s, i, now))
  {
    if Expired(s.workers[i], now, s.timeout) {
      CountNoUnknown(s.workers, i);
      RowCounted(s, ExpireRow(s, i, now), i);
    }
  }

  lemma {:induction false} SweepCounted(s: Sched, now: int, n: nat)
    requires Counted(s) && n <= |s.workers|
    ensures Counted(Sweep(s, now, n))
  {
    if n > 0 {
      SweepCounted(s, now, n - 1);
      ExpireRowCounted(Sweep(s, now, n - 1), n - 1, now);
    }
  }

  /** After a sweep every worker that is not dead was heard of within the limit. */
  lemma SweepLeavesOnlyRecent(s: Sched, now: int, i: nat)
    requires i < |s.workers|
    ensures var w := CheckTimeouts(s, now).workers[i];
      w.id == s.workers[i].id && (w.state == Dead <==> s.workers[i].state == Dead || now - w.lastHeartbeat > s.timeout)
  {}

  // Whole runs

  datatype Op =
    | RegisterOp(info: WorkerInfo, now: int) | UnregisterOp(id: nat) | HeartbeatOp(id: nat, now: int)
    | BusyOp(id: nat, n: nat) | IdleOp(id: nat) | TrackOp(task: nat, worker: nat, now: int)
    | CompleteOp(task: nat, status: int) | TimeoutsOp(now: int)

  function Step(s: Sched, op: Op): Sched {
    match op
    case RegisterOp(info, now) => Register(s, info, now)
    case UnregisterOp(id) => Unregister(s, id)
    case HeartbeatOp(id, now) => Heartbeat(s, id, now)
    case BusyOp(id, n) => MarkBusy(s, id, n)
    case IdleOp(id) => MarkIdle(s, id)
    case TrackOp(task, worker, now) => Track(s, task, worker, now)
    case CompleteOp(task, status) => Complete(s, task, status)
    case TimeoutsOp(now) => CheckTimeouts(s, now)
  }

  /** Re-registers only idle workers, unregisters only live ones. */
  predicate Careful(s: Sched, op: Op) {
    match op
    case RegisterOp(info, now) => RegisterCode(s) != OK || !Knows(s, info.id) || RowOf(s, info.id).state == Idle
    case UnregisterOp(id) => !Knows(s, id) || RowOf(s, id).state != Dead
    case _ => true
  }

  /** A step keeps ids distinct and counters exact if and only if it is careful. */
  lemma StepIff(s: Sched, op: Op)
    requires Counted(s)
    ensures Counted(Step(s, op)) <==> Careful(s, op)
  {
    match op
    case RegisterOp(info, now) => RegisterIff(s, info, now);
    case UnregisterOp(id) => UnregisterIff(s, id);
    case HeartbeatOp(id, now) => HeartbeatCounted(s, id, now);
    case BusyOp(id, n) => MarkBusyCounted(s, id, n);
    case IdleOp(id) => MarkIdleCounted(s, id);
    case TrackOp(task, worker, now) =>
    case CompleteOp(task, status) => CompleteCounted(s, task, status);
    case TimeoutsOp(now) => SweepCounted(s, now, |s.workers|);
  }

  function Run(s: Sched, ops: seq<Op>): Sched {
    if ops == [] then s else Step(Run(s, ops[..|ops| - 1]), ops[|ops| - 1])
  }

  predicate CarefulRun(s: Sched, ops: seq<Op>) {
    if ops == [] then true
    else CarefulRun(s, ops[..|ops| - 1]) && Careful(Run(s, ops[..|ops| - 1]), ops[|ops| - 1])
  }

  lemma {:induction false} RunCounted(maxWorkers: nat, timeout: int, ops: seq<Op>)
    requires CarefulRun(New(maxWorkers, timeout), ops)
    ensures Counted(Run(New(maxWorkers, timeout), ops))
  {
    if ops != [] {
      RunCounted(maxWorkers, timeout, ops[..|ops| - 1]);
      StepIff(Run(New(maxWorkers, timeout), ops[..|ops| - 1]), ops[|ops| - 1]);
    }
  }

  // The two ways the counters go wrong

  lemma NewCounted(maxWorkers: nat, timeout: int)
    ensures Counted(New(maxWorkers, timeout))
  {}

  lemma OnlyWorker(maxWorkers: nat, timeout: int, info: WorkerInfo, now: int)
    requires maxWorkers > 0
    ensures var s := Register(New(maxWorkers, timeout), info, now);
      && Counted(s) && |s.workers| == 1 && Knows(s, info.id) && RowOf(s, info.id).state == Idle
      && RowOf(s, info.id).lastHeartbeat == now && s.maxWorkers == maxWorkers && s.timeout == timeout
  {
    NewCounted(maxWorkers, timeout);
    RegisterIff(New(maxWorkers, timeout), info, now);
    var s := Register(New(maxWorkers, timeout), info, now);
    assert s.workers[0].id == info.id;
  }

  lemma RunAppend(s: Sched, ops: seq<Op>, op: Op)
    ensures Run(s, ops + [op]) == Step(Run(s, ops), op)
  {
    assert (ops + [op])[..|ops|] == ops;
  }

  lemma BusyAgain(s: Sched, info: WorkerInfo, n: nat, now: int)
    requires Counted(s) && |s.workers| < s.maxWorkers && Knows(s, info.id) && RowOf(s, info.id).state == Idle
    ensures !Counted(Register(MarkBusy(s, info.id, n), info, now))
  {
    var s' := MarkBusy(s, info.id, n);
    MarkBusyCounted(s, info.id, n);
    assert s'.workers[IndexOf(s.workers, info.id)].id == info.id;
    assert forall k | 0 <= k < IndexOf(s.workers, info.id) :: s'.workers[k] == s.workers[k];
    RegisterIff(s', info, now);
  }

  lemma DeadGone(s: Sched, id: nat, now: int)
    requires Counted(s) && Knows(s, id) && RowOf(s, id).state == Idle && now - RowOf(s, id).lastHeartbeat > s.timeout
    ensures !Counted(Unregister(CheckTimeouts(s, now), id))
  {
    var s', i := CheckTimeouts(s, now), IndexOf(s.workers, id);
    SweepCounted(s, now, |s.workers|);
    assert s'.workers[i].id == id && s'.workers[i].state == Dead;
    assert forall k | 0 <= k < i :: s'.workers[k].id == s.workers[k].id;
    UnregisterIff(s', id);
  }

  /** Registering a busy worker again leaves the counters wrong, in every table with room for another. */
  lemma BusyRegistersAgain(maxWorkers: nat, timeout: int, info: WorkerInfo, n: nat, now: int)
    requires maxWorkers >= 2
    ensures !Counted(Run(New(maxWorkers, timeout),
                         [] + [RegisterOp(info, now)] + [BusyOp(info.id, n)] + [RegisterOp(info, now)]))
  {
    var s, one := New(maxWorkers, timeout), [] + [RegisterOp(info, now)];
    RunAppend(s, [], RegisterOp(info, now));
    RunAppend(s, one, BusyOp(info.id, n));
    RunAppend(s, one + [BusyOp(info.id, n)], RegisterOp(info, now));
    OnlyWorker(maxWorkers, timeout, info, now);
    BusyAgain(Register(s, info, now), info, n, now);
  }

  /** Removing a worker that timed out leaves the counters wrong. */
  lemma DeadUnregisters(maxWorkers: nat, timeout: int, info: WorkerInfo, now: int, later: int)
    requires maxWorkers >= 1 && later - now > timeout
    ensures !Counted(Run(New(maxWorkers, timeout),
                         [] + [RegisterOp(info, now)] + [TimeoutsOp(later)] + [UnregisterOp(info.id)]))
  {
    var s, one := New(maxWorkers, timeout), [] + [RegisterOp(info, now)];
    RunAppend(s, [], RegisterOp(info, now));
    RunAppend(s, one, TimeoutsOp(later));
    RunAppend(s, one + [TimeoutsOp(later)], UnregisterOp(info.id));
    OnlyWorker(maxWorkers, timeout, info, now);
    DeadGone(Register(s, info, now), info.id, later);
  }
}
