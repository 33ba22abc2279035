/** The scheduler object: fixed arrays of workers and tracked tasks, updated in place. */
module Scheduler {
  import opened SchedSpec

  const NO_WORKER := WorkerInfo(0, Unknown, 0, 0, 0, 0, 0, 0, 0, 0)
  const NO_TASK := TaskInfo(0, 0, 0, 0, 0)

  class Scheduler {
    const workers: array<WorkerInfo>
    const tasks: array<TaskInfo>
    var workerCount: nat
    var taskCount: nat
    var stats: Stats
    const maxWorkers: nat
    const maxTasks: nat
    const timeout: int
    ghost var model: Sched

    /** The used parts of the arrays, the counts and the counters hold what `model` says. */
    ghost predicate Valid()
      reads this, workers, tasks
    {
      && workerCount <= maxWorkers == workers.Length && taskCount <= maxTasks == tasks.Length
      && model.maxWorkers == maxWorkers && model.maxTasks == maxTasks && model.timeout == timeout
      && model.stats == stats
      && |model.workers| == workerCount && (forall k | 0 <= k < workerCount :: workers[k] == model.workers[k])
      && |model.tasks| == taskCount && (forall k | 0 <= k < taskCount :: tasks[k] == model.tasks[k])
    }

    constructor (maxWorkers: nat, timeout: int)
      ensures Valid() && fresh(workers) && fresh(tasks) && model == New(maxWorkers, timeout)
    {
      this.maxWorkers, maxTasks, this.timeout := maxWorkers, MAX_TRACKED_TASKS, timeout;
      workers := new WorkerInfo[maxWorkers](_ => NO_WORKER);
      tasks := new TaskInfo[MAX_TRACKED_TASKS](_ => NO_TASK);
      workerCount, taskCount, stats := 0, 0, Stats(0, 0, 0, 0, 0, 0, 0, 0);
      model := New(maxWorkers, timeout);
    }

    /** The loop every operation opens with. */
    method FindWorker(id: nat) returns (i: nat)
      requires Valid()
      ensures i == IndexOf(model.workers, id)
    {
      i := 0;
      while i < workerCount && workers[i].id != id
        invariant i <= workerCount
        invariant forall k | 0 <= k < i :: model.workers[k].id != id
      {
        i := i + 1;
      }
    }

    method FindTask(id: nat) returns (i: nat)
      requires Valid()
      ensures i == TaskIndex(model.tasks, id)
    {
      i := 0;
      while i < taskCount && tasks[i].id != id
        invariant i <= taskCount
        invariant forall k | 0 <= k < i :: model.tasks[k].id != id
      {
        i := i + 1;
      }
    }

    method Register(info: WorkerInfo, now: int) returns (code: int)
      requires Valid()
      modifies this, workers
      ensures Valid() && code == RegisterCode(old(model)) && model == SchedSpec.Register(old(model), info, now)
    {
      if workerCount >= maxWorkers {
        return REFUSED;
      }
      var i := FindWorker(info.id);
      if i < workerCount {
        workers[i] := info;
        workers[i] := workers[i].(state := Idle);
        workers[i] := workers[i].(lastHeartbeat := now);
        model := SchedSpec.Register(model, info, now);
        return OK;
      }
      workers[workerCount] := info;
      workers[workerCount] := workers[workerCount].(state := Idle);
      workers[workerCount] := workers[workerCount].(lastHeartbeat := now);
      workers[workerCount] := workers[workerCount].(registered := now);
      workerCount := workerCount + 1;
      stats := stats.(total := stats.total + 1);
      stats := stats.(active := stats.active + 1);
      stats := stats.(idle := stats.idle + 1);
      model := SchedSpec.Register(model, info, now);
      return OK;
    }

    /** Takes a worker in the given state out of the counters. */
    method Uncount(state: WorkerState)
      modifies this`stats
      ensures stats == Retired(old(stats), state)
    {
      if state != Dead {
        stats := stats.(active := stats.active - 1);
        if state == Idle {
          stats := stats.(idle := stats.idle - 1);
        } else if state == Busy {
          stats := stats.(busy := stats.busy - 1);
        }
      }
    }

    method Unregister(id: nat) returns (code: int)
      requires Valid()
      modifies this, workers
      ensures Valid() && code == (if Knows(old(model), id) then OK else REFUSED)
      ensures model == SchedSpec.Unregister(old(model), id)
    {
      var i := FindWorker(id);
      if i == workerCount {
        return REFUSED;
      }
      Uncount(workers[i].state);
      if i < workerCount - 1 {
        workers[i] := workers[workerCount - 1];
      }
      workerCount := workerCount - 1;
      model := SchedSpec.Unregister(model, id);
      return OK;
    }

    method Heartbeat(id: nat, now: int)
      requires Valid()
      modifies this, workers
      ensures Valid() && model == SchedSpec.Heartbeat(old(model), id, now)
    {
      var i := FindWorker(id);
      if i < workerCount {
        workers[i] := workers[i].(lastHeartbeat := now);
        if workers[i].state == Dead {
          workers[i] := workers[i].(state := Idle);
          stats := stats.(dead := stats.dead - 1);
          stats := stats.(active := stats.active + 1);
          stats := stats.(idle := stats.idle + 1);
        }
        model := SchedSpec.Heartbeat(model, id, now);
      }
    }

    method MarkBusy(id: nat, n: nat)
      requires Valid()
      modifies this, workers
      ensures Valid() && model == SchedSpec.MarkBusy(old(model), id, n)
    {
      var i := FindWorker(id);
      if i < workerCount {
        if workers[i].state == Idle {
          workers[i] := workers[i].(state := Busy);
          stats := stats.(idle := stats.idle - 1);
          stats := stats.(busy := stats.busy + 1);
        }
        workers[i] := workers[i].(running := workers[i].running + n);
        model := SchedSpec.MarkBusy(model, id, n);
      }
    }

    method MarkIdle(id: nat)
      requires Valid()
      modifies this, workers
      ensures Valid() && model == SchedSpec.MarkIdle(old(model), id)
    {
      var i := FindWorker(id);
      if i < workerCount {
        if workers[i].state == Busy {
          workers[i] := workers[i].(state := Idle);
          stats := stats.(busy := stats.busy - 1);
          stats := stats.(idle := stats.idle + 1);
        }
        workers[i] := workers[i].(running := 0);
        model := SchedSpec.MarkIdle(model, id);
      }
    }

    /** Copies idle rows, in table order, into the caller's array. */
    method GetIdleWorkers(out: array<WorkerInfo>, max: nat) returns (count: nat)
      requires Valid() && max <= out.Length && out != workers
      modifies out
      ensures Valid() && count <= max && out[..count] == IdleRows(model.workers, |model.workers|, max)
    {
      count := 0;
      var i := 0;
      while i < workerCount && count < max
        invariant i <= workerCount && count <= max
        invariant out[..count] == IdleRows(model.workers, i, max)
        invariant Valid()
      {
        if workers[i].state == Idle {
          out[count] := workers[i];
          count := count + 1;
        }
        i := i + 1;
      }
      if i < workerCount { IdleRowsFull(model.workers, i, |model.workers|, max); }
    }

    method Track(task: nat, worker: nat, now: int) returns (code: int)
      requires Valid()
      modifies this, tasks
      ensures Valid() && code == TrackCode(old(model)) && model == SchedSpec.Track(old(model), task, worker, now)
    {
      if taskCount >= maxTasks {
        return REFUSED;
      }
      tasks[taskCount] := TaskInfo(task, worker, now, now, PENDING);
      taskCount := taskCount + 1;
      stats := stats.(scheduled := stats.scheduled + 1);
      model := SchedSpec.Track(model, task, worker, now);
      return OK;
    }

    /** One ended task in the worker's row, and in the counters. */
    method CreditRow(w: WorkerInfo, status: int) returns (w': WorkerInfo)
      modifies this`stats
      ensures w' == Credited(w, status) && stats == CreditedStats(old(stats), status)
    {
      w' := w;
      if w.running > 0 {
        w' := w'.(running := w.running - 1);
      }
      if status == 0 {
        w' := w'.(completed := w.completed + 1);
        stats := stats.(completed := stats.completed + 1);
      } else {
        w' := w'.(failed := w.failed + 1);
        stats := stats.(failed := stats.failed + 1);
      }
    }

    /** The inner loop of completion: charges one ended task to its worker. */
    method Credit(id: nat, status: int)
      requires Valid()
      modifies this`stats, this`model, workers
      ensures Valid() && model == SchedSpec.Credit(old(model), id, status)
    {
      var j := FindWorker(id);
      if j < workerCount {
        var w := CreditRow(workers[j], status);
        if w.running == 0 && w.state == Busy {
          w := w.(state := Idle);
          stats := stats.(busy := stats.busy - 1);
          stats := stats.(idle := stats.idle + 1);
        }
        workers[j] := w;
        model := SchedSpec.Credit(model, id, status);
      }
    }

    method Complete(task: nat, status: int) returns (code: int)
      requires Valid()
      modifies this`stats, this`model, workers, tasks
      ensures Valid() && code == (if Tracks(old(model), task) then OK else REFUSED)
      ensures model == SchedSpec.Complete(old(model), task, status)
    {
      var i := FindTask(task);
      if i == taskCount {
        return REFUSED;
      }
      tasks[i] := tasks[i].(status := status);
      model := model.(tasks := model.tasks[i := tasks[i]]);
      Credit(tasks[i].worker, status);
      return OK;
    }

    /** The body of the timeout loop. */
    method ExpireWorker(i: nat, now: int) returns (died: bool)
      requires Valid() && i < workerCount
      modifies this`stats, this`model, workers
      ensures Valid() && model == ExpireRow(old(model), i, now)
      ensures model.stats.dead == old(model).stats.dead + if died then 1 else 0
    {
      died := workers[i].state != Dead && now - workers[i].lastHeartbeat > timeout;
      if died {
        stats := stats.(active := stats.active - 1);
        if workers[i].state == Idle {
          stats := stats.(idle := stats.idle - 1);
        } else if workers[i].state == Busy {
          stats := stats.(busy := stats.busy - 1);
        }
        stats := stats.(dead := stats.dead + 1);
        workers[i] := workers[i].(state := Dead);
      }
      model := ExpireRow(model, i, now);
    }

    method CheckTimeouts(now: int) returns (dead: nat)
      requires Valid()
      modifies this`stats, this`model, workers
      ensures Valid() && model == SchedSpec.CheckTimeouts(old(model), now)
      ensures dead == model.stats.dead - old(model).stats.dead
    {
      dead := 0;
      ghost var s := model;
      for i := 0 to workerCount
        invariant Valid() && |s.workers| == workerCount && model == Sweep(s, now, i)
        invariant dead == model.stats.dead - s.stats.dead
      {
        var died := ExpireWorker(i, now);
        if died {
          dead := dead + 1;
        }
      }
    }
  }

  /** The first `max` idle rows among the first n. */
  ghost function IdleRows(ws: seq<WorkerInfo>, n: nat, max: nat): (r: seq<WorkerInfo>)
    requires n <= |ws|
    ensures |r| <= max
  {
    if n == 0 then []
    else
      var front := IdleRows(ws, n - 1, max);
      if ws[n - 1].state == Idle && |front| < max then front + [ws[n - 1]] else front
  }

  lemma {:induction false} IdleRowsFull(ws: seq<WorkerInfo>, i: nat, n: nat, max: nat)
    requires i <= n <= |ws| && |IdleRows(ws, i, max)| == max
    ensures IdleRows(ws, n, max) == IdleRows(ws, i, max)
    decreases n
  {
    if i < n { IdleRowsFull(ws, i, n - 1, max); }
  }

  /** When there is room for all of them, exactly the idle workers are listed. */
  lemma {:induction false} IdleRowsExact(ws: seq<WorkerInfo>, n: nat, max: nat, w: WorkerInfo)
    requires n <= |ws| <= max
    ensures |IdleRows(ws, n, max)| <= n
    ensures w in IdleRows(ws, n, max) <==> w.state == Idle && exists k | 0 <= k < n :: ws[k] == w
  {
    if n > 0 { IdleRowsExact(ws, n - 1, max, w); }
  }

  /** They are listed in table order. */
  lemma {:induction false} IdleRowsInOrder(ws: seq<WorkerInfo>, n: nat, max: nat, j: nat, k: nat)
    requires n <= |ws| && j < k < |IdleRows(ws, n, max)|
    ensures exists a, b | 0 <= a < b < n :: ws[a] == IdleRows(ws, n, max)[j] && ws[b] == IdleRows(ws, n, max)[k]
  {
    var front := IdleRows(ws, n - 1, max);
    if k < |front| {
      IdleRowsInOrder(ws, n - 1, max, j, k);
    } else {
      IdleRowsFrom(ws, n - 1, max, j);
    }
  }

  lemma {:induction false} IdleRowsFrom(ws: seq<WorkerInfo>, n: nat, max: nat, j: nat)
    requires n <= |ws| && j < |IdleRows(ws, n, max)|
    ensures exists a | 0 <= a < n :: ws[a] == IdleRows(ws, n, max)[j]
  {
    if j < |IdleRows(ws, n - 1, max)| { IdleRowsFrom(ws, n - 1, max, j); }
  }

  /** No worker is listed twice. */
  lemma {:induction false} IdleRowsDistinct(ws: seq<WorkerInfo>, n: nat, max: nat)
    requires n <= |ws| <= max && DistinctIds(ws)
    ensures DistinctIds(IdleRows(ws, n, max))
  {
    if n > 0 {
      IdleRowsDistinct(ws, n - 1, max);
      var front := IdleRows(ws, n - 1, max);
      forall k | 0 <= k < |front| ensures front[k].id != ws[n - 1].id {
        IdleRowsExact(ws, n - 1, max, front[k]);
      }
    }
  }
}
