/** One pass of the coordinator's dispatch loop as a run of the step system. */
module EventLoop {
  import opened Wrappers
  import opened QueueSpec
  import opened Batches
  import opened CoordSpec
  import opened Protocol
  import opened TableViews
  import opened Safety
  import S = SchedSpec
  import Scheduler

  /** A dispatch for each of the first n listed workers, in order. */
  function Dispatches(ws: seq<S.WorkerInfo>, n: nat, sendOk: nat -> bool, now: int): (es: seq<Event>)
    requires n <= |ws|
    ensures |es| == n
  {
    if n == 0 then [] else Dispatches(ws, n - 1, sendOk, now) + [Dispatch(ws[n - 1].id, sendOk(ws[n - 1].id), now)]
  }

  /** The listed rows are those of idle processes of the system, each listed once. */
  ghost predicate Listed(y: System, ws: seq<S.WorkerInfo>) {
    && S.DistinctIds(ws)
    && forall k | 0 <= k < |ws| :: ws[k].state == S.Idle && ws[k].id < |y.ws| && View(y.s, ws[k].id) == Some(ws[k])
  }

  /** The coordinator's side of y is d. */
  predicate Shows(y: System, d: Desk) {
    y.q == d.q && y.s == d.s
  }

  lemma ApplyDispatch(y: System, d: Desk, w: S.WorkerInfo, sent: bool, now: int)
    requires Shows(y, d) && w.id < |y.ws| && View(d.s, w.id) == Some(w) && w.state == S.Idle
    ensures var y' := Apply(y, Dispatch(w.id, sent, now)); Shows(y', Turn(d, w, sent, now)) && |y'.ws| == |y.ws|
  {}

  lemma ListedRow(y: System, ws: seq<S.WorkerInfo>, n: nat, sendOk: nat -> bool, now: int)
    requires Listed(y, ws) && n < |ws|
    ensures ws[n].state == S.Idle && ws[n].id < |y.ws|
    ensures View(Round(Desk(y.q, y.s), ws, n, sendOk, now).s, ws[n].id) == Some(ws[n])
  {
    StillAsListed(Desk(y.q, y.s), ws, n, sendOk, now, n);
  }

  /** The loop over the listed workers is exactly the run of their dispatch events. */
  lemma {:induction false} RoundIsARun(y: System, ws: seq<S.WorkerInfo>, n: nat, sendOk: nat -> bool, now: int)
    requires Listed(y, ws) && n <= |ws|
    ensures var y' := Exec(y, Dispatches(ws, n, sendOk, now));
      Shows(y', Round(Desk(y.q, y.s), ws, n, sendOk, now)) && |y'.ws| == |y.ws|
  {
    if n > 0 {
      var front, w := Dispatches(ws, n - 1, sendOk, now), ws[n - 1];
      RoundIsARun(y, ws, n - 1, sendOk, now);
      ListedRow(y, ws, n - 1, sendOk, now);
      ExecAppend(y, front, Dispatch(w.id, sendOk(w.id), now));
      ApplyDispatch(Exec(y, front), Round(Desk(y.q, y.s), ws, n - 1, sendOk, now), w, sendOk(w.id), now);
    }
  }

  lemma OnlyRow(ws: seq<S.WorkerInfo>, i: nat)
    requires S.DistinctIds(ws) && i < |ws|
    ensures S.IndexOf(ws, ws[i].id) == i
  {}

  /** In every safe state the table's own list of idle workers is such a list. */
  lemma IdleRowsListed(y: System)
    requires TablesOk(y)
    ensures Listed(y, Scheduler.IdleRows(y.s.workers, |y.s.workers|, IDLE_SLOTS))
  {
    var ws := Scheduler.IdleRows(y.s.workers, |y.s.workers|, IDLE_SLOTS);
    Scheduler.IdleRowsDistinct(y.s.workers, |y.s.workers|, IDLE_SLOTS);
    forall k | 0 <= k < |ws|
      ensures ws[k].state == S.Idle && ws[k].id < |y.ws| && View(y.s, ws[k].id) == Some(ws[k])
    {
      Scheduler.IdleRowsExact(y.s.workers, |y.s.workers|, IDLE_SLOTS, ws[k]);
      var i :| 0 <= i < |y.s.workers| && y.s.workers[i] == ws[k];
      OnlyRow(y.s.workers, i);
      assert View(y.s, ws[k].id) == Some(ws[k]);
    }
  }

  /** From every reachable state a pass of the dispatch loop over the idle workers is a run of the step system,
      and so leads to a safe state again. */
  lemma DispatchPassIsARun(y0: System, es: seq<Event>, sendOk: nat -> bool, now: int)
    requires Initial(y0)
    ensures var y := Exec(y0, es);
      var ws := Scheduler.IdleRows(y.s.workers, |y.s.workers|, IDLE_SLOTS);
      var y' := Exec(y, Dispatches(ws, |ws|, sendOk, now));
      Shows(y', Round(Desk(y.q, y.s), ws, |ws|, sendOk, now)) && Safe(y')
  {
    var y := Exec(y0, es);
    ExecSafe(y0, es);
    IdleRowsListed(y);
    var ws := Scheduler.IdleRows(y.s.workers, |y.s.workers|, IDLE_SLOTS);
    RoundIsARun(y, ws, |ws|, sendOk, now);
    ExecKeepsSafe(y, Dispatches(ws, |ws|, sendOk, now));
  }

  // With working channels

  predicate WaitsIdle(s: S.Sched, v: nat) {
    S.Knows(s, v) && S.RowOf(s, v).state == S.Idle
  }

  lemma TurnServes(d: Desk, w: S.WorkerInfo, now: int, v: nat)
    ensures WaitsIdle(Turn(d, w, true, now).s, v) ==> WaitsIdle(d.s, v) && (Size(d.q) > 0 ==> v != w.id)
  {
    BatchSize(d.q, BatchLimit(w));
    ViewDispatched(d.s, Batch(d.q, BatchLimit(w)), w.id, true, now, v);
  }

  lemma {:induction false} RoundServes(d: Desk, ws: seq<S.WorkerInfo>, n: nat, sendOk: nat -> bool, now: int, v: nat)
    requires n <= |ws| && forall id :: sendOk(id)
    ensures var d' := Round(d, ws, n, sendOk, now);
      WaitsIdle(d'.s, v) && Size(d'.q) > 0 ==> WaitsIdle(d.s, v) && forall k | 0 <= k < n :: ws[k].id != v
  {
    if n > 0 {
      var m := Round(d, ws, n - 1, sendOk, now);
      RoundServes(d, ws, n - 1, sendOk, now, v);
      TurnServes(m, ws[n - 1], now, v);
      TurnSize(m, ws[n - 1], true, now);
    }
  }

  /** From every reachable state, when all sends succeed, a pass leaves the queue empty or no worker idle. */
  lemma PassServesAll(y0: System, es: seq<Event>, sendOk: nat -> bool, now: int, v: nat)
    requires Initial(y0) && forall id :: sendOk(id)
    ensures var y := Exec(y0, es);
      var ws := Scheduler.IdleRows(y.s.workers, |y.s.workers|, IDLE_SLOTS);
      var y' := Exec(y, Dispatches(ws, |ws|, sendOk, now));
      Size(y'.q) == 0 || !WaitsIdle(y'.s, v)
  {
    var y := Exec(y0, es);
    var ws := Scheduler.IdleRows(y.s.workers, |y.s.workers|, IDLE_SLOTS);
    DispatchPassIsARun(y0, es, sendOk, now);
    RoundServes(Desk(y.q, y.s), ws, |ws|, sendOk, now, v);
    ExecSafe(y0, es);
    if WaitsIdle(y.s, v) { Scheduler.IdleRowsExact(y.s.workers, |y.s.workers|, IDLE_SLOTS, S.RowOf(y.s, v)); }
  }
}
