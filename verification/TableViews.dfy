/** What each scheduler operation does to the row of one worker and to the owner of one task. */
module TableViews {
  import opened Wrappers
  import opened QueueSpec
  import opened Batches
  import opened CoordSpec
  import S = SchedSpec

  /** A worker's row, if it is registered. */
  function View(s: S.Sched, v: nat): Option<S.WorkerInfo> {
    if S.Knows(s, v) then Some(S.RowOf(s, v)) else None
  }

  lemma SameIds(ws: seq<S.WorkerInfo>, ws': seq<S.WorkerInfo>, v: nat)
    requires |ws| == |ws'| && forall k | 0 <= k < |ws| :: ws'[k].id == ws[k].id
    ensures S.IndexOf(ws', v) == S.IndexOf(ws, v)
  {
    var i, i' := S.IndexOf(ws, v), S.IndexOf(ws', v);
    assert i < |ws| ==> ws'[i].id == ws[i].id;
    assert i' < |ws| ==> ws'[i'].id == ws[i'].id;
  }

  lemma ViewUpdate(s: S.Sched, s': S.Sched, w: S.WorkerInfo, v: nat)
    requires S.Knows(s, w.id) && s'.workers == s.workers[S.IndexOf(s.workers, w.id) := w]
    ensures View(s', v) == if v == w.id then Some(w) else View(s, v)
  {
    SameIds(s.workers, s'.workers, v);
  }

  lemma ViewRegister(s: S.Sched, info: S.WorkerInfo, now: int, v: nat)
    requires !S.Knows(s, info.id)
    ensures View(S.Register(s, info, now), v)
         == if v == info.id && S.RegisterCode(s) == S.OK
            then Some(info.(state := S.Idle, lastHeartbeat := now, registered := now)) else View(s, v)
  {
    var s' := S.Register(s, info, now);
    if S.RegisterCode(s) == S.OK {
      var i, i' := S.IndexOf(s.workers, v), S.IndexOf(s'.workers, v);
      assert s'.workers[|s.workers|].id == info.id;
      assert i < |s.workers| ==> s'.workers[i] == s.workers[i];
      assert i' < |s.workers| ==> s'.workers[i'] == s.workers[i'];
    }
  }

  /** The rows less the i-th, whose place the last one took. */
  ghost predicate LastMoved(ws: seq<S.WorkerInfo>, ws': seq<S.WorkerInfo>, i: nat) {
    && i < |ws| == |ws'| + 1 && S.DistinctIds(ws)
    && forall k | 0 <= k < |ws'| :: ws'[k] == ws[if k == i then |ws| - 1 else k]
  }

  lemma RemovedIsGone(ws: seq<S.WorkerInfo>, ws': seq<S.WorkerInfo>, i: nat)
    requires LastMoved(ws, ws', i)
    ensures S.IndexOf(ws', ws[i].id) == |ws'|
  {}

  lemma OthersStay(ws: seq<S.WorkerInfo>, ws': seq<S.WorkerInfo>, i: nat, v: nat)
    requires LastMoved(ws, ws', i) && v != ws[i].id
    ensures S.IndexOf(ws, v) == |ws| <==> S.IndexOf(ws', v) == |ws'|
    ensures S.IndexOf(ws, v) < |ws| ==> ws'[S.IndexOf(ws', v)] == ws[S.IndexOf(ws, v)]
  {
    var j := S.IndexOf(ws, v);
    if j < |ws| {
      var m := if j == |ws| - 1 then i else j;
      assert ws'[m] == ws[j];
    }
  }

  /** Removal forgets that worker and leaves every other row as it was, wherever it moved. */
  lemma ViewUnregister(s: S.Sched, id: nat, v: nat)
    requires S.DistinctIds(s.workers)
    ensures View(S.Unregister(s, id), v) == if v == id then None else View(s, v)
  {
    if S.Knows(s, id) {
      var ws, ws', i := s.workers, S.Unregister(s, id).workers, S.IndexOf(s.workers, id);
      assert LastMoved(ws, ws', i);
      if v == id { RemovedIsGone(ws, ws', i); } else { OthersStay(ws, ws', i, v); }
    }
  }

  function Revived(w: S.WorkerInfo, now: int): S.WorkerInfo {
    w.(lastHeartbeat := now, state := if w.state == S.Dead then S.Idle else w.state)
  }

  lemma ViewHeartbeat(s: S.Sched, id: nat, now: int, v: nat)
    ensures View(S.Heartbeat(s, id, now), v)
         == if v == id && View(s, v).Some? then Some(Revived(View(s, v).value, now)) else View(s, v)
  {
    if S.Knows(s, id) { ViewUpdate(s, S.Heartbeat(s, id, now), Revived(S.RowOf(s, id), now), v); }
  }

  function Loaded(w: S.WorkerInfo, n: nat): S.WorkerInfo {
    w.(running := w.running + n, state := if w.state == S.Idle then S.Busy else w.state)
  }

  lemma ViewMarkBusy(s: S.Sched, id: nat, n: nat, v: nat)
    ensures View(S.MarkBusy(s, id, n), v)
         == if v == id && View(s, v).Some? then Some(Loaded(View(s, v).value, n)) else View(s, v)
  {
    if S.Knows(s, id) { ViewUpdate(s, S.MarkBusy(s, id, n), Loaded(S.RowOf(s, id), n), v); }
  }

  /** A worker's row after one of its tasks ended. */
  function Settled(w: S.WorkerInfo, status: int): S.WorkerInfo {
    var c := S.Credited(w, status);
    if c.running == 0 && c.state == S.Busy then c.(state := S.Idle) else c
  }

  lemma ViewComplete(s: S.Sched, task: nat, status: int, v: nat)
    ensures View(S.Complete(s, task, status), v)
         == if Owner(s, task) == Some(v) && View(s, v).Some? then Some(Settled(View(s, v).value, status)) else View(s, v)
  {
    if S.Tracks(s, task) {
      var id := S.OwnerOf(s, task);
      if S.Knows(s, id) { ViewUpdate(s, S.Complete(s, task, status), Settled(S.RowOf(s, id), status), v); }
    }
  }

  lemma OwnerComplete(s: S.Sched, task: nat, status: int, id: nat)
    ensures Owner(S.Complete(s, task, status), id) == Owner(s, id)
    ensures |S.Complete(s, task, status).tasks| == |s.tasks| && S.Complete(s, task, status).maxTasks == s.maxTasks
  {
    if S.Tracks(s, task) {
      var ts, ts' := s.tasks, S.Complete(s, task, status).tasks;
      var i, i' := S.TaskIndex(ts, id), S.TaskIndex(ts', id);
      assert forall k | 0 <= k < |ts| :: ts'[k].id == ts[k].id && ts'[k].worker == ts[k].worker;
      assert i < |ts| ==> ts'[i].id == ts[i].id;
      assert i' < |ts| ==> ts'[i'].id == ts[i'].id;
    }
  }

  lemma ViewSweep(s: S.Sched, now: int, v: nat)
    ensures View(S.CheckTimeouts(s, now), v) == (
      if View(s, v).Some? && S.Expired(View(s, v).value, now, s.timeout) then Some(View(s, v).value.(state := S.Dead))
      else View(s, v))
  {
    SameIds(s.workers, S.CheckTimeouts(s, now).workers, v);
  }

  lemma {:induction false} TrackCounted(s: S.Sched, b: seq<Task>, n: nat, worker: nat, now: int)
    requires S.Counted(s) && n <= |b|
    ensures S.Counted(TrackFirst(s, b, n, worker, now))
  {
    if n > 0 { TrackCounted(s, b, n - 1, worker, now); }
  }

  lemma ViewDispatched(s: S.Sched, b: seq<Task>, worker: nat, sent: bool, now: int, v: nat)
    ensures View(DispatchedSched(s, b, worker, sent, now), v)
         == if sent && b != [] && v == worker && View(s, v).Some? then Some(Loaded(View(s, v).value, |b|)) else View(s, v)
  {
    if sent && b != [] {
      TrackKeeps(S.MarkBusy(s, worker, |b|), b, |b|, worker, now);
      ViewMarkBusy(s, worker, |b|, v);
    }
  }

  /** When a listed worker's turn comes, its row is still the one that was listed: nobody else's turn touches it. */
  lemma {:induction false} StillAsListed(d: Desk, ws: seq<S.WorkerInfo>, n: nat, sendOk: nat -> bool, now: int, k: nat)
    requires n <= k < |ws| && S.DistinctIds(ws) && View(d.s, ws[k].id) == Some(ws[k])
    ensures View(Round(d, ws, n, sendOk, now).s, ws[k].id) == Some(ws[k])
  {
    if n > 0 {
      StillAsListed(d, ws, n - 1, sendOk, now, k);
      var m, w := Round(d, ws, n - 1, sendOk, now), ws[n - 1];
      ViewDispatched(m.s, Batch(m.q, BatchLimit(w)), w.id, sendOk(w.id), now, ws[k].id);
    }
  }
}
