/** How many tasks a worker is sent at once, from the number it named when it registered. */
module Limits {
  import opened Wrappers
  import opened QueueSpec
  import opened Batches
  import opened CoordSpec
  import opened Protocol
  import opened TableViews
  import opened Safety
  import S = SchedSpec

  /** The batch size worker w named on its way up, if it has started. */
  ghost function Named(y0: System, es: seq<Event>, w: nat): Option<nat> {
    if es == [] then None
    else
      var front, e := es[..|es| - 1], es[|es| - 1];
      if e.Start? && e.w == w && Enabled(Exec(y0, front), e) then Some(e.maxBatch) else Named(y0, front, w)
  }

  /** What naming m entitles to: zero stands for ten. */
  function Share(m: nat): nat {
    if m == 0 then 10 else m
  }

  ghost predicate Within(bs: seq<seq<Task>>, n: nat) {
    forall k | 0 <= k < |bs| :: |bs[k]| <= n
  }

  /** Greeting, row and inbox of a worker agree with the size it named. */
  ghost predicate Kept(x: Worker, view: Option<S.WorkerInfo>, named: Option<nat>) {
    && (x.started <==> named.Some?)
    && (forall k | 0 <= k < |x.outbox| && x.outbox[k].Hello? :: named == Some(x.outbox[k].maxBatch))
    && (view.Some? ==> named.Some? && view.value.maxBatchSize == Share(named.value))
    && (if named.Some? then Within(x.inbox, Share(named.value)) else x.inbox == [])
  }

  ghost predicate KeptAt(y: System, w: nat, named: Option<nat>) {
    w < |y.ws| && Kept(y.ws[w], View(y.s, w), named)
  }

  predicate Starts(y: System, w: nat, e: Event) {
    e.Start? && e.w == w && Enabled(y, e)
  }

  // One event

  lemma KeptStart(x: Worker, maxBatch: nat, sent: bool)
    requires Kept(x, None, None) && !x.started && x.outbox == []
    ensures Kept(Started(x, maxBatch, sent), None, Some(maxBatch))
  {}

  lemma KeptOwn(x: Worker, view: Option<S.WorkerInfo>, named: Option<nat>, e: Event)
    requires Kept(x, view, named)
    ensures e.SendBeat? && x.started ==> Kept(Beaten(x, e.sent), view, named)
    ensures e.Receive? && x.inbox != [] ==> Kept(Received(x), view, named)
    ensures e.Begin? && Next(x.local).Some? ==> Kept(Begun(x), view, named)
    ensures e.Finish? && x.executing.Some? ==> Kept(Finished(x, e.status, e.sent), view, named)
  {}

  lemma KeptSteps(y: System, w: nat, named: Option<nat>, e: Event)
    requires Safe(y) && KeptAt(y, w, named) && Enabled(y, e)
    requires e.Submit? || e.Start? || e.SendBeat? || e.Receive? || e.Begin? || e.Finish? || e.Sweep?
    ensures KeptAt(Do(y, e), w, if Starts(y, w, e) then Some(e.maxBatch) else named)
  {
    assert WorkerOk(y.ws[w], View(y.s, w), y.deaths, Exact(y));
    if e.Start? && e.w == w {
      KeptStart(y.ws[w], e.maxBatch, e.sent);
    } else if e.Sweep? {
      ViewSweep(y.s, e.now, w);
    } else {
      KeptOwn(y.ws[w], View(y.s, w), named, e);
    }
  }

  lemma KeptPopped(x: Worker, view: Option<S.WorkerInfo>, view': Option<S.WorkerInfo>, named: Option<nat>)
    requires Kept(x, view, named) && x.outbox != []
    requires view'.Some? ==> view.Some? && view'.value.maxBatchSize == view.value.maxBatchSize
    ensures Kept(Popped(x), view', named)
  {}

  lemma KeptHello(y: System, w: nat, named: Option<nat>, v: nat, now: int)
    requires Safe(y) && KeptAt(y, w, named) && Enabled(y, Handle(v, now)) && y.ws[v].outbox[0].Hello?
    ensures KeptAt(Do(y, Handle(v, now)), w, named)
  {
    assert WorkerOk(y.ws[v], View(y.s, v), y.deaths, Exact(y));
    ViewRegister(y.s, NewWorker(v, 1, y.ws[v].outbox[0].maxBatch, 0, now), now, w);
  }

  lemma KeptBeat(y: System, w: nat, named: Option<nat>, v: nat, now: int)
    requires KeptAt(y, w, named) && Enabled(y, Handle(v, now)) && y.ws[v].outbox[0].Beat?
    ensures KeptAt(Do(y, Handle(v, now)), w, named)
  {
    ViewHeartbeat(y.s, v, now, w);
    if v == w { KeptPopped(y.ws[w], View(y.s, w), View(S.Heartbeat(y.s, v, now), w), named); }
  }

  lemma KeptDone(y: System, w: nat, named: Option<nat>, v: nat, now: int)
    requires KeptAt(y, w, named) && Enabled(y, Handle(v, now)) && y.ws[v].outbox[0].Done?
    ensures KeptAt(Do(y, Handle(v, now)), w, named)
  {
    var m := y.ws[v].outbox[0];
    ViewComplete(y.s, m.task, m.status, w);
    if v == w { KeptPopped(y.ws[w], View(y.s, w), View(S.Complete(y.s, m.task, m.status), w), named); }
  }

  lemma KeptHandle(y: System, w: nat, named: Option<nat>, v: nat, now: int)
    requires Safe(y) && KeptAt(y, w, named) && Enabled(y, Handle(v, now))
    ensures KeptAt(Do(y, Handle(v, now)), w, named)
  {
    match y.ws[v].outbox[0]
    case Hello(_) => KeptHello(y, w, named, v, now);
    case Beat => KeptBeat(y, w, named, v, now);
    case Done(_, _) => KeptDone(y, w, named, v, now);
  }

  /** The batch a worker in this state is sent. */
  lemma BatchBySize(y: System, w: nat, named: Option<nat>, now: int)
    requires KeptAt(y, w, named) && Enabled(y, Dispatch(w, true, now))
    ensures named.Some?
    ensures var y' := Do(y, Dispatch(w, true, now));
      && |y'.ws| == |y.ws| && |y'.ws[w].inbox| == |y.ws[w].inbox| + 1
      && var b := y'.ws[w].inbox[|y.ws[w].inbox|];
      && y'.ws[w] == y.ws[w].(inbox := y.ws[w].inbox + [b])
      && |b| == Smaller(Size(y.q), Share(named.value)) && Contents(y.q) == b + Contents(y'.q)
  {
    BatchSize(y.q, Share(named.value));
    BatchIsPrefix(y.q, Share(named.value));
  }

  lemma KeptDispatch(y: System, w: nat, named: Option<nat>, v: nat, sent: bool, now: int)
    requires KeptAt(y, w, named) && Enabled(y, Dispatch(v, sent, now))
    ensures KeptAt(Do(y, Dispatch(v, sent, now)), w, named)
  {
    ViewDispatched(y.s, Batch(y.q, BatchLimit(S.RowOf(y.s, v))), v, sent, now, w);
    if v == w && sent { BatchBySize(y, w, named, now); }
  }

  lemma KeptApply(y: System, w: nat, named: Option<nat>, e: Event)
    requires Safe(y) && KeptAt(y, w, named)
    ensures KeptAt(Apply(y, e), w, if Starts(y, w, e) then Some(e.maxBatch) else named)
  {
    if Enabled(y, e) {
      match e
      case Handle(v, now) => KeptHandle(y, w, named, v, now);
      case Dispatch(v, sent, now) => KeptDispatch(y, w, named, v, sent, now);
      case _ => KeptSteps(y, w, named, e);
    }
  }

  // Whole runs

  lemma {:induction false} ExecKept(y0: System, es: seq<Event>, w: nat)
    requires Initial(y0) && w < |y0.ws|
    ensures KeptAt(Exec(y0, es), w, Named(y0, es, w))
  {
    if es != [] {
      ExecKept(y0, es[..|es| - 1], w);
      ExecSafe(y0, es[..|es| - 1]);
      KeptApply(Exec(y0, es[..|es| - 1]), w, Named(y0, es[..|es| - 1], w), es[|es| - 1]);
    }
  }

  /** On every run a worker that is sent a batch is sent the oldest tasks, exactly as many as the queue holds and it named. */
  lemma BatchAsNamed(y0: System, es: seq<Event>, w: nat, now: int)
    requires Initial(y0) && w < |y0.ws| && Enabled(Exec(y0, es), Dispatch(w, true, now))
    ensures Named(y0, es, w).Some?
    ensures var y, y' := Exec(y0, es), Apply(Exec(y0, es), Dispatch(w, true, now));
      && |y'.ws| == |y.ws| == |y0.ws| && |y'.ws[w].inbox| == |y.ws[w].inbox| + 1
      && var b := y'.ws[w].inbox[|y.ws[w].inbox|];
      && y'.ws[w] == y.ws[w].(inbox := y.ws[w].inbox + [b])
      && |b| == Smaller(Size(y.q), Share(Named(y0, es, w).value)) && Contents(y.q) == b + Contents(y'.q)
  {
    ExecKept(y0, es, w);
    SameWorkers(y0, es);
    BatchBySize(Exec(y0, es), w, Named(y0, es, w), now);
  }

  lemma {:induction false} SameWorkers(y0: System, es: seq<Event>)
    ensures |Exec(y0, es).ws| == |y0.ws|
  {
    if es != [] { SameWorkers(y0, es[..|es| - 1]); }
  }

  /** On every run no batch on its way to a worker is larger than the worker named. */
  lemma NeverSentMore(y0: System, es: seq<Event>, w: nat)
    requires Initial(y0) && w < |y0.ws|
    ensures w < |Exec(y0, es).ws|
    ensures var bs := Exec(y0, es).ws[w].inbox;
      if Named(y0, es, w).Some? then Within(bs, Share(Named(y0, es, w).value)) else bs == []
  {
    ExecKept(y0, es, w);
  }
}
