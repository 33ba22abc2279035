/** Workers that stay busy with nothing left to finish: when that happens and when it ends. */
module Stuck {
  import opened QueueSpec
  import opened Batches
  import opened CoordSpec
  import opened Protocol
  import opened Places
  import opened TableViews
  import opened Safety
  import opened Cycle
  import S = SchedSpec

  /** The coordinator waits for results that will never come. */
  ghost predicate IsStuck(y: System, w: nat) {
    w < |y.ws| && View(y.s, w).Some? && View(y.s, w).value.state == S.Busy && Unfinished(y.ws[w]) == 0
  }

  /** A timeout sweep that declares worker w dead. */
  ghost predicate Expires(y: System, w: nat, e: Event) {
    e.Sweep? && View(y.s, w).Some? && S.Expired(View(y.s, w).value, e.now, y.s.timeout)
  }

  // One event

  lemma StuckPops(y: System, w: nat, m: Message)
    requires Safe(y) && IsStuck(y, w) && y.ws[w].outbox != [] && m == y.ws[w].outbox[0]
    ensures m.Beat? && Unfinished(y.ws[w].(outbox := y.ws[w].outbox[1..])) == 0
  {
    var x := y.ws[w];
    assert WorkerOk(x, View(y.s, w), y.deaths, Exact(y));
    MessagesShift(x.outbox, x.outbox[1..], |x.outbox| - 1, 0);
  }

  lemma OthersDone(y: System, w: nat, v: nat)
    requires Safe(y) && v < |y.ws| && v != w && y.ws[v].outbox != [] && y.ws[v].outbox[0].Done?
    ensures var m := y.ws[v].outbox[0]; View(S.Complete(y.s, m.task, m.status), w) == View(y.s, w)
  {
    assert TaskOk(y, y.ws[v].outbox[0].task);
    OthersUnseen(y, v, w);
  }

  lemma StuckThroughHandle(y: System, w: nat, v: nat, now: int)
    requires Safe(y) && IsStuck(y, w) && Enabled(y, Handle(v, now))
    ensures IsStuck(Do(y, Handle(v, now)), w)
  {
    var m := y.ws[v].outbox[0];
    assert WorkerOk(y.ws[v], View(y.s, v), y.deaths, Exact(y));
    if v == w { StuckPops(y, w, m); }
    match m
    case Hello(maxBatch) => ViewRegister(y.s, NewWorker(v, 1, maxBatch, 0, now), now, w);
    case Beat => ViewHeartbeat(y.s, v, now, w);
    case Done(_, _) => OthersDone(y, w, v);
  }

  lemma StuckReceives(x: Worker)
    requires Unfinished(x) == 0 && x.inbox != []
    ensures Unfinished(Received(x)) == 0
  {
    var b := x.inbox[0];
    BatchesShift(x.inbox, x.inbox[1..], |x.inbox| - 1, 0);
    EnqueueSize(x.local, b, |b|);
  }

  lemma StuckSays(x: Worker, m: Message)
    requires Unfinished(x) == 0 && !m.Done?
    ensures Unfinished(x.(outbox := x.outbox + [m])) == 0
  {
    MessagesAppend(x.outbox, m, 0);
  }

  lemma StuckThroughDispatch(y: System, w: nat, v: nat, sent: bool, now: int)
    requires IsStuck(y, w) && Enabled(y, Dispatch(v, sent, now))
    ensures IsStuck(Do(y, Dispatch(v, sent, now)), w)
  {
    ViewDispatched(y.s, Batch(y.q, BatchLimit(S.RowOf(y.s, v))), v, sent, now, w);
  }

  lemma KnownHasStarted(y: System, w: nat)
    requires Safe(y) && w < |y.ws| && View(y.s, w).Some?
    ensures y.ws[w].started
  {
    assert WorkerOk(y.ws[w], View(y.s, w), y.deaths, Exact(y));
  }

  /** No step of a worker, its own or another's, gets it going again. */
  lemma StuckThroughWorker(y: System, w: nat, e: Event)
    requires Safe(y) && IsStuck(y, w) && Enabled(y, e)
    requires e.Start? || e.SendBeat? || e.Receive? || e.Begin? || e.Finish?
    ensures IsStuck(Do(y, e), w)
  {
    KnownHasStarted(y, w);
    if e.w == w {
      match e
      case Start(_, maxBatch, sent) =>
      case SendBeat(_, sent) => StuckSays(y.ws[w], Beat);
      case Receive(_) => StuckReceives(y.ws[w]);
      case Begin(_) =>
      case Finish(_, status, sent) =>
    }
  }

  /** A stuck worker is still stuck after an event if and only if the event is not a sweep that declares it dead. */
  lemma StuckUntilExpired(y: System, w: nat, e: Event)
    requires Safe(y) && IsStuck(y, w)
    ensures IsStuck(Apply(y, e), w) <==> !Expires(y, w, e)
  {
    if Enabled(y, e) {
      match e
      case Submit(t) =>
      case Handle(v, now) => StuckThroughHandle(y, w, v, now);
      case Dispatch(v, sent, now) => StuckThroughDispatch(y, w, v, sent, now);
      case Sweep(now) => ViewSweep(y.s, now, w);
      case _ => StuckThroughWorker(y, w, e);
    }
  }

  // Whole continuations

  /** No sweep of the run declares worker w dead. */
  ghost predicate Spared(y: System, w: nat, es: seq<Event>) {
    es == [] || (Spared(y, w, es[..|es| - 1]) && !Expires(Exec(y, es[..|es| - 1]), w, es[|es| - 1]))
  }

  /** Whatever else happens, for however long, a stuck worker stays stuck until a sweep declares it dead. */
  lemma {:induction false} StuckForGood(y: System, w: nat, es: seq<Event>)
    requires Safe(y) && IsStuck(y, w) && Spared(y, w, es)
    ensures IsStuck(Exec(y, es), w)
  {
    if es != [] {
      StuckForGood(y, w, es[..|es| - 1]);
      ExecKeepsSafe(y, es[..|es| - 1]);
      StuckUntilExpired(Exec(y, es[..|es| - 1]), w, es[|es| - 1]);
    }
  }

  lemma {:induction false} NoSweepSpares(y: System, w: nat, es: seq<Event>)
    requires forall k | 0 <= k < |es| :: !es[k].Sweep?
    ensures Spared(y, w, es)
  {
    if es != [] { NoSweepSpares(y, w, es[..|es| - 1]); }
  }

  /** In particular without sweeps, from every reachable state. */
  lemma StuckWithoutSweeps(y0: System, past: seq<Event>, w: nat, es: seq<Event>)
    requires Initial(y0) && IsStuck(Exec(y0, past), w) && forall k | 0 <= k < |es| :: !es[k].Sweep?
    ensures IsStuck(Exec(Exec(y0, past), es), w)
  {
    ExecSafe(y0, past);
    NoSweepSpares(Exec(y0, past), w, es);
    StuckForGood(Exec(y0, past), w, es);
  }

  // A run that gets a worker stuck

  lemma AnswerLost(y: System, w: nat, status: int)
    requires w < |y.ws| && Running(y.ws[w]) && View(y.s, w).Some? && View(y.s, w).value.state == S.Busy
    ensures IsStuck(Apply(y, Finish(w, status, false)), w)
  {}

  /** On every system with a worker w, for every task: submitted, dispatched to w, executed there, and the answer not sent,
      it leaves w busy with nothing to finish. */
  lemma LostAnswerLeavesStuck(y0: System, w: nat, t: Task, maxBatch: nat, status: int, now: int)
    requires Initial(y0) && w < |y0.ws| && maxBatch <= BATCH_SLOTS
    ensures IsStuck(Exec(y0, [] + [Start(w, maxBatch, true)] + [Handle(w, now)] + [Submit(t)] + [Dispatch(w, true, now)]
                             + [Receive(w)] + [Begin(w)] + [Finish(w, status, false)]), w)
  {
    var es := Joining(w, maxBatch, now);
    JoinedRests(y0, w, maxBatch, now);
    RunsNext(Exec(y0, es), w, 0, t, now);
    ExecRound(y0, es, w, t, now);
    var e4 := es + [Submit(t)] + [Dispatch(w, true, now)] + [Receive(w)] + [Begin(w)];
    AnswerLost(Exec(y0, e4), w, status);
    ExecAppend(y0, e4, Finish(w, status, false));
  }
}
