/** Channels, queues and tables of a run, read off its events. */
module Histories {
  import opened Wrappers
  import opened QueueSpec
  import opened Batches
  import opened CoordSpec
  import opened Protocol
  import opened TableViews
  import opened Safety
  import opened Limits
  import opened SchedRuns
  import S = SchedSpec

  // From a worker: what it said, and how much of it was handled

  ghost function Sends(y: System, e: Event, w: nat): seq<Message> {
    if !Enabled(y, e) then []
    else if e.Start? && e.w == w && e.sent then [Hello(e.maxBatch)]
    else if e.SendBeat? && e.w == w && e.sent then [Beat]
    else if e.Finish? && e.w == w && e.sent then [Done(y.ws[w].executing.value.id, e.status)]
    else []
  }

  ghost function SentBy(y0: System, es: seq<Event>, w: nat): seq<Message> {
    if es == [] then []
    else
      var front := es[..|es| - 1];
      SentBy(y0, front, w) + Sends(Exec(y0, front), es[|es| - 1], w)
  }

  predicate Takes(y: System, e: Event, w: nat) {
    e.Handle? && e.w == w && Enabled(y, e)
  }

  ghost function Handles(y0: System, es: seq<Event>, w: nat): nat {
    if es == [] then 0
    else
      var front := es[..|es| - 1];
      Handles(y0, front, w) + if Takes(Exec(y0, front), es[|es| - 1], w) then 1 else 0
  }

  lemma OutboxStep(y: System, e: Event, w: nat)
    requires w < |y.ws|
    ensures |Apply(y, e).ws| == |y.ws|
    ensures Takes(y, e, w) ==> y.ws[w].outbox != [] && Apply(y, e).ws[w].outbox == y.ws[w].outbox[1..]
    ensures !Takes(y, e, w) ==> Apply(y, e).ws[w].outbox == y.ws[w].outbox + Sends(y, e, w)
  {}

  /** On every run the messages of a worker are handled in the order it sent them, each once. */
  lemma {:induction false} MessagesInOrder(y0: System, es: seq<Event>, w: nat)
    requires Initial(y0) && w < |y0.ws|
    ensures |Exec(y0, es).ws| == |y0.ws| && Handles(y0, es, w) <= |SentBy(y0, es, w)|
    ensures Exec(y0, es).ws[w].outbox == SentBy(y0, es, w)[Handles(y0, es, w)..]
  {
    if es == [] {
      assert Unstarted(y0.ws[w]);
    } else {
      var front, e := es[..|es| - 1], es[|es| - 1];
      MessagesInOrder(y0, front, w);
      OutboxStep(Exec(y0, front), e, w);
      var m, k := SentBy(y0, front, w), Handles(y0, front, w);
      var more := Sends(Exec(y0, front), e, w);
      if Takes(Exec(y0, front), e, w) { assert m[k..][1..] == m[k + 1..]; } else { assert (m + more)[k..] == m[k..] + more; }
    }
  }

  // To a worker: the batches, and how many it unpacked

  /** The number of tasks worker w may be sent at once. */
  ghost function Granted(y0: System, es: seq<Event>, w: nat): nat {
    if Named(y0, es, w).Some? then Share(Named(y0, es, w).value) else 0
  }

  /** The oldest tasks of the queue, as many as granted. */
  ghost function Oldest(q: Queue, granted: nat): seq<Task> {
    Contents(q)[..Smaller(Size(q), granted)]
  }

  predicate Ships(y: System, e: Event, w: nat) {
    e.Dispatch? && e.w == w && e.sent && Enabled(y, e)
  }

  ghost function SentTo(y0: System, es: seq<Event>, w: nat): seq<seq<Task>> {
    if es == [] then []
    else
      var front := es[..|es| - 1];
      var y := Exec(y0, front);
      SentTo(y0, front, w) + if Ships(y, es[|es| - 1], w) then [Oldest(y.q, Granted(y0, front, w))] else []
  }

  predicate Unpacks(y: System, e: Event, w: nat) {
    e.Receive? && e.w == w && Enabled(y, e)
  }

  ghost function Unpacked(y0: System, es: seq<Event>, w: nat): nat {
    if es == [] then 0
    else
      var front := es[..|es| - 1];
      Unpacked(y0, front, w) + if Unpacks(Exec(y0, front), es[|es| - 1], w) then 1 else 0
  }

  lemma InboxStep(y: System, e: Event, w: nat, named: Option<nat>)
    requires KeptAt(y, w, named)
    ensures |Apply(y, e).ws| == |y.ws|
    ensures Unpacks(y, e, w) ==> y.ws[w].inbox != [] && Apply(y, e).ws[w].inbox == y.ws[w].inbox[1..]
    ensures Ships(y, e, w) ==> named.Some? && Apply(y, e).ws[w].inbox == y.ws[w].inbox + [Oldest(y.q, Share(named.value))]
    ensures !Unpacks(y, e, w) && !Ships(y, e, w) ==> Apply(y, e).ws[w].inbox == y.ws[w].inbox
  {
    if Ships(y, e, w) { BatchBySize(y, w, named, e.now); }
  }

  /** On every run the batches a worker is sent are the oldest tasks, as many as it named, unpacked in order, each once. */
  lemma {:induction false} BatchesInOrder(y0: System, es: seq<Event>, w: nat)
    requires Initial(y0) && w < |y0.ws|
    ensures |Exec(y0, es).ws| == |y0.ws| && Unpacked(y0, es, w) <= |SentTo(y0, es, w)|
    ensures Exec(y0, es).ws[w].inbox == SentTo(y0, es, w)[Unpacked(y0, es, w)..]
  {
    if es == [] {
      assert Unstarted(y0.ws[w]);
    } else {
      var front, e := es[..|es| - 1], es[|es| - 1];
      BatchesInOrder(y0, front, w);
      ExecKept(y0, front, w);
      var y := Exec(y0, front);
      InboxStep(y, e, w, Named(y0, front, w));
      var m, k := SentTo(y0, front, w), Unpacked(y0, front, w);
      assert SentTo(y0, es, w) == m + if Ships(y, e, w) then [Oldest(y.q, Granted(y0, front, w))] else [];
      if Unpacks(y, e, w) { assert m[k..][1..] == m[k + 1..]; }
      if Ships(y, e, w) {
        var b := [Oldest(y.q, Granted(y0, front, w))];
        assert (m + b)[k..] == m[k..] + b;
      }
    }
  }

  // The queues, as runs of queue operations

  ghost function Enqueues(b: seq<Task>, n: nat): seq<Op>
    requires n <= |b|
  {
    if n == 0 then [] else Enqueues(b, n - 1) + [EnqueueOp(b[n - 1], true)]
  }

  ghost function Dequeues(n: nat): seq<Op> {
    if n == 0 then [] else Dequeues(n - 1) + [DequeueOp]
  }

  lemma RunAppend(maxSize: nat, ops: seq<Op>, more: seq<Op>, op: Op)
    ensures Run(maxSize, false, ops + (more + [op])) == Step(Run(maxSize, false, ops + more), op)
  {
    var all := ops + (more + [op]);
    assert all[..|all| - 1] == ops + more && all[|all| - 1] == op;
  }

  lemma {:induction false} RunEnqueues(maxSize: nat, ops: seq<Op>, b: seq<Task>, n: nat)
    requires n <= |b|
    ensures var r, r' := Run(maxSize, false, ops), Run(maxSize, false, ops + Enqueues(b, n));
      r'.q == EnqueueFirst(r.q, b, n) && r'.h.delivered == r.h.delivered
  {
    if n == 0 {
      assert ops + Enqueues(b, n) == ops;
    } else {
      RunEnqueues(maxSize, ops, b, n - 1);
      RunAppend(maxSize, ops, Enqueues(b, n - 1), EnqueueOp(b[n - 1], true));
    }
  }

  lemma {:induction false} RunDequeues(maxSize: nat, ops: seq<Op>, n: nat, q: Queue)
    requires q == Run(maxSize, false, ops).q
    ensures Run(maxSize, false, ops + Dequeues(n)).q == AfterBatch(q, n)
  {
    if n == 0 {
      assert ops + Dequeues(n) == ops;
    } else {
      RunDequeues(maxSize, ops, n - 1, q);
      RunAppend(maxSize, ops, Dequeues(n - 1), DequeueOp);
    }
  }

  predicate BeginsAt(y: System, e: Event, w: nat) {
    e.Begin? && e.w == w && Enabled(y, e)
  }

  /** A worker's queue: the batches it unpacks go in, what it begins comes out. */
  ghost function LocalOps(y0: System, es: seq<Event>, w: nat): seq<Op> {
    if es == [] then []
    else
      var front, e := es[..|es| - 1], es[|es| - 1];
      var y, bs, k := Exec(y0, front), SentTo(y0, front, w), Unpacked(y0, front, w);
      LocalOps(y0, front, w)
      + if Unpacks(y, e, w) && k < |bs| then Enqueues(bs[k], |bs[k]|)
        else if BeginsAt(y, e, w) then [DequeueOp]
        else []
  }

  /** The tasks a worker begins. */
  ghost function Begins(y0: System, es: seq<Event>, w: nat): seq<Task> {
    if es == [] then []
    else
      var front, e := es[..|es| - 1], es[|es| - 1];
      var y := Exec(y0, front);
      Begins(y0, front, w)
      + if BeginsAt(y, e, w) && w < |y.ws| then Listed(Apply(y, e).ws[w].executing) else []
  }

  ghost predicate LocalIs(x: Worker, r: Recorded, begun: seq<Task>) {
    x.local == r.q && begun == r.h.delivered
  }

  lemma UnpackedRun(x: Worker, ops: seq<Op>, begun: seq<Task>)
    requires x.inbox != [] && LocalIs(x, Run(LOCAL_CAPACITY, false, ops), begun)
    ensures LocalIs(Received(x), Run(LOCAL_CAPACITY, false, ops + Enqueues(x.inbox[0], |x.inbox[0]|)), begun)
  {
    RunEnqueues(LOCAL_CAPACITY, ops, x.inbox[0], |x.inbox[0]|);
  }

  lemma BegunRun(x: Worker, ops: seq<Op>, begun: seq<Task>)
    requires Next(x.local).Some? && MayReserve(x) && LocalIs(x, Run(LOCAL_CAPACITY, false, ops), begun)
    ensures LocalIs(Begun(x), Run(LOCAL_CAPACITY, false, ops + [DequeueOp]), begun + Listed(Begun(x).executing))
  {
    RunAppend(LOCAL_CAPACITY, ops, [], DequeueOp);
    assert [] + [DequeueOp] == [DequeueOp] && ops + [] == ops;
  }

  lemma LocalAfter(y: System, e: Event, w: nat)
    requires w < |y.ws|
    ensures |Apply(y, e).ws| == |y.ws|
    ensures Unpacks(y, e, w) ==> Apply(y, e).ws[w] == Received(y.ws[w])
    ensures BeginsAt(y, e, w) ==> Apply(y, e).ws[w] == Begun(y.ws[w])
    ensures !Unpacks(y, e, w) && !BeginsAt(y, e, w) ==> Apply(y, e).ws[w].local == y.ws[w].local
  {}

  lemma LocalStep(y: System, e: Event, w: nat, ops: seq<Op>, begun: seq<Task>)
    requires w < |y.ws| && Ready(y.ws[w]) && LocalIs(y.ws[w], Run(LOCAL_CAPACITY, false, ops), begun)
    ensures |Apply(y, e).ws| == |y.ws|
    ensures var x, x' := y.ws[w], Apply(y, e).ws[w];
      if Unpacks(y, e, w) then
        LocalIs(x', Run(LOCAL_CAPACITY, false, ops + Enqueues(x.inbox[0], |x.inbox[0]|)), begun)
      else if BeginsAt(y, e, w) then
        LocalIs(x', Run(LOCAL_CAPACITY, false, ops + [DequeueOp]), begun + Listed(x'.executing))
      else LocalIs(x', Run(LOCAL_CAPACITY, false, ops), begun)
  {
    LocalAfter(y, e, w);
    if Unpacks(y, e, w) {
      UnpackedRun(y.ws[w], ops, begun);
    } else if BeginsAt(y, e, w) {
      BegunRun(y.ws[w], ops, begun);
    }
  }

  /** On every run a worker begins, in order, the tasks a queue delivers that is given the batches sent to the worker. */
  lemma {:induction false} WorkerServesQueue(y0: System, es: seq<Event>, w: nat)
    requires Initial(y0) && w < |y0.ws|
    ensures |Exec(y0, es).ws| == |y0.ws|
    ensures Exec(y0, es).ws[w].local == Run(1000, false, LocalOps(y0, es, w)).q
    ensures Begins(y0, es, w) == Run(1000, false, LocalOps(y0, es, w)).h.delivered
  {
    if es == [] {
      assert Unstarted(y0.ws[w]);
    } else {
      var front, e := es[..|es| - 1], es[|es| - 1];
      WorkerServesQueue(y0, front, w);
      BatchesInOrder(y0, front, w);
      ExecSafe(y0, front);
      var y := Exec(y0, front);
      assert WorkerOk(y.ws[w], View(y.s, w), y.deaths, Exact(y));
      var ops, begun := LocalOps(y0, front, w), Begins(y0, front, w);
      LocalStep(y, e, w, ops, begun);
      assert ops + [] == ops && begun + [] == begun;
    }
  }

  /** Taken out for sending: when the send fails the batch goes in again. */
  ghost function OfferOps(q: Queue, granted: nat, sent: bool): seq<Op> {
    if sent then Dequeues(granted) else Dequeues(granted) + Enqueues(Oldest(q, granted), |Oldest(q, granted)|)
  }

  /** The coordinator's queue: tasks go in as submitted and are offered to workers. */
  ghost function DeskOps(y0: System, es: seq<Event>): seq<Op> {
    if es == [] then []
    else
      var front, e := es[..|es| - 1], es[|es| - 1];
      var y := Exec(y0, front);
      DeskOps(y0, front)
      + if e.Submit? && Enabled(y, e) then [EnqueueOp(e.t, true)]
        else if e.Dispatch? && Enabled(y, e) then OfferOps(y.q, Granted(y0, front, e.w), e.sent)
        else []
  }

  lemma OldestIsBatch(q: Queue, n: nat)
    ensures Oldest(q, n) == Batch(q, n)
  {
    BatchSize(q, n);
    BatchIsPrefix(q, n);
  }

  lemma Regrouped<T>(a: seq<T>, b: seq<T>, c: seq<T>)
    ensures a + (b + c) == a + b + c
  {}

  lemma RefilledRun(ops: seq<Op>, n: nat, b: seq<Task>)
    ensures Run(COORDINATOR_CAPACITY, false, ops + (Dequeues(n) + Enqueues(b, |b|))).q
         == EnqueueAll(AfterBatch(Run(COORDINATOR_CAPACITY, false, ops).q, n), b)
  {
    RunDequeues(COORDINATOR_CAPACITY, ops, n, Run(COORDINATOR_CAPACITY, false, ops).q);
    RunEnqueues(COORDINATOR_CAPACITY, ops + Dequeues(n), b, |b|);
    Regrouped(ops, Dequeues(n), Enqueues(b, |b|));
  }

  lemma OfferedRun(ops: seq<Op>, n: nat, sent: bool)
    ensures var q := Run(COORDINATOR_CAPACITY, false, ops).q;
      Run(COORDINATOR_CAPACITY, false, ops + OfferOps(q, n, sent)).q == DispatchedQueue(q, n, sent)
  {
    var q := Run(COORDINATOR_CAPACITY, false, ops).q;
    OldestIsBatch(q, n);
    if sent { RunDequeues(COORDINATOR_CAPACITY, ops, n, q); } else { RefilledRun(ops, n, Oldest(q, n)); }
  }

  lemma DeskStep(y: System, e: Event, ops: seq<Op>, named: Option<nat>)
    requires y.q == Run(COORDINATOR_CAPACITY, false, ops).q
    requires e.Dispatch? && Enabled(y, e) ==> KeptAt(y, e.w, named)
    ensures e.Submit? && Enabled(y, e) ==> Apply(y, e).q == Run(COORDINATOR_CAPACITY, false, ops + [EnqueueOp(e.t, true)]).q
    ensures e.Dispatch? && Enabled(y, e) ==>
      named.Some? && Apply(y, e).q == Run(COORDINATOR_CAPACITY, false, ops + OfferOps(y.q, Share(named.value), e.sent)).q
    ensures !((e.Submit? || e.Dispatch?) && Enabled(y, e)) ==> Apply(y, e).q == y.q
  {
    if e.Submit? {
      RunAppend(COORDINATOR_CAPACITY, ops, [], EnqueueOp(e.t, true));
      assert [] + [EnqueueOp(e.t, true)] == [EnqueueOp(e.t, true)] && ops + [] == ops;
    } else if e.Dispatch? && Enabled(y, e) {
      OfferedRun(ops, Share(named.value), e.sent);
    }
  }

  /** On every run the coordinator's queue is the queue those operations leave. */
  lemma {:induction false} DeskServesQueue(y0: System, es: seq<Event>)
    requires Initial(y0)
    ensures Exec(y0, es).q == Run(10000, false, DeskOps(y0, es)).q
  {
    if es != [] {
      var front, e := es[..|es| - 1], es[|es| - 1];
      DeskServesQueue(y0, front);
      SameWorkers(y0, front);
      var w := if e.Dispatch? then e.w else 0;
      if w < |y0.ws| { ExecKept(y0, front, w); }
      DeskStep(Exec(y0, front), e, DeskOps(y0, front), Named(y0, front, w));
      assert DeskOps(y0, front) + [] == DeskOps(y0, front);
    }
  }

  // The tables, as a run of table operations

  ghost function Trackings(b: seq<Task>, n: nat, w: nat, now: int): seq<S.Op>
    requires n <= |b|
  {
    if n == 0 then [] else Trackings(b, n - 1, w, now) + [S.TrackOp(b[n - 1].id, w, now)]
  }

  /** What handling a message does to the tables. */
  function HandlingOp(w: nat, m: Message, now: int): S.Op {
    match m
    case Hello(maxBatch) => S.RegisterOp(S.WorkerInfo(w, S.Idle, now, 0, 1, Share(maxBatch), 0, 0, 0, 0), now)
    case Beat => S.HeartbeatOp(w, now)
    case Done(task, status) => S.CompleteOp(task, status)
  }

  ghost function SentOps(b: seq<Task>, w: nat, now: int): seq<S.Op> {
    [S.BusyOp(w, |b|)] + Trackings(b, |b|, w, now)
  }

  ghost function TableOps(y0: System, es: seq<Event>): seq<S.Op> {
    if es == [] then []
    else
      var front, e := es[..|es| - 1], es[|es| - 1];
      var y := Exec(y0, front);
      TableOps(y0, front)
      + if !Enabled(y, e) then []
        else if e.Sweep? then [S.TimeoutsOp(e.now)]
        else if e.Handle? && Handles(y0, front, e.w) < |SentBy(y0, front, e.w)| then
          [HandlingOp(e.w, SentBy(y0, front, e.w)[Handles(y0, front, e.w)], e.now)]
        else if e.Dispatch? && e.sent then SentOps(Oldest(y.q, Granted(y0, front, e.w)), e.w, e.now)
        else []
  }

  lemma TablesAppend(s: S.Sched, ops: seq<S.Op>, more: seq<S.Op>, op: S.Op)
    ensures S.Run(s, ops + (more + [op])) == S.Step(S.Run(s, ops + more), op)
  {
    var all := ops + (more + [op]);
    assert all[..|all| - 1] == ops + more && all[|all| - 1] == op;
  }

  lemma TablesOne(s: S.Sched, ops: seq<S.Op>, op: S.Op)
    ensures S.Run(s, ops + [op]) == S.Step(S.Run(s, ops), op)
  {
    TablesAppend(s, ops, [], op);
    assert [] + [op] == [op] && ops + [] == ops;
  }

  lemma {:induction false} RunTrackings(s: S.Sched, ops: seq<S.Op>, b: seq<Task>, n: nat, w: nat, now: int)
    requires n <= |b|
    ensures S.Run(s, ops + Trackings(b, n, w, now)) == TrackFirst(S.Run(s, ops), b, n, w, now)
  {
    if n == 0 {
      assert ops + Trackings(b, n, w, now) == ops;
    } else {
      RunTrackings(s, ops, b, n - 1, w, now);
      TablesAppend(s, ops, Trackings(b, n - 1, w, now), S.TrackOp(b[n - 1].id, w, now));
    }
  }

  lemma RunSent(s: S.Sched, ops: seq<S.Op>, b: seq<Task>, w: nat, now: int)
    requires b != []
    ensures S.Run(s, ops + SentOps(b, w, now)) == DispatchedSched(S.Run(s, ops), b, w, true, now)
  {
    TablesOne(s, ops, S.BusyOp(w, |b|));
    RunTrackings(s, ops + [S.BusyOp(w, |b|)], b, |b|, w, now);
    Regrouped(ops, [S.BusyOp(w, |b|)], Trackings(b, |b|, w, now));
  }

  lemma TablesSent(y: System, w: nat, named: Option<nat>, now: int, s: S.Sched, ops: seq<S.Op>)
    requires KeptAt(y, w, named) && Enabled(y, Dispatch(w, true, now)) && y.s == S.Run(s, ops)
    ensures named.Some?
    ensures Apply(y, Dispatch(w, true, now)).s == S.Run(s, ops + SentOps(Oldest(y.q, Share(named.value)), w, now))
  {
    OldestIsBatch(y.q, Share(named.value));
    BatchSize(y.q, Share(named.value));
    RunSent(s, ops, Oldest(y.q, Share(named.value)), w, now);
  }

  lemma TablesHandled(y: System, w: nat, now: int, s: S.Sched, ops: seq<S.Op>)
    requires Enabled(y, Handle(w, now)) && y.s == S.Run(s, ops)
    ensures Apply(y, Handle(w, now)).s == S.Run(s, ops + [HandlingOp(w, y.ws[w].outbox[0], now)])
  {
    TablesOne(s, ops, HandlingOp(w, y.ws[w].outbox[0], now));
  }

  lemma TablesElse(y: System, e: Event, s: S.Sched, ops: seq<S.Op>)
    requires y.s == S.Run(s, ops)
    ensures e.Sweep? ==> Apply(y, e).s == S.Run(s, ops + [S.TimeoutsOp(e.now)])
    ensures !(e.Sweep? || e.Handle? || (e.Dispatch? && e.sent)) || !Enabled(y, e) ==> Apply(y, e).s == y.s
  {
    if e.Sweep? { TablesOne(s, ops, S.TimeoutsOp(e.now)); }
  }

  /** On every run the tables are those that the handled messages, the sent batches and the sweeps leave. */
  lemma {:induction false} TablesFollow(y0: System, es: seq<Event>)
    requires Initial(y0)
    ensures Exec(y0, es).s == S.Run(S.New(256, 30), TableOps(y0, es))
  {
    if es != [] {
      var front, e := es[..|es| - 1], es[|es| - 1];
      TablesFollow(y0, front);
      SameWorkers(y0, front);
      var y, s, ops := Exec(y0, front), S.New(256, 30), TableOps(y0, front);
      TablesElse(y, e, s, ops);
      assert ops + [] == ops;
      if e.Handle? && Enabled(y, e) {
        MessagesInOrder(y0, front, e.w);
        TablesHandled(y, e.w, e.now, s, ops);
      } else if e.Dispatch? && e.sent && Enabled(y, e) {
        ExecKept(y0, front, e.w);
        TablesSent(y, e.w, Named(y0, front, e.w), e.now, s, ops);
      }
    }
  }

  /** So a worker's row is the story its messages, its batches and the sweeps tell of it. */
  lemma RowsFollow(y0: System, es: seq<Event>, w: nat)
    requires Initial(y0)
    ensures View(Exec(y0, es).s, w) == Story(S.New(256, 30), TableOps(y0, es), w)
  {
    TablesFollow(y0, es);
    RowsTell(256, 30, TableOps(y0, es), w);
  }

  /** And a task's row the story of that task. */
  lemma TaskRowsFollow(y0: System, es: seq<Event>, task: nat)
    requires Initial(y0)
    ensures TaskRow(Exec(y0, es).s, task) == TaskStory(S.New(256, 30), TableOps(y0, es), task)
  {
    TablesFollow(y0, es);
    TasksTell(256, 30, TableOps(y0, es), task);
  }
}
