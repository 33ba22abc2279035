/** Where a task can be: counts per task id over the places of the step system. */
module Places {
  import opened Wrappers
  import opened QueueSpec
  import opened Batches
  import opened Protocol

  // Batches on their way to a worker

  ghost function InBatches(bs: seq<seq<Task>>, n: nat, id: nat): nat
    requires n <= |bs|
  {
    if n == 0 then 0 else InBatches(bs, n - 1, id) + CountOf(bs[n - 1], id)
  }

  ghost function BatchesSize(bs: seq<seq<Task>>, n: nat): nat
    requires n <= |bs|
  {
    if n == 0 then 0 else BatchesSize(bs, n - 1) + |bs[n - 1]|
  }

  lemma {:induction false} BatchesPrefix(r: seq<seq<Task>>, s: seq<seq<Task>>, n: nat, id: nat)
    requires n <= |r| && n <= |s| && forall k | 0 <= k < n :: r[k] == s[k]
    ensures InBatches(r, n, id) == InBatches(s, n, id) && BatchesSize(r, n) == BatchesSize(s, n)
  {
    if n > 0 { BatchesPrefix(r, s, n - 1, id); }
  }

  lemma BatchesAppend(bs: seq<seq<Task>>, b: seq<Task>, id: nat)
    ensures InBatches(bs + [b], |bs| + 1, id) == InBatches(bs, |bs|, id) + CountOf(b, id)
    ensures BatchesSize(bs + [b], |bs| + 1) == BatchesSize(bs, |bs|) + |b|
  {
    BatchesPrefix(bs + [b], bs, |bs|, id);
  }

  lemma {:induction false} BatchesShift(s: seq<seq<Task>>, r: seq<seq<Task>>, n: nat, id: nat)
    requires n < |s| && |r| == |s| - 1 && forall k | 0 <= k < |r| :: r[k] == s[k + 1]
    ensures InBatches(s, n + 1, id) == CountOf(s[0], id) + InBatches(r, n, id)
    ensures BatchesSize(s, n + 1) == |s[0]| + BatchesSize(r, n)
  {
    if n > 0 {
      BatchesShift(s, r, n - 1, id);
    } else {
      assert InBatches(s, 0, id) == 0 && BatchesSize(s, 0) == 0;
    }
  }

  // Results on their way to the coordinator, or arrived there

  ghost function OfTask(m: Message, id: nat): nat {
    if m.Done? then Hit(m.task, id) else 0
  }

  ghost function InMessages(ms: seq<Message>, n: nat, id: nat): nat
    requires n <= |ms|
  {
    if n == 0 then 0 else InMessages(ms, n - 1, id) + OfTask(ms[n - 1], id)
  }

  ghost function Results(ms: seq<Message>, n: nat): nat
    requires n <= |ms|
  {
    if n == 0 then 0 else Results(ms, n - 1) + if ms[n - 1].Done? then 1 else 0
  }

  lemma {:induction false} MessagesPrefix(r: seq<Message>, s: seq<Message>, n: nat, id: nat)
    requires n <= |r| && n <= |s| && forall k | 0 <= k < n :: r[k] == s[k]
    ensures InMessages(r, n, id) == InMessages(s, n, id) && Results(r, n) == Results(s, n)
  {
    if n > 0 { MessagesPrefix(r, s, n - 1, id); }
  }

  lemma MessagesAppend(ms: seq<Message>, m: Message, id: nat)
    ensures InMessages(ms + [m], |ms| + 1, id) == InMessages(ms, |ms|, id) + OfTask(m, id)
    ensures Results(ms + [m], |ms| + 1) == Results(ms, |ms|) + if m.Done? then 1 else 0
  {
    MessagesPrefix(ms + [m], ms, |ms|, id);
  }

  lemma {:induction false} MessagesShift(s: seq<Message>, r: seq<Message>, n: nat, id: nat)
    requires n < |s| && |r| == |s| - 1 && forall k | 0 <= k < |r| :: r[k] == s[k + 1]
    ensures InMessages(s, n + 1, id) == OfTask(s[0], id) + InMessages(r, n, id)
    ensures Results(s, n + 1) == (if s[0].Done? then 1 else 0) + Results(r, n)
  {
    if n > 0 {
      MessagesShift(s, r, n - 1, id);
    } else {
      assert InMessages(s, 0, id) == 0 && Results(s, 0) == 0;
    }
  }

  // One worker

  ghost function Executing(o: Option<Task>, id: nat): nat {
    if o.Some? then Hit(o.value.id, id) else 0
  }

  /** Begun here and its result not yet processed: executing, answered, or the answer lost. */
  ghost function Began(x: Worker, id: nat): nat {
    Executing(x.executing, id) + InMessages(x.outbox, |x.outbox|, id) + CountOf(x.lost, id)
  }

  /** Sent to this worker and its result not yet processed. */
  ghost function Held(x: Worker, id: nat): nat {
    InBatches(x.inbox, |x.inbox|, id) + InQueue(x.local, id) + CountOf(x.dropped, id) + Began(x, id)
  }

  ghost function Outstanding(x: Worker): nat {
    BatchesSize(x.inbox, |x.inbox|) + Size(x.local) + |x.dropped|
    + (if x.executing.Some? then 1 else 0) + Results(x.outbox, |x.outbox|) + |x.lost|
  }

  /** Of these, the tasks that can still produce a result. */
  ghost function Unfinished(x: Worker): nat {
    BatchesSize(x.inbox, |x.inbox|) + Size(x.local) + (if x.executing.Some? then 1 else 0) + Results(x.outbox, |x.outbox|)
  }

  lemma {:induction false} CountConcat(r: seq<Task>, s: seq<Task>, n: nat, id: nat)
    requires n <= |s|
    ensures CountTo(r + s, |r| + n, id) == CountOf(r, id) + CountTo(s, n, id)
  {
    if n > 0 { CountConcat(r, s, n - 1, id); } else { CountPrefix(r + s, r, |r|, id); }
  }

  lemma ReceivedHeld(x: Worker, id: nat)
    requires x.inbox != []
    ensures Held(Received(x), id) == Held(x, id) && Began(Received(x), id) == Began(x, id)
    ensures Outstanding(Received(x)) == Outstanding(x)
  {
    var b := x.inbox[0];
    BatchesShift(x.inbox, x.inbox[1..], |x.inbox| - 1, id);
    EnqueueCount(x.local, b, |b|, id);
    EnqueueSize(x.local, b, |b|);
    CountConcat(x.dropped, Rejected(x.local, b), |Rejected(x.local, b)|, id);
  }

  lemma BegunHeld(x: Worker, id: nat)
    requires Next(x.local).Some? && x.executing.None? && MayReserve(x)
    ensures Held(Begun(x), id) == Held(x, id) && Outstanding(Begun(x)) == Outstanding(x)
    ensures Began(Begun(x), id) == Began(x, id) + Hit(Next(x.local).value.id, id)
  {
    DequeueCount(x.local, id);
  }

  lemma {:induction false} UniqueCount(s: seq<Task>, n: nat, id: nat)
    requires UniqueIds(s) && n <= |s|
    ensures CountTo(s, n, id) <= 1
  {
    if n > 0 {
      UniqueCount(s, n - 1, id);
      CountHolds(s, n - 1, id);
    }
  }

  lemma UniqueInQueue(q: Queue, id: nat)
    requires Inv(q) && !q.allowDuplicates
    ensures InQueue(q, id) <= 1
  {
    UniqueCount(q.high, |q.high|, id);
    UniqueCount(q.normal, |q.normal|, id);
    CountHolds(q.high, |q.high|, id);
    CountHolds(q.normal, |q.normal|, id);
  }

  lemma TakenAndPutBack(q: Queue)
    requires Next(q).Some?
    ensures Enqueue(Dequeue(q), Next(q).value, true) == EnqueueAll(AfterBatch(q, 1), Batch(q, 1))
  {
    assert AfterBatch(q, 0) == q && Batch(q, 0) == [];
    assert Batch(q, 1) == [Next(q).value] && AfterBatch(q, 1) == Dequeue(q);
    assert EnqueueFirst(Dequeue(q), [Next(q).value], 0) == Dequeue(q);
  }

  /** Below eight reserved slots the first task is begun; otherwise it goes back, and the queue holds the same tasks. */
  lemma BegunWithSlot(x: Worker)
    requires Next(x.local).Some? && x.executing.None? && Inv(x.local) && !x.local.shuttingDown && !x.local.allowDuplicates
    ensures var x' := Begun(x);
      && (x.reserved < 8 ==> x'.reserved == x.reserved + 1 && Listed(x'.executing) + Contents(x'.local) == Contents(x.local))
      && (x.reserved >= 8 ==> x' == x.(local := x'.local) && multiset(Contents(x'.local)) == multiset(Contents(x.local)))
  {
    ContentsHead(x.local);
    TakenAndPutBack(x.local);
    forall id: nat ensures InQueue(x.local, id) <= 1 { UniqueInQueue(x.local, id); }
    RequeueRestores(x.local, 1);
  }

  lemma FinishedHeld(x: Worker, status: int, sent: bool, id: nat)
    requires x.executing.Some?
    ensures var x' := Finished(x, status, sent);
      Held(x', id) == Held(x, id) && Began(x', id) == Began(x, id) && Outstanding(x') == Outstanding(x)
    ensures var less := x.reserved - Finished(x, status, sent).reserved; 0 <= less <= 1 && (less == 0 <==> x.reserved == 0)
  {
    MessagesAppend(x.outbox, Done(x.executing.value.id, status), id);
    CountAppend(x.lost, x.executing.value, id);
  }

  lemma SaidHeld(x: Worker, m: Message, id: nat)
    requires !m.Done?
    ensures var x' := x.(started := true, outbox := x.outbox + [m]);
      Held(x', id) == Held(x, id) && Began(x', id) == Began(x, id) && Outstanding(x') == Outstanding(x)
  {
    MessagesAppend(x.outbox, m, id);
  }

  /** Taking the oldest message off the channel. */
  lemma PoppedHeld(x: Worker, id: nat)
    requires x.outbox != []
    ensures var x', m := x.(outbox := x.outbox[1..]), x.outbox[0];
      && Held(x, id) == Held(x', id) + OfTask(m, id) && Began(x, id) == Began(x', id) + OfTask(m, id)
      && Outstanding(x) == Outstanding(x') + if m.Done? then 1 else 0
  {
    MessagesShift(x.outbox, x.outbox[1..], |x.outbox| - 1, id);
  }

  lemma SentHeld(x: Worker, b: seq<Task>, id: nat)
    ensures var x' := x.(inbox := x.inbox + [b]);
      && Held(x', id) == Held(x, id) + CountOf(b, id) && Began(x', id) == Began(x, id)
      && Outstanding(x') == Outstanding(x) + |b|
  {
    BatchesAppend(x.inbox, b, id);
  }

  lemma {:induction false} CountBound(s: seq<Task>, n: nat, id: nat)
    requires n <= |s|
    ensures CountTo(s, n, id) <= n
  {
    if n > 0 { CountBound(s, n - 1, id); }
  }

  lemma {:induction false} BatchesBound(bs: seq<seq<Task>>, n: nat, id: nat)
    requires n <= |bs|
    ensures InBatches(bs, n, id) <= BatchesSize(bs, n)
  {
    if n > 0 {
      BatchesBound(bs, n - 1, id);
      CountBound(bs[n - 1], |bs[n - 1]|, id);
    }
  }

  lemma {:induction false} MessagesBound(ms: seq<Message>, n: nat, id: nat)
    requires n <= |ms|
    ensures InMessages(ms, n, id) <= Results(ms, n)
  {
    if n > 0 { MessagesBound(ms, n - 1, id); }
  }

  /** What a worker holds is outstanding. */
  lemma HeldOutstanding(x: Worker, id: nat)
    ensures Held(x, id) <= Outstanding(x)
  {
    BatchesBound(x.inbox, |x.inbox|, id);
    MessagesBound(x.outbox, |x.outbox|, id);
    CountBound(x.local.high, |x.local.high|, id);
    CountBound(x.local.normal, |x.local.normal|, id);
    CountBound(x.dropped, |x.dropped|, id);
    CountBound(x.lost, |x.lost|, id);
  }

  // All workers

  /** The sum of a count over the first n workers. */
  ghost function Total(ws: seq<Worker>, n: nat, f: Worker -> nat): nat
    requires n <= |ws|
  {
    if n == 0 then 0 else Total(ws, n - 1, f) + f(ws[n - 1])
  }

  lemma {:induction false} TotalUpdate(ws: seq<Worker>, w: nat, x: Worker, n: nat, f: Worker -> nat)
    requires w < |ws| && n <= |ws|
    ensures Total(ws[w := x], n, f) + (if w < n then f(ws[w]) else 0) == Total(ws, n, f) + (if w < n then f(x) else 0)
  {
    if n > 0 { TotalUpdate(ws, w, x, n - 1, f); }
  }

  lemma {:induction false} TotalPart(ws: seq<Worker>, w: nat, n: nat, f: Worker -> nat)
    requires w < n <= |ws|
    ensures f(ws[w]) <= Total(ws, n, f)
  {
    if w < n - 1 { TotalPart(ws, w, n - 1, f); }
  }

  lemma {:induction false} TotalLe(ws: seq<Worker>, n: nat, f: Worker -> nat, g: Worker -> nat)
    requires n <= |ws| && forall k | 0 <= k < n :: f(ws[k]) <= g(ws[k])
    ensures Total(ws, n, f) <= Total(ws, n, g)
  {
    if n > 0 { TotalLe(ws, n - 1, f, g); }
  }

  lemma {:induction false} TotalZero(ws: seq<Worker>, n: nat, f: Worker -> nat)
    requires n <= |ws| && forall k | 0 <= k < n :: f(ws[k]) == 0
    ensures Total(ws, n, f) == 0
  {
    if n > 0 { TotalZero(ws, n - 1, f); }
  }

  ghost function HeldFor(id: nat): Worker -> nat {
    (x: Worker) => Held(x, id)
  }

  ghost function BegunFor(id: nat): Worker -> nat {
    (x: Worker) => Began(x, id)
  }

  ghost function HeldBy(ws: seq<Worker>, id: nat): nat {
    Total(ws, |ws|, HeldFor(id))
  }

  ghost function BegunBy(ws: seq<Worker>, id: nat): nat {
    Total(ws, |ws|, BegunFor(id))
  }

  lemma HeldUpdate(ws: seq<Worker>, w: nat, x: Worker, id: nat)
    requires w < |ws|
    ensures HeldBy(ws[w := x], id) + Held(ws[w], id) == HeldBy(ws, id) + Held(x, id)
    ensures BegunBy(ws[w := x], id) + Began(ws[w], id) == BegunBy(ws, id) + Began(x, id)
  {
    TotalUpdate(ws, w, x, |ws|, HeldFor(id));
    TotalUpdate(ws, w, x, |ws|, BegunFor(id));
  }

  lemma HeldPart(ws: seq<Worker>, w: nat, id: nat)
    requires w < |ws|
    ensures Held(ws[w], id) <= HeldBy(ws, id)
  {
    TotalPart(ws, w, |ws|, HeldFor(id));
  }

  lemma BegunWithinHeld(ws: seq<Worker>, id: nat)
    ensures BegunBy(ws, id) <= HeldBy(ws, id)
  {
    TotalLe(ws, |ws|, BegunFor(id), HeldFor(id));
  }

  lemma HoldsNothing(x: Worker, id: nat)
    requires Unstarted(x)
    ensures Held(x, id) == 0 && Began(x, id) == 0 && Outstanding(x) == 0
  {}

  lemma NobodyHolds(ws: seq<Worker>, id: nat)
    requires forall w | 0 <= w < |ws| :: Unstarted(ws[w])
    ensures HeldBy(ws, id) == 0 && BegunBy(ws, id) == 0
  {
    forall k | 0 <= k < |ws| ensures Held(ws[k], id) == 0 && Began(ws[k], id) == 0 { HoldsNothing(ws[k], id); }
    TotalZero(ws, |ws|, HeldFor(id));
    TotalZero(ws, |ws|, BegunFor(id));
  }
}
