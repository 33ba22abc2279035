/** Batches of tasks: taking them from a queue, putting them into one, tracking them; with counts per task id. */
module Batches {
  import opened Wrappers
  import opened QueueSpec
  import S = SchedSpec

  function Hit(a: nat, b: nat): nat {
    if a == b then 1 else 0
  }

  /** How often the id occurs among the first n tasks of a list. */
  ghost function CountTo(s: seq<Task>, n: nat, id: nat): nat
    requires n <= |s|
  {
    if n == 0 then 0 else CountTo(s, n - 1, id) + Hit(s[n - 1].id, id)
  }

  ghost function CountOf(s: seq<Task>, id: nat): nat {
    CountTo(s, |s|, id)
  }

  ghost function InQueue(q: Queue, id: nat): nat {
    CountOf(q.high, id) + CountOf(q.normal, id)
  }

  lemma {:induction false} CountPrefix(r: seq<Task>, s: seq<Task>, n: nat, id: nat)
    requires n <= |r| && n <= |s| && forall k | 0 <= k < n :: r[k] == s[k]
    ensures CountTo(r, n, id) == CountTo(s, n, id)
  {
    if n > 0 { CountPrefix(r, s, n - 1, id); }
  }

  lemma CountAppend(s: seq<Task>, t: Task, id: nat)
    ensures CountOf(s + [t], id) == CountOf(s, id) + Hit(t.id, id)
  {
    CountPrefix(s + [t], s, |s|, id);
  }

  lemma {:induction false} CountShift(s: seq<Task>, r: seq<Task>, n: nat, id: nat)
    requires n < |s| && |r| == |s| - 1 && forall k | 0 <= k < |r| :: r[k] == s[k + 1]
    ensures CountTo(s, n + 1, id) == Hit(s[0].id, id) + CountTo(r, n, id)
  {
    if n > 0 { CountShift(s, r, n - 1, id); } else { assert CountTo(s, 0, id) == 0; }
  }

  lemma CountTail(s: seq<Task>, id: nat)
    requires s != []
    ensures CountOf(s, id) == Hit(s[0].id, id) + CountOf(s[1..], id)
  {
    CountShift(s, s[1..], |s| - 1, id);
  }

  lemma {:induction false} CountHolds(s: seq<Task>, n: nat, id: nat)
    requires n <= |s|
    ensures CountTo(s, n, id) > 0 <==> exists k | 0 <= k < n :: s[k].id == id
  {
    if n > 0 { CountHolds(s, n - 1, id); }
  }

  lemma QueueHolds(q: Queue, id: nat)
    ensures HasId(Contents(q), id) <==> InQueue(q, id) > 0
  {
    CountHolds(q.high, |q.high|, id);
    CountHolds(q.normal, |q.normal|, id);
    var s, h := Contents(q), |q.high|;
    assert forall k | 0 <= k < h :: q.high[k] == s[k];
    assert forall k | 0 <= k < |q.normal| :: q.normal[k] == s[h + k];
  }

  lemma InsertCount(q: Queue, t: Task, id: nat)
    ensures InQueue(Insert(q, t), id) == InQueue(q, id) + Hit(t.id, id)
  {
    CountAppend(q.high, t, id);
    CountAppend(q.normal, t, id);
  }

  lemma DequeueCount(q: Queue, id: nat)
    requires Next(q).Some?
    ensures InQueue(q, id) == Hit(Next(q).value.id, id) + InQueue(Dequeue(q), id)
  {
    if q.high != [] { CountTail(q.high, id); } else { CountTail(q.normal, id); }
  }

  /** The settings every queue operation leaves alone. */
  predicate SameSettings(p: Queue, q: Queue) {
    p.maxSize == q.maxSize && p.allowDuplicates == q.allowDuplicates && p.shuttingDown == q.shuttingDown
  }

  // Taking a batch

  function AfterBatch(q: Queue, max: nat): Queue {
    if max == 0 then q else Dequeue(AfterBatch(q, max - 1))
  }

  function Batch(q: Queue, max: nat): (b: seq<Task>)
    ensures |b| <= max
  {
    if max == 0 then []
    else
      var front, next := Batch(q, max - 1), Next(AfterBatch(q, max - 1));
      if next.Some? then front + [next.value] else front
  }

  lemma {:induction false} BatchInv(q: Queue, max: nat)
    requires Inv(q)
    ensures Inv(AfterBatch(q, max)) && SameSettings(AfterBatch(q, max), q)
  {
    if max > 0 {
      BatchInv(q, max - 1);
      DequeueKeepsInv(AfterBatch(q, max - 1));
    }
  }

  lemma {:induction false} BatchSize(q: Queue, max: nat)
    ensures |Batch(q, max)| == if Size(q) <= max then Size(q) else max
    ensures |Batch(q, max)| == Size(q) - Size(AfterBatch(q, max))
  {
    if max > 0 { BatchSize(q, max - 1); }
  }

  /** A batch takes tasks out of the queue and leaves the rest. */
  lemma {:induction false} BatchCount(q: Queue, max: nat, id: nat)
    ensures InQueue(q, id) == CountOf(Batch(q, max), id) + InQueue(AfterBatch(q, max), id)
  {
    if max > 0 {
      var mid, front := AfterBatch(q, max - 1), Batch(q, max - 1);
      BatchCount(q, max - 1, id);
      if Next(mid).Some? {
        DequeueCount(mid, id);
        CountAppend(front, Next(mid).value, id);
      }
    }
  }

  lemma ContentsHead(q: Queue)
    requires Next(q).Some?
    ensures Contents(q) == [Next(q).value] + Contents(Dequeue(q))
  {}

  /** A batch comes off the front of the list. */
  lemma {:induction false} BatchIsPrefix(q: Queue, max: nat)
    ensures Contents(q) == Batch(q, max) + Contents(AfterBatch(q, max))
  {
    if max > 0 {
      BatchIsPrefix(q, max - 1);
      if Next(AfterBatch(q, max - 1)).Some? { ContentsHead(AfterBatch(q, max - 1)); }
    }
  }

  // Putting a batch into a queue

  /** The queue offered the first n tasks of b. */
  function EnqueueFirst(q: Queue, b: seq<Task>, n: nat): Queue
    requires n <= |b|
  {
    if n == 0 then q else Enqueue(EnqueueFirst(q, b, n - 1), b[n - 1], true)
  }

  function EnqueueAll(q: Queue, b: seq<Task>): Queue {
    EnqueueFirst(q, b, |b|)
  }

  /** The tasks among the first n of b the queue turns away. */
  function RejectedFirst(q: Queue, b: seq<Task>, n: nat): (r: seq<Task>)
    requires n <= |b|
    ensures |r| <= n
  {
    if n == 0 then []
    else
      var front := RejectedFirst(q, b, n - 1);
      if EnqueueCode(EnqueueFirst(q, b, n - 1), b[n - 1], true) == OK then front else front + [b[n - 1]]
  }

  function Rejected(q: Queue, b: seq<Task>): seq<Task> {
    RejectedFirst(q, b, |b|)
  }

  lemma {:induction false} EnqueueInv(q: Queue, b: seq<Task>, n: nat)
    requires Inv(q) && n <= |b|
    ensures Inv(EnqueueFirst(q, b, n)) && SameSettings(EnqueueFirst(q, b, n), q)
  {
    if n > 0 {
      EnqueueInv(q, b, n - 1);
      EnqueueKeepsInv(EnqueueFirst(q, b, n - 1), b[n - 1], true);
    }
  }

  lemma {:induction false} EnqueueSize(q: Queue, b: seq<Task>, n: nat)
    requires n <= |b|
    ensures Size(EnqueueFirst(q, b, n)) + |RejectedFirst(q, b, n)| == Size(q) + n
  {
    if n > 0 { EnqueueSize(q, b, n - 1); }
  }

  /** Each task offered is either queued or turned away. */
  lemma {:induction false} EnqueueCount(q: Queue, b: seq<Task>, n: nat, id: nat)
    requires n <= |b|
    ensures InQueue(EnqueueFirst(q, b, n), id) + CountOf(RejectedFirst(q, b, n), id) == InQueue(q, id) + CountTo(b, n, id)
  {
    if n > 0 {
      EnqueueCount(q, b, n - 1, id);
      InsertCount(EnqueueFirst(q, b, n - 1), b[n - 1], id);
      CountAppend(RejectedFirst(q, b, n - 1), b[n - 1], id);
    }
  }

  lemma FitsOne(q: Queue, t: Task)
    requires !q.shuttingDown && !Full(q) && InQueue(q, t.id) == 0
    ensures EnqueueCode(q, t, true) == OK && Enqueue(q, t, true) == Insert(q, t)
  {
    QueueHolds(q, t.id);
  }

  /** No id occurs twice in the queue and the first n tasks of b together. */
  ghost predicate Apart(q: Queue, b: seq<Task>, n: nat)
    requires n <= |b|
  {
    forall id: nat :: InQueue(q, id) + CountTo(b, n, id) <= 1
  }

  lemma ApartFront(q: Queue, b: seq<Task>, n: nat)
    requires 0 < n <= |b| && Apart(q, b, n)
    ensures Apart(q, b, n - 1)
  {
    forall id: nat ensures InQueue(q, id) + CountTo(b, n - 1, id) <= 1 {
      assert InQueue(q, id) + CountTo(b, n, id) <= 1;
    }
  }

  /** With room for all of them and no id twice, nothing is turned away. */
  lemma {:induction false} EnqueueFits(q: Queue, b: seq<Task>, n: nat)
    requires n <= |b| && !q.shuttingDown && (q.maxSize > 0 ==> Size(q) + n <= q.maxSize) && Apart(q, b, n)
    ensures RejectedFirst(q, b, n) == [] && SameSettings(EnqueueFirst(q, b, n), q)
  {
    if n > 0 {
      var mid, t := EnqueueFirst(q, b, n - 1), b[n - 1];
      ApartFront(q, b, n);
      EnqueueFits(q, b, n - 1);
      EnqueueSize(q, b, n - 1);
      EnqueueCount(q, b, n - 1, t.id);
      assert InQueue(q, t.id) + CountTo(b, n, t.id) <= 1;
      FitsOne(mid, t);
    }
  }

  /** How often exactly this task, flags included, is queued. */
  ghost function Copies(q: Queue, t: Task): nat {
    multiset(q.high)[t] + multiset(q.normal)[t]
  }

  lemma BagAppend(s: seq<Task>, t: Task, u: Task)
    ensures multiset(s + [t])[u] == multiset(s)[u] + if t == u then 1 else 0
  {}

  lemma InsertCopies(q: Queue, t: Task, u: Task)
    ensures Copies(Insert(q, t), u) == Copies(q, u) + if t == u then 1 else 0
  {
    BagAppend(q.high, t, u);
    BagAppend(q.normal, t, u);
  }

  /** How often the task occurs among the first n of b. */
  ghost function CopiesTo(b: seq<Task>, n: nat, u: Task): nat
    requires n <= |b|
  {
    if n == 0 then 0 else CopiesTo(b, n - 1, u) + if b[n - 1] == u then 1 else 0
  }

  lemma {:induction false} CopiesBag(b: seq<Task>, n: nat, u: Task)
    requires n <= |b|
    ensures CopiesTo(b, n, u) == multiset(b[..n])[u]
  {
    if n > 0 {
      CopiesBag(b, n - 1, u);
      BagAppend(b[..n - 1], b[n - 1], u);
      assert b[..n] == b[..n - 1] + [b[n - 1]];
    }
  }

  /** When nothing is turned away the queue gains exactly the offered tasks. */
  lemma {:induction false} EnqueueCopies(q: Queue, b: seq<Task>, n: nat, u: Task)
    requires n <= |b| && RejectedFirst(q, b, n) == []
    ensures Copies(EnqueueFirst(q, b, n), u) == Copies(q, u) + CopiesTo(b, n, u)
  {
    if n > 0 {
      EnqueueCopies(q, b, n - 1, u);
      InsertCopies(EnqueueFirst(q, b, n - 1), b[n - 1], u);
    }
  }

  lemma ContentsBag(q: Queue, u: Task)
    ensures multiset(Contents(q))[u] == Copies(q, u)
  {}

  lemma SplitBag(a: seq<Task>, b: seq<Task>, u: Task)
    ensures multiset(a + b)[u] == multiset(a)[u] + multiset(b)[u]
  {}

  /** A batch that is put back in full restores the multiset of tasks. */
  lemma RequeueBag(q: Queue, max: nat)
    requires Rejected(AfterBatch(q, max), Batch(q, max)) == []
    ensures multiset(Contents(EnqueueAll(AfterBatch(q, max), Batch(q, max)))) == multiset(Contents(q))
  {
    var rest, b := AfterBatch(q, max), Batch(q, max);
    forall u ensures multiset(Contents(EnqueueAll(rest, b)))[u] == multiset(Contents(q))[u] {
      BatchIsPrefix(q, max);
      SplitBag(b, Contents(rest), u);
      ContentsBag(rest, u);
      EnqueueCopies(rest, b, |b|, u);
      CopiesBag(b, |b|, u);
      assert b[..|b|] == b;
      ContentsBag(EnqueueAll(rest, b), u);
    }
  }

  /** Putting a batch straight back restores the queue's bag of tasks. */
  lemma RequeueRestores(q: Queue, max: nat)
    requires Inv(q) && !q.shuttingDown && forall id: nat :: InQueue(q, id) <= 1
    ensures var q' := EnqueueAll(AfterBatch(q, max), Batch(q, max));
      && multiset(Contents(q')) == multiset(Contents(q))
      && (forall id: nat :: InQueue(q', id) == InQueue(q, id))
      && Size(q') == Size(q) && Inv(q') && SameSettings(q', q)
  {
    var rest, b := AfterBatch(q, max), Batch(q, max);
    BatchInv(q, max);
    BatchSize(q, max);
    forall id: nat ensures InQueue(rest, id) + CountOf(b, id) == InQueue(q, id) { BatchCount(q, max, id); }
    EnqueueFits(rest, b, |b|);
    EnqueueInv(rest, b, |b|);
    EnqueueSize(rest, b, |b|);
    forall id: nat ensures InQueue(EnqueueAll(rest, b), id) == InQueue(q, id) { EnqueueCount(rest, b, |b|, id); }
    RequeueBag(q, max);
  }

  // Tracking a batch

  /** The tables after the first n tasks of b are tracked as sent to the worker. */
  function TrackFirst(s: S.Sched, b: seq<Task>, n: nat, worker: nat, now: int): S.Sched
    requires n <= |b|
  {
    if n == 0 then s else S.Track(TrackFirst(s, b, n - 1, worker, now), b[n - 1].id, worker, now)
  }

  /** Where a task was sent, if it is tracked. */
  ghost function Owner(s: S.Sched, id: nat): Option<nat> {
    if S.Tracks(s, id) then Some(S.OwnerOf(s, id)) else None
  }

  lemma TrackOwner(s: S.Sched, task: nat, worker: nat, now: int, id: nat)
    ensures Owner(S.Track(s, task, worker, now), id)
         == if S.TrackCode(s) == S.OK && Owner(s, id).None? && id == task then Some(worker) else Owner(s, id)
  {
    var s' := S.Track(s, task, worker, now);
    var i, i' := S.TaskIndex(s.tasks, id), S.TaskIndex(s'.tasks, id);
    if S.TrackCode(s) == S.OK {
      assert i < |s.tasks| ==> s'.tasks[i] == s.tasks[i];
      assert i' < |s.tasks| ==> s'.tasks[i'] == s.tasks[i'];
      assert s'.tasks[|s.tasks|].id == task;
    }
  }

  lemma {:induction false} TrackKeeps(s: S.Sched, b: seq<Task>, n: nat, worker: nat, now: int)
    requires n <= |b|
    ensures var s' := TrackFirst(s, b, n, worker, now);
      && s'.workers == s.workers && s'.maxTasks == s.maxTasks && s'.maxWorkers == s.maxWorkers && s'.timeout == s.timeout
      && |s'.tasks| == if |s.tasks| + n <= s.maxTasks then |s.tasks| + n else if |s.tasks| <= s.maxTasks then s.maxTasks else |s.tasks|
  {
    if n > 0 { TrackKeeps(s, b, n - 1, worker, now); }
  }

  /** Tracking leaves other tasks' owners alone and gives the batch, as far as the table has room, to the worker. */
  lemma {:induction false} TrackOwners(s: S.Sched, b: seq<Task>, n: nat, worker: nat, now: int, id: nat)
    requires n <= |b|
    ensures var o := Owner(TrackFirst(s, b, n, worker, now), id);
      && (CountTo(b, n, id) == 0 || Owner(s, id).Some? ==> o == Owner(s, id))
      && (CountTo(b, n, id) > 0 && Owner(s, id).None? ==> o == Some(worker) || o == None)
      && (CountTo(b, n, id) > 0 && Owner(s, id).None? && |s.tasks| + n <= s.maxTasks ==> o == Some(worker))
  {
    if n > 0 {
      TrackOwners(s, b, n - 1, worker, now, id);
      TrackKeeps(s, b, n - 1, worker, now);
      TrackOwner(TrackFirst(s, b, n - 1, worker, now), b[n - 1].id, worker, now, id);
    }
  }
}
