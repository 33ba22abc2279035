/** The blocking side of the task queue: one mutex, the not-empty condition variable, any number of waiters. */
module QueueMonitor {
  import opened QueueSpec

  /** Threads inside the wait are asleep; then woken by a signal, or expiring by a timeout, until they get the mutex back. */
  datatype Monitor = Monitor(q: Queue, asleep: set<nat>, woken: set<nat>, expiring: set<nat>, blocked: int)

  function Init(maxSize: nat, allowDuplicates: bool): Monitor {
    Monitor(Empty(maxSize, allowDuplicates), {}, {}, {}, 0)
  }

  datatype Event =
    | Enter(thread: nat)                                       // dequeue_wait up to its first sleep or its return
    | Resume(thread: nat)                                      // a woken waiter tests the loop condition again
    | Put(task: Task, nodeOk: bool, signalled: set<nat>)       // enqueue; a signal wakes at least one sleeper
    | Take                                                     // non-blocking dequeue
    | Cancel(id: nat)                                          // remove_by_id
    | Discard                                                  // clear
    | WakeAll
    | Spurious(thread: nat)
    | Shutdown
    | Expire(thread: nat)                                      // a timed wait expires, no signal consumed
    | ExpireSignalled(thread: nat)                             // a timed wait expires although a signal was consumed
    | GiveUp(thread: nat)                                      // an expired waiter has the mutex and returns

  /** The loop condition of the wait. */
  predicate MustWait(q: Queue) {
    Size(q) == 0 && !q.shuttingDown
  }

  /** What a waiter does to the queue on its way out. */
  function Leave(q: Queue): Queue {
    if q.shuttingDown then q else Dequeue(q)
  }

  /** The thread is inside the wait. */
  predicate Inside(m: Monitor, t: nat) {
    t in m.asleep || t in m.woken || t in m.expiring
  }

  predicate Enabled(m: Monitor, e: Event) {
    match e
    case Enter(t) => !Inside(m, t)
    case Resume(t) => t in m.woken
    case Put(task, nodeOk, signalled) =>
      if EnqueueCode(m.q, task, nodeOk) == OK then signalled <= m.asleep && (m.asleep != {} ==> signalled != {})
      else signalled == {}
    case Spurious(t) => t in m.asleep
    case Expire(t) => t in m.asleep
    case ExpireSignalled(t) => t in m.woken
    case GiveUp(t) => t in m.expiring
    case _ => true
  }

  function Do(m: Monitor, e: Event): Monitor {
    match e
    case Enter(t) =>
      if MustWait(m.q) then m.(asleep := m.asleep + {t}, blocked := m.blocked + 1) else m.(q := Leave(m.q))
    case Resume(t) =>
      if MustWait(m.q) then m.(asleep := m.asleep + {t}, woken := m.woken - {t})
      else m.(q := Leave(m.q), woken := m.woken - {t}, blocked := m.blocked - 1)
    case Put(task, nodeOk, signalled) =>
      m.(q := Enqueue(m.q, task, nodeOk), asleep := m.asleep - signalled, woken := m.woken + signalled)
    case Take => m.(q := Dequeue(m.q))
    case Cancel(id) => m.(q := RemoveById(m.q, id))
    case Discard => m.(q := Clear(m.q))
    case WakeAll => m.(asleep := {}, woken := m.woken + m.asleep)
    case Spurious(t) => m.(asleep := m.asleep - {t}, woken := m.woken + {t})
    case Shutdown => m.(q := m.q.(shuttingDown := true), asleep := {}, woken := m.woken + m.asleep)
    case Expire(t) => m.(asleep := m.asleep - {t}, expiring := m.expiring + {t})
    case ExpireSignalled(t) => m.(woken := m.woken - {t}, expiring := m.expiring + {t})
    case GiveUp(t) => m.(expiring := m.expiring - {t}, blocked := m.blocked - 1)
  }

  /** Runs one event; an event that is not enabled does nothing. */
  function Apply(m: Monitor, e: Event): Monitor {
    if Enabled(m, e) then Do(m, e) else m
  }

  function Exec(m: Monitor, es: seq<Event>): Monitor {
    if es == [] then m else Apply(Exec(m, es[..|es| - 1]), es[|es| - 1])
  }

  /** If anyone sleeps, every queued task has a woken waiter on its way to it. */
  predicate NoLostWakeup(m: Monitor) {
    m.asleep != {} ==> Size(m.q) <= |m.woken|
  }

  predicate Accounted(m: Monitor) {
    && m.asleep !! m.woken && m.asleep !! m.expiring && m.woken !! m.expiring
    && m.blocked == |m.asleep| + |m.woken| + |m.expiring| && (m.q.shuttingDown ==> m.asleep == {})
  }

  predicate Safe(m: Monitor) {
    NoLostWakeup(m) && Accounted(m)
  }

  lemma Without1(s: set<nat>, t: nat)
    requires t in s
    ensures |s - {t}| == |s| - 1
  {
    assert s == (s - {t}) + {t};
  }

  lemma With1(s: set<nat>, t: nat)
    requires t !in s
    ensures |s + {t}| == |s| + 1
  {}

  lemma Split(s: set<nat>, w: set<nat>)
    requires w <= s
    ensures |s - w| + |w| == |s|
  {
    assert s == (s - w) + w;
  }

  lemma NonEmpty(s: set<nat>)
    ensures s != {} ==> |s| >= 1
  {}

  lemma Union(s: set<nat>, w: set<nat>)
    requires s !! w
    ensures |s + w| == |s| + |w|
  {}

  /** Moving the signalled threads from the sleepers to the woken. */
  lemma Woken(asleep: set<nat>, woken: set<nat>, signalled: set<nat>)
    requires asleep !! woken && signalled <= asleep
    ensures (asleep - signalled) !! (woken + signalled)
    ensures |asleep - signalled| + |woken + signalled| == |asleep| + |woken|
    ensures |woken + signalled| == |woken| + |signalled| && (signalled != {} ==> |signalled| >= 1)
  {
    Split(asleep, signalled);
    Union(woken, signalled);
    NonEmpty(signalled);
  }

  lemma SizeOfEnqueue(q: Queue, t: Task, nodeOk: bool)
    ensures Size(Enqueue(q, t, nodeOk)) == Size(q) + if EnqueueCode(q, t, nodeOk) == OK then 1 else 0
    ensures EnqueueCode(q, t, nodeOk) == OK ==> !q.shuttingDown
    ensures Enqueue(q, t, nodeOk).shuttingDown == q.shuttingDown
  {}

  lemma SizeOfDequeue(q: Queue)
    ensures Size(Dequeue(q)) == if Size(q) == 0 then 0 else Size(q) - 1
  {}

  lemma SizeOfRemove(q: Queue, id: nat)
    ensures Size(RemoveById(q, id)) <= Size(q)
  {}

  lemma PutSafe(m: Monitor, task: Task, nodeOk: bool, signalled: set<nat>)
    requires Safe(m) && Enabled(m, Put(task, nodeOk, signalled))
    ensures Safe(Do(m, Put(task, nodeOk, signalled)))
  {
    SizeOfEnqueue(m.q, task, nodeOk);
    if EnqueueCode(m.q, task, nodeOk) == OK {
      Woken(m.asleep, m.woken, signalled);
    } else {
      assert m.asleep - {} == m.asleep && m.woken + {} == m.woken;
    }
  }

  lemma ResumeSafe(m: Monitor, t: nat)
    requires Safe(m) && t in m.woken
    ensures Safe(Do(m, Resume(t)))
  {
    Without1(m.woken, t);
    With1(m.asleep, t);
    SizeOfDequeue(m.q);
  }

  lemma EnterSafe(m: Monitor, t: nat)
    requires Safe(m) && Enabled(m, Enter(t))
    ensures Safe(Do(m, Enter(t)))
  {
    With1(m.asleep, t);
    SizeOfDequeue(m.q);
  }

  lemma WakeSafe(m: Monitor)
    requires Safe(m)
    ensures Safe(Do(m, WakeAll)) && Safe(Do(m, Shutdown))
  {
    Union(m.woken, m.asleep);
  }

  lemma SpuriousSafe(m: Monitor, t: nat)
    requires Safe(m) && t in m.asleep
    ensures Safe(Do(m, Spurious(t))) && Safe(Do(m, Expire(t)))
  {
    Without1(m.asleep, t);
    With1(m.woken, t);
    With1(m.expiring, t);
  }

  lemma GiveUpSafe(m: Monitor, t: nat)
    requires Safe(m) && t in m.expiring
    ensures Safe(Do(m, GiveUp(t)))
  {
    Without1(m.expiring, t);
  }

  lemma QueueSafe(m: Monitor, id: nat)
    requires Safe(m)
    ensures Safe(Do(m, Take)) && Safe(Do(m, Cancel(id))) && Safe(Do(m, Discard))
  {
    SizeOfDequeue(m.q);
    SizeOfRemove(m.q, id);
  }

  /** Every event but a timeout that swallows a signal keeps the monitor safe. */
  lemma ApplySafe(m: Monitor, e: Event)
    requires Safe(m) && !e.ExpireSignalled?
    ensures Safe(Apply(m, e))
  {
    if Enabled(m, e) {
      match e
      case Enter(t) => EnterSafe(m, t);
      case Resume(t) => ResumeSafe(m, t);
      case Put(task, nodeOk, signalled) => PutSafe(m, task, nodeOk, signalled);
      case Take => QueueSafe(m, 0);
      case Cancel(id) => QueueSafe(m, id);
      case Discard => QueueSafe(m, 0);
      case WakeAll => WakeSafe(m);
      case Spurious(t) => SpuriousSafe(m, t);
      case Shutdown => WakeSafe(m);
      case Expire(t) => SpuriousSafe(m, t);
      case GiveUp(t) => GiveUpSafe(m, t);
    }
  }

  lemma {:induction false} ExecSafe(maxSize: nat, allowDuplicates: bool, es: seq<Event>)
    requires forall k | 0 <= k < |es| :: !es[k].ExpireSignalled?
    ensures Safe(Exec(Init(maxSize, allowDuplicates), es))
  {
    if es != [] {
      ExecSafe(maxSize, allowDuplicates, es[..|es| - 1]);
      ApplySafe(Exec(Init(maxSize, allowDuplicates), es[..|es| - 1]), es[|es| - 1]);
    }
  }

  // Once the woken waiters have run, nobody sleeps beside a task

  function Resumes(threads: seq<nat>): seq<Event> {
    seq(|threads|, k requires 0 <= k < |threads| => Resume(threads[k]))
  }

  lemma {:induction false} Drained(m: Monitor, threads: seq<nat>)
    requires Safe(m)
    requires forall i, j | 0 <= i < j < |threads| :: threads[i] != threads[j]
    requires forall t :: t in threads ==> t in m.woken
    ensures Safe(Exec(m, Resumes(threads)))
    ensures forall t :: t in Exec(m, Resumes(threads)).woken <==> t in m.woken && t !in threads
  {
    if threads != [] {
      var n := |threads| - 1;
      var front, last := threads[..n], threads[n];
      Drained(m, front);
      assert Resumes(threads)[..n] == Resumes(front);
      var mid := Exec(m, Resumes(front));
      assert last !in front;
      assert Exec(m, Resumes(threads)) == Apply(mid, Resume(last));
      ResumeSafe(mid, last);
      assert threads == front + [last];
    }
  }

  /** When every woken waiter has had its turn, in any order, no waiter sleeps while a task is queued. */
  lemma NobodySleepsBesideATask(m: Monitor, threads: seq<nat>)
    requires Safe(m)
    requires forall i, j | 0 <= i < j < |threads| :: threads[i] != threads[j]
    requires forall t :: t in threads <==> t in m.woken
    ensures var m' := Exec(m, Resumes(threads)); m'.asleep == {} || Size(m'.q) == 0
  {
    Drained(m, threads);
    assert Exec(m, Resumes(threads)).woken == {};
  }

  // A timed waiter that swallows a signal

  /** It keeps the monitor safe if and only if nobody else sleeps or a woken waiter is to spare. */
  lemma ExpireSignalledIff(m: Monitor, t: nat)
    requires Safe(m) && t in m.woken
    ensures Safe(Do(m, ExpireSignalled(t))) <==> m.asleep == {} || Size(m.q) < |m.woken|
  {
    Without1(m.woken, t);
    With1(m.expiring, t);
  }

  /** Two waiters, one task: the signalled one gives up, the other sleeps on beside the task. */
  lemma LostWakeup(task: Task)
    ensures var m := Exec(Init(0, true), [Enter(1), Enter(2), Put(task, true, {1}), ExpireSignalled(1)]);
      m.asleep == {2} && m.woken == {} && m.expiring == {1} && Size(m.q) == 1 && !Safe(m)
  {
    var es := [Enter(1), Enter(2), Put(task, true, {1}), ExpireSignalled(1)];
    var m0 := Init(0, true);
    assert es[..3][..2][..1][..0] == [] && Exec(m0, es[..3][..2][..1][..0]) == m0;
    var m1 := Exec(m0, es[..3][..2][..1]);
    assert m1 == Apply(m0, Enter(1)) && m1.asleep == {1};
    var m2 := Exec(m0, es[..3][..2]);
    assert m2 == Apply(m1, Enter(2)) && m2.asleep == {1, 2};
    var m3 := Exec(m0, es[..3]);
    assert m3 == Apply(m2, Put(task, true, {1})) && m3.woken == {1} && m3.asleep == {2};
    assert Exec(m0, es) == Apply(m3, ExpireSignalled(1));
  }

  // What a broadcast without shutdown does

  /** A thread that enters the wait leaves it at once if and only if the queue is non-empty or shutting down. */
  lemma EnterLeavesIff(m: Monitor, t: nat)
    requires Safe(m) && Enabled(m, Enter(t))
    ensures var m' := Do(m, Enter(t));
      && (!Inside(m', t) <==> Size(m.q) > 0 || m.q.shuttingDown)
      && (Inside(m', t) ==> t in m'.asleep && m'.q == m.q)
      && (!Inside(m', t) && !m.q.shuttingDown ==> Size(m'.q) == Size(m.q) - 1) && (m.q.shuttingDown ==> m'.q == m.q)
  {
    SizeOfDequeue(m.q);
  }

  /** A woken waiter leaves the wait on its turn if and only if the queue is non-empty or shutting down;
      otherwise it sleeps again. It leaves with an error only when the queue is shutting down. */
  lemma WokenLeavesIff(m: Monitor, t: nat)
    requires Safe(m) && t in m.woken
    ensures var m' := Do(m, Resume(t));
      && (!Inside(m', t) <==> Size(m.q) > 0 || m.q.shuttingDown)
      && (Inside(m', t) ==> t in m'.asleep && m'.q == m.q)
      && (!Inside(m', t) && !m.q.shuttingDown ==> Size(m'.q) == Size(m.q) - 1) && (m.q.shuttingDown ==> m'.q == m.q)
  {
    SizeOfDequeue(m.q);
  }

  /** After wake_all every sleeper is woken, and on its turn leaves or sleeps again by the same rule. */
  lemma WakeAllLeavesIff(m: Monitor, t: nat)
    requires Safe(m) && t in m.asleep
    ensures var m' := Do(m, WakeAll);
      && t in m'.woken && m'.q == m.q
      && (!Inside(Do(m', Resume(t)), t) <==> Size(m.q) > 0 || m.q.shuttingDown)
  {
    WakeSafe(m);
    WokenLeavesIff(Do(m, WakeAll), t);
  }

  /** One waiter at an empty queue: woken by wake_all it is asleep again, with no error returned. */
  lemma WakeAllSleepsAgain(maxSize: nat, allowDuplicates: bool, t: nat)
    ensures Exec(Init(maxSize, allowDuplicates), [] + [Enter(t)] + [WakeAll] + [Resume(t)]).asleep == {t}
  {
    var m := Init(maxSize, allowDuplicates);
    var es := [Enter(t)];
    assert [] + es == es && es[..0] == [] && Exec(m, es) == Apply(m, Enter(t));
    var two := [] + [Enter(t)] + [WakeAll];
    assert two[..1] == es && Exec(m, two) == Apply(Exec(m, es), WakeAll);
    var three := [] + [Enter(t)] + [WakeAll] + [Resume(t)];
    assert three[..2] == two && Exec(m, three) == Apply(Exec(m, two), Resume(t));
  }
}
