/** What the monitor's callers receive, over all interleavings: every task once, each priority in order. */
module MonitorRuns {
  import opened Wrappers
  import opened QueueSpec
  import opened QueueMonitor

  // What one event does to the tasks, seen from outside

  /** The task the caller gets: the first of the list, for a wait unless the queue is shutting down. */
  function Returned(m: Monitor, e: Event): Option<Task> {
    if Size(m.q) > 0 && (e.Take? || ((e.Enter? || e.Resume?) && !m.q.shuttingDown)) then Some(Contents(m.q)[0]) else None
  }

  /** The tasks thrown away: all of them, or the first with the id. */
  function ThrownAway(m: Monitor, e: Event): seq<Task> {
    if e.Discard? then Contents(m.q)
    else if e.Cancel? && HasId(Contents(m.q), e.id) then [Contents(m.q)[IndexOfId(Contents(m.q), e.id)]]
    else []
  }

  function TakenIn(m: Monitor, e: Event): seq<Task> {
    if e.Put? && EnqueueCode(m.q, e.task, e.nodeOk) == OK then [e.task] else []
  }

  /** A call that returns a task takes exactly that one off the front; one that returns none leaves the list alone. */
  lemma TakesTheFirst(m: Monitor, e: Event)
    requires Enabled(m, e) && (e.Enter? || e.Resume? || e.Take?)
    ensures Contents(m.q) == Listed(Returned(m, e)) + Contents(Do(m, e).q)
  {
    var q := m.q;
    if Returned(m, e).Some? { assert Contents(q)[0] == if q.high != [] then q.high[0] else q.normal[0]; }
  }

  // Whole runs

  ghost function Written(h: History, m: Monitor, e: Event): History {
    History(h.accepted + TakenIn(m, e), h.delivered + Listed(Returned(m, e)), h.discarded + ThrownAway(m, e))
  }

  /** What came in, what callers got, and what was thrown away, each in order. */
  ghost function Log(m: Monitor, es: seq<Event>): History {
    if es == [] then History([], [], [])
    else
      var front, e := es[..|es| - 1], es[|es| - 1];
      if Enabled(Exec(m, front), e) then Written(Log(m, front), Exec(m, front), e) else Log(m, front)
  }

  /** The queue operation inside an event, if there is one. */
  function OpOf(m: Monitor, e: Event): Option<Op> {
    match e
    case Put(task, nodeOk, _) => Some(EnqueueOp(task, nodeOk))
    case Enter(_) => if Returned(m, e).Some? then Some(DequeueOp) else None
    case Resume(_) => if Returned(m, e).Some? then Some(DequeueOp) else None
    case Take => Some(DequeueOp)
    case Cancel(id) => Some(RemoveOp(id))
    case Discard => Some(ClearOp)
    case Shutdown => Some(ShutdownOp)
    case _ => None
  }

  function Stepped(r: Recorded, op: Option<Op>): Recorded {
    if op.Some? then Step(r, op.value) else r
  }

  lemma NextIsFirst(q: Queue)
    ensures Next(q) == if Size(q) > 0 then Some(Contents(q)[0]) else None
  {}

  lemma IndexIs(s: seq<Task>, id: nat, i: nat)
    requires i < |s| && s[i].id == id && forall k | 0 <= k < i :: s[k].id != id
    ensures HasId(s, id) && IndexOfId(s, id) == i
  {
    assert s[i].id == s[IndexOfId(s, id)].id;
  }

  lemma FirstInHigh(r: seq<Task>, s: seq<Task>, id: nat)
    requires HasId(r, id)
    ensures HasId(r + s, id) && (r + s)[IndexOfId(r + s, id)] == r[IndexOfId(r, id)]
  {
    var i := IndexOfId(r, id);
    assert forall k | 0 <= k <= i :: (r + s)[k] == r[k];
    IndexIs(r + s, id, i);
  }

  lemma FirstInNormal(r: seq<Task>, s: seq<Task>, id: nat)
    requires !HasId(r, id) && HasId(s, id)
    ensures HasId(r + s, id) && (r + s)[IndexOfId(r + s, id)] == s[IndexOfId(s, id)]
  {
    var i := IndexOfId(s, id);
    forall k | 0 <= k < |r| + i ensures (r + s)[k].id != id {
      assert (r + s)[k] == if k < |r| then r[k] else s[k - |r|];
    }
    IndexIs(r + s, id, |r| + i);
  }

  /** The first task with an id in the list is the one cancellation takes. */
  lemma RemovedIsFirst(q: Queue, id: nat)
    ensures HasId(Contents(q), id) <==> Removed(q, id).Some?
    ensures HasId(Contents(q), id) ==> Removed(q, id) == Some(Contents(q)[IndexOfId(Contents(q), id)])
  {
    if HasId(q.high, id) {
      FirstInHigh(q.high, q.normal, id);
    } else if HasId(q.normal, id) {
      FirstInNormal(q.high, q.normal, id);
    } else {
      var s, h := Contents(q), |q.high|;
      forall k | 0 <= k < |s| ensures s[k].id != id { assert s[k] == if k < h then q.high[k] else q.normal[k - h]; }
    }
  }

  lemma NothingAdded(h: History)
    ensures History(h.accepted + [], h.delivered + [], h.discarded + []) == h
  {}

  lemma EventIsStep(m: Monitor, h: History, e: Event)
    requires Enabled(m, e)
    ensures Recorded(Do(m, e).q, Written(h, m, e)) == Stepped(Recorded(m.q, h), OpOf(m, e))
  {
    NothingAdded(h);
    NextIsFirst(m.q);
    if e.Cancel? { RemovedIsFirst(m.q, e.id); }
  }

  lemma SteppedFine(r: Recorded, op: Option<Op>)
    requires Inv(r.q) && Conserved(r) && InOrder(r, true) && InOrder(r, false)
    ensures var r' := Stepped(r, op); Inv(r'.q) && Conserved(r') && InOrder(r', true) && InOrder(r', false)
  {
    if op.Some? {
      StepKeepsInv(r, op.value);
      StepConserves(r, op.value);
      StepInOrder(r, op.value, true);
      StepInOrder(r, op.value, false);
    }
  }

  ghost predicate Fine(m: Monitor, h: History) {
    var r := Recorded(m.q, h);
    Inv(m.q) && Conserved(r) && InOrder(r, true) && InOrder(r, false)
  }

  lemma {:induction false} ExecFine(maxSize: nat, allowDuplicates: bool, es: seq<Event>)
    ensures var m := Init(maxSize, allowDuplicates); Fine(Exec(m, es), Log(m, es))
  {
    var m := Init(maxSize, allowDuplicates);
    if es != [] {
      var front, e := es[..|es| - 1], es[|es| - 1];
      ExecFine(maxSize, allowDuplicates, front);
      if Enabled(Exec(m, front), e) {
        EventIsStep(Exec(m, front), Log(m, front), e);
        SteppedFine(Recorded(Exec(m, front).q, Log(m, front)), OpOf(Exec(m, front), e));
      }
    }
  }

  /** Over every interleaving, what came in is, with multiplicity, what callers got, what was thrown away and what is queued. */
  lemma ExecConserves(maxSize: nat, allowDuplicates: bool, es: seq<Event>)
    ensures var m, h := Init(maxSize, allowDuplicates), Log(Init(maxSize, allowDuplicates), es);
      multiset(h.accepted) == multiset(h.delivered) + multiset(h.discarded) + multiset(Contents(Exec(m, es).q))
  {
    ExecFine(maxSize, allowDuplicates, es);
  }

  /** Over every interleaving, callers get the tasks of each priority in the order they came, all of them unless some
      were thrown away. */
  lemma ExecInOrder(maxSize: nat, allowDuplicates: bool, es: seq<Event>, high: bool)
    ensures var m, h := Init(maxSize, allowDuplicates), Log(Init(maxSize, allowDuplicates), es);
      Ordered(Select(h.delivered, high) + Lane(Exec(m, es).q, high), Select(h.accepted, high), h.discarded == [])
  {
    ExecFine(maxSize, allowDuplicates, es);
  }
}
