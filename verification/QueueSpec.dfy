/** The task queue as a pair of FIFO sequences, high priority before normal, and its whole runs. */
module QueueSpec {
  import opened Wrappers

  const OK := 0
  const REJECTED := -1
  const FULL := -2
  const DUPLICATE := -3

  /** The bits of a task's flag word, lowest first. */
  datatype Flags = Flags(checkpointEnabled: bool, highPriority: bool, verboseLogging: bool)

  datatype Task = Task(id: nat, flags: Flags)

  predicate High(t: Task) {
    t.flags.highPriority
  }

  /** `removed` and `cleared` count what left through cancellation; the source keeps no such counters. */
  datatype Queue = Queue(high: seq<Task>, normal: seq<Task>, maxSize: nat, allowDuplicates: bool, shuttingDown: bool,
                         enqueued: nat, dequeued: nat, removed: nat, cleared: nat)

  function Empty(maxSize: nat, allowDuplicates: bool): Queue {
    Queue([], [], maxSize, allowDuplicates, false, 0, 0, 0, 0)
  }

  function Contents(q: Queue): seq<Task> {
    q.high + q.normal
  }

  function Size(q: Queue): nat {
    |q.high| + |q.normal|
  }

  predicate Full(q: Queue) {
    q.maxSize > 0 && Size(q) >= q.maxSize
  }

  predicate HasId(s: seq<Task>, id: nat) {
    exists k | 0 <= k < |s| :: s[k].id == id
  }

  /** Position of the first task with the given id. */
  function IndexOfId(s: seq<Task>, id: nat): (i: nat)
    requires HasId(s, id)
    ensures i < |s| && s[i].id == id && forall k | 0 <= k < i :: s[k].id != id
  {
    if s[0].id == id then 0
    else
      assert exists k | 0 <= k < |s[1..]| :: s[1..][k].id == id by {
        var k :| 0 <= k < |s| && s[k].id == id;
        assert s[1..][k - 1].id == id;
      }
      1 + IndexOfId(s[1..], id)
  }

  function Without<T>(s: seq<T>, i: nat): (r: seq<T>)
    requires i < |s|
    ensures |r| == |s| - 1
    ensures forall k {:trigger r[k]} | 0 <= k < |r| :: r[k] == s[if k < i then k else k + 1]
  {
    seq(|s| - 1, k requires 0 <= k < |s| - 1 => s[if k < i then k else k + 1])
  }

  function Insert(q: Queue, t: Task): Queue {
    if High(t) then q.(high := q.high + [t], enqueued := q.enqueued + 1)
    else q.(normal := q.normal + [t], enqueued := q.enqueued + 1)
  }

  /** Return codes in the order the checks are made; `nodeOk` says whether malloc gave a node. */
  function EnqueueCode(q: Queue, t: Task, nodeOk: bool): int {
    if q.shuttingDown then REJECTED
    else if Full(q) then FULL
    else if !q.allowDuplicates && HasId(Contents(q), t.id) then DUPLICATE
    else if !nodeOk then REJECTED
    else OK
  }

  function Enqueue(q: Queue, t: Task, nodeOk: bool): Queue {
    if EnqueueCode(q, t, nodeOk) == OK then Insert(q, t) else q
  }

  function Next(q: Queue): Option<Task> {
    if q.high != [] then Some(q.high[0])
    else if q.normal != [] then Some(q.normal[0])
    else None
  }

  function Dequeue(q: Queue): Queue {
    if q.high != [] then q.(high := q.high[1..], dequeued := q.dequeued + 1)
    else if q.normal != [] then q.(normal := q.normal[1..], dequeued := q.dequeued + 1)
    else q
  }

  /** Cancels the first task in list order with the given id. */
  function RemoveById(q: Queue, id: nat): Queue {
    if HasId(q.high, id) then q.(high := Without(q.high, IndexOfId(q.high, id)), removed := q.removed + 1)
    else if HasId(q.normal, id) then q.(normal := Without(q.normal, IndexOfId(q.normal, id)), removed := q.removed + 1)
    else q
  }

  function Removed(q: Queue, id: nat): Option<Task> {
    if HasId(q.high, id) then Some(q.high[IndexOfId(q.high, id)])
    else if HasId(q.normal, id) then Some(q.normal[IndexOfId(q.normal, id)])
    else None
  }

  function Clear(q: Queue): Queue {
    q.(high := [], normal := [], cleared := q.cleared + Size(q))
  }

  // What every operation keeps

  ghost predicate UniqueIds(s: seq<Task>) {
    forall i, j | 0 <= i < j < |s| :: s[i].id != s[j].id
  }

  ghost predicate Disjoint(r: seq<Task>, s: seq<Task>) {
    forall i, j | 0 <= i < |r| && 0 <= j < |s| :: r[i].id != s[j].id
  }

  ghost predicate Inv(q: Queue) {
    && (q.maxSize > 0 ==> Size(q) <= q.maxSize)
    && (forall k | 0 <= k < |q.high| :: High(q.high[k]))
    && (forall k | 0 <= k < |q.normal| :: !High(q.normal[k]))
    && (!q.allowDuplicates ==> UniqueIds(q.high) && UniqueIds(q.normal) && Disjoint(q.high, q.normal))
    && q.enqueued == q.dequeued + Size(q) + q.removed + q.cleared
  }

  /** No id occurs twice in the whole list. */
  lemma ContentsUnique(q: Queue)
    requires Inv(q) && !q.allowDuplicates
    ensures UniqueIds(Contents(q))
  {
    var s, h := Contents(q), |q.high|;
    forall i, j | 0 <= i < j < |s| ensures s[i].id != s[j].id {
      assert s[i] == if i < h then q.high[i] else q.normal[i - h];
      assert s[j] == if j < h then q.high[j] else q.normal[j - h];
    }
  }

  lemma AbsentFromLanes(q: Queue, id: nat)
    requires !HasId(Contents(q), id)
    ensures !HasId(q.high, id) && !HasId(q.normal, id)
  {
    assert forall k | 0 <= k < |q.high| :: q.high[k] == Contents(q)[k];
    assert forall k | 0 <= k < |q.normal| :: q.normal[k] == Contents(q)[|q.high| + k];
  }

  lemma InsertKeepsInv(q: Queue, t: Task)
    requires Inv(q) && !Full(q) && (!q.allowDuplicates ==> !HasId(q.high, t.id) && !HasId(q.normal, t.id))
    ensures Inv(Insert(q, t))
  {}

  lemma EnqueueKeepsInv(q: Queue, t: Task, nodeOk: bool)
    requires Inv(q)
    ensures Inv(Enqueue(q, t, nodeOk))
  {
    if EnqueueCode(q, t, nodeOk) == OK {
      if !q.allowDuplicates { AbsentFromLanes(q, t.id); }
      InsertKeepsInv(q, t);
    }
  }

  lemma DequeueKeepsInv(q: Queue)
    requires Inv(q)
    ensures Inv(Dequeue(q))
  {}

  lemma RemoveHighKeepsInv(q: Queue, i: nat)
    requires Inv(q) && i < |q.high|
    ensures Inv(q.(high := Without(q.high, i), removed := q.removed + 1))
  {}

  lemma RemoveNormalKeepsInv(q: Queue, i: nat)
    requires Inv(q) && i < |q.normal|
    ensures Inv(q.(normal := Without(q.normal, i), removed := q.removed + 1))
  {}

  lemma RemoveKeepsInv(q: Queue, id: nat)
    requires Inv(q)
    ensures Inv(RemoveById(q, id))
  {
    if HasId(q.high, id) {
      RemoveHighKeepsInv(q, IndexOfId(q.high, id));
    } else if HasId(q.normal, id) {
      RemoveNormalKeepsInv(q, IndexOfId(q.normal, id));
    }
  }

  lemma WithoutRight<T>(s: seq<T>, r: seq<T>, i: nat)
    requires i < |r|
    ensures s + Without(r, i) == Without(s + r, |s| + i)
  {}

  // Whole runs

  datatype Op = EnqueueOp(t: Task, nodeOk: bool) | DequeueOp | RemoveOp(id: nat) | ClearOp | ShutdownOp

  /** Everything a run accepted, delivered to callers, and threw away, each in order. */
  datatype History = History(accepted: seq<Task>, delivered: seq<Task>, discarded: seq<Task>)

  datatype Recorded = Recorded(q: Queue, h: History)

  function Listed(o: Option<Task>): seq<Task> {
    if o.Some? then [o.value] else []
  }

  function Step(r: Recorded, op: Op): Recorded {
    match op
    case EnqueueOp(t, nodeOk) =>
      Recorded(Enqueue(r.q, t, nodeOk),
               if EnqueueCode(r.q, t, nodeOk) == OK then r.h.(accepted := r.h.accepted + [t]) else r.h)
    case DequeueOp => Recorded(Dequeue(r.q), r.h.(delivered := r.h.delivered + Listed(Next(r.q))))
    case RemoveOp(id) => Recorded(RemoveById(r.q, id), r.h.(discarded := r.h.discarded + Listed(Removed(r.q, id))))
    case ClearOp => Recorded(Clear(r.q), r.h.(discarded := r.h.discarded + Contents(r.q)))
    case ShutdownOp => Recorded(r.q.(shuttingDown := true), r.h)
  }

  function Run(maxSize: nat, allowDuplicates: bool, ops: seq<Op>): Recorded {
    if ops == [] then Recorded(Empty(maxSize, allowDuplicates), History([], [], []))
    else Step(Run(maxSize, allowDuplicates, ops[..|ops| - 1]), ops[|ops| - 1])
  }

  lemma StepKeepsInv(r: Recorded, op: Op)
    requires Inv(r.q)
    ensures Inv(Step(r, op).q)
  {
    match op
    case EnqueueOp(t, nodeOk) => EnqueueKeepsInv(r.q, t, nodeOk);
    case DequeueOp => DequeueKeepsInv(r.q);
    case RemoveOp(id) => RemoveKeepsInv(r.q, id);
    case ClearOp =>
    case ShutdownOp =>
  }

  lemma {:induction false} RunInv(maxSize: nat, allowDuplicates: bool, ops: seq<Op>)
    ensures Inv(Run(maxSize, allowDuplicates, ops).q)
    ensures Run(maxSize, allowDuplicates, ops).q.maxSize == maxSize
    ensures Run(maxSize, allowDuplicates, ops).q.allowDuplicates == allowDuplicates
  {
    if ops != [] {
      RunInv(maxSize, allowDuplicates, ops[..|ops| - 1]);
      StepKeepsInv(Run(maxSize, allowDuplicates, ops[..|ops| - 1]), ops[|ops| - 1]);
    }
  }

  // Conservation: every accepted task is delivered, discarded or still queued, with multiplicity

  ghost predicate Conserved(r: Recorded) {
    multiset(r.h.accepted) == multiset(r.h.delivered) + multiset(r.h.discarded) + multiset(r.q.high) + multiset(r.q.normal)
  }

  lemma MultisetHead<T>(s: seq<T>)
    requires s != []
    ensures multiset(s) == multiset{s[0]} + multiset(s[1..])
  {
    assert s == [s[0]] + s[1..];
  }

  lemma MultisetWithout<T>(s: seq<T>, i: nat)
    requires i < |s|
    ensures multiset(s) == multiset(Without(s, i)) + multiset{s[i]}
  {
    assert s == s[..i] + [s[i]] + s[i + 1..];
    assert Without(s, i) == s[..i] + s[i + 1..];
  }

  lemma DequeueSplits(q: Queue)
    ensures multiset(q.high) + multiset(q.normal)
         == multiset(Listed(Next(q))) + multiset(Dequeue(q).high) + multiset(Dequeue(q).normal)
  {
    if q.high != [] { MultisetHead(q.high); } else if q.normal != [] { MultisetHead(q.normal); }
  }

  lemma RemoveSplits(q: Queue, id: nat)
    ensures multiset(q.high) + multiset(q.normal)
         == multiset(Listed(Removed(q, id))) + multiset(RemoveById(q, id).high) + multiset(RemoveById(q, id).normal)
  {
    if HasId(q.high, id) {
      MultisetWithout(q.high, IndexOfId(q.high, id));
    } else if HasId(q.normal, id) {
      MultisetWithout(q.normal, IndexOfId(q.normal, id));
    }
  }

  lemma Regroup<T>(b: multiset<T>, c: multiset<T>, h: multiset<T>, n: multiset<T>, l: multiset<T>, h': multiset<T>, n': multiset<T>)
    requires h + n == l + h' + n'
    ensures b + c + h + n == b + l + c + h' + n' == b + (c + l) + h' + n'
  {
    assert b + c + h + n == b + c + (h + n);
  }

  lemma DequeueConserves(r: Recorded)
    requires Conserved(r)
    ensures Conserved(Step(r, DequeueOp))
  {
    var q' := Dequeue(r.q);
    DequeueSplits(r.q);
    Regroup(multiset(r.h.delivered), multiset(r.h.discarded), multiset(r.q.high), multiset(r.q.normal),
            multiset(Listed(Next(r.q))), multiset(q'.high), multiset(q'.normal));
  }

  lemma RemoveConserves(r: Recorded, id: nat)
    requires Conserved(r)
    ensures Conserved(Step(r, RemoveOp(id)))
  {
    var q' := RemoveById(r.q, id);
    RemoveSplits(r.q, id);
    Regroup(multiset(r.h.delivered), multiset(r.h.discarded), multiset(r.q.high), multiset(r.q.normal),
            multiset(Listed(Removed(r.q, id))), multiset(q'.high), multiset(q'.normal));
  }

  lemma EnqueueConserves(r: Recorded, t: Task, nodeOk: bool)
    requires Conserved(r)
    ensures Conserved(Step(r, EnqueueOp(t, nodeOk)))
  {}

  lemma ClearConserves(r: Recorded)
    requires Conserved(r)
    ensures Conserved(Step(r, ClearOp))
  {}

  lemma StepConserves(r: Recorded, op: Op)
    requires Conserved(r)
    ensures Conserved(Step(r, op))
  {
    match op
    case EnqueueOp(t, nodeOk) => EnqueueConserves(r, t, nodeOk);
    case DequeueOp => DequeueConserves(r);
    case RemoveOp(id) => RemoveConserves(r, id);
    case ClearOp => ClearConserves(r);
    case ShutdownOp =>
  }

  lemma {:induction false} RunConserves(maxSize: nat, allowDuplicates: bool, ops: seq<Op>)
    ensures Conserved(Run(maxSize, allowDuplicates, ops))
  {
    if ops != [] {
      RunConserves(maxSize, allowDuplicates, ops[..|ops| - 1]);
      StepConserves(Run(maxSize, allowDuplicates, ops[..|ops| - 1]), ops[|ops| - 1]);
    }
  }

  // Order: within a priority, tasks leave in the order they came

  ghost predicate Subsequence<T(!new)>(a: seq<T>, b: seq<T>) {
    if a == [] then true
    else if b == [] then false
    else
      || (a[|a| - 1] == b[|b| - 1] && Subsequence(a[..|a| - 1], b[..|b| - 1]))
      || Subsequence(a, b[..|b| - 1])
  }

  lemma SubsequenceAppend<T(!new)>(a: seq<T>, b: seq<T>, x: T)
    requires Subsequence(a, b)
    ensures Subsequence(a + [x], b + [x])
  {
    assert (a + [x])[..|a|] == a && (b + [x])[..|b|] == b;
  }

  lemma {:induction false} SubsequenceWithout<T(!new)>(a: seq<T>, b: seq<T>, i: nat)
    requires Subsequence(a, b) && i < |a|
    ensures Subsequence(Without(a, i), b)
    decreases |b|
  {
    var n, a', b' := |a| - 1, Without(a, i), b[..|b| - 1];
    if Subsequence(a, b') {
      SubsequenceWithout(a, b', i);
    } else if i == n {
      assert a' == a[..n];
      if a' != [] { SubsequenceWeaken(a', b); }
    } else {
      SubsequenceWithout(a[..n], b', i);
      assert a'[..n - 1] == Without(a[..n], i) && a'[n - 1] == a[n];
    }
  }

  lemma SubsequenceWeaken<T(!new)>(a: seq<T>, b: seq<T>)
    requires b != [] && Subsequence(a, b[..|b| - 1])
    ensures Subsequence(a, b)
  {}

  lemma {:induction false} SubsequencePrefix<T(!new)>(a: seq<T>, c: seq<T>, b: seq<T>)
    requires Subsequence(a + c, b)
    ensures Subsequence(a, b)
    decreases |c|
  {
    if c == [] {
      assert a + c == a;
    } else {
      SubsequenceWithout(a + c, b, |a + c| - 1);
      assert Without(a + c, |a + c| - 1) == a + c[..|c| - 1];
      SubsequencePrefix(a, c[..|c| - 1], b);
    }
  }

  /** The tasks of one priority, in order. */
  ghost function Select(s: seq<Task>, high: bool): seq<Task> {
    if s == [] then []
    else
      var front := Select(s[..|s| - 1], high);
      if High(s[|s| - 1]) == high then front + [s[|s| - 1]] else front
  }

  lemma SelectAppend(s: seq<Task>, t: Task, high: bool)
    ensures Select(s + [t], high) == if High(t) == high then Select(s, high) + [t] else Select(s, high)
  {
    assert (s + [t])[..|s|] == s;
  }

  function Lane(q: Queue, high: bool): seq<Task> {
    if high then q.high else q.normal
  }

  ghost predicate InOrder(r: Recorded, high: bool) {
    Ordered(Select(r.h.delivered, high) + Lane(r.q, high), Select(r.h.accepted, high), r.h.discarded == [])
  }

  ghost predicate Ordered(went: seq<Task>, came: seq<Task>, exact: bool) {
    Subsequence(went, came) && (exact ==> went == came)
  }

  lemma EnqueueInOrder(r: Recorded, t: Task, nodeOk: bool, high: bool)
    requires InOrder(r, high)
    ensures InOrder(Step(r, EnqueueOp(t, nodeOk)), high)
  {
    var out, lane := Select(r.h.delivered, high), Lane(r.q, high);
    SelectAppend(r.h.accepted, t, high);
    if High(t) == high {
      OrderedAppend(out, lane, Select(r.h.accepted, high), r.h.discarded == [], t);
    }
  }

  lemma HeadMoves<T>(out: seq<T>, lane: seq<T>)
    requires lane != []
    ensures out + [lane[0]] + lane[1..] == out + lane
  {}

  /** What dequeue takes from a lane it delivers. */
  lemma DequeueMoves(q: Queue, delivered: seq<Task>, high: bool)
    requires Inv(q)
    ensures Select(delivered + Listed(Next(q)), high) + Lane(Dequeue(q), high) == Select(delivered, high) + Lane(q, high)
  {
    if Next(q).Some? {
      var t := Next(q).value;
      SelectAppend(delivered, t, high);
      if High(t) == high { HeadMoves(Select(delivered, high), Lane(q, high)); }
    } else {
      assert delivered + [] == delivered;
    }
  }

  lemma DequeueInOrder(r: Recorded, high: bool)
    requires InOrder(r, high) && Inv(r.q)
    ensures InOrder(Step(r, DequeueOp), high)
  {
    DequeueMoves(r.q, r.h.delivered, high);
  }

  lemma OrderedWithout(out: seq<Task>, lane: seq<Task>, came: seq<Task>, exact: bool, i: nat)
    requires Ordered(out + lane, came, exact) && i < |lane|
    ensures Ordered(out + Without(lane, i), came, false)
  {
    SubsequenceWithout(out + lane, came, |out| + i);
    WithoutRight(out, lane, i);
  }

  lemma OrderedAppend(out: seq<Task>, lane: seq<Task>, came: seq<Task>, exact: bool, t: Task)
    requires Ordered(out + lane, came, exact)
    ensures Ordered(out + (lane + [t]), came + [t], exact)
  {
    SubsequenceAppend(out + lane, came, t);
    assert out + lane + [t] == out + (lane + [t]);
  }

  lemma RemoveInOrder(r: Recorded, id: nat, high: bool)
    requires InOrder(r, high)
    ensures InOrder(Step(r, RemoveOp(id)), high)
  {
    var out, lane := Select(r.h.delivered, high), Lane(r.q, high);
    if Removed(r.q, id).None? {
      assert r.h.discarded + [] == r.h.discarded;
    } else if HasId(r.q.high, id) == high {
      OrderedWithout(out, lane, Select(r.h.accepted, high), r.h.discarded == [], IndexOfId(lane, id));
    }
  }

  lemma ClearInOrder(r: Recorded, high: bool)
    requires InOrder(r, high)
    ensures InOrder(Step(r, ClearOp), high)
  {
    var out, lane := Select(r.h.delivered, high), Lane(r.q, high);
    SubsequencePrefix(out, lane, Select(r.h.accepted, high));
    assert out + [] == out;
    if r.h.discarded + Contents(r.q) == [] {
      assert |lane| == 0 && |r.h.discarded| == 0;
    }
  }

  lemma StepInOrder(r: Recorded, op: Op, high: bool)
    requires InOrder(r, high) && Inv(r.q)
    ensures InOrder(Step(r, op), high)
  {
    match op
    case EnqueueOp(t, nodeOk) => EnqueueInOrder(r, t, nodeOk, high);
    case DequeueOp => DequeueInOrder(r, high);
    case RemoveOp(id) => RemoveInOrder(r, id, high);
    case ClearOp => ClearInOrder(r, high);
    case ShutdownOp =>
  }

  /** In every run each lane delivers a subsequence of what it accepted, and exactly that when nothing is discarded. */
  lemma {:induction false} RunInOrder(maxSize: nat, allowDuplicates: bool, ops: seq<Op>, high: bool)
    ensures InOrder(Run(maxSize, allowDuplicates, ops), high)
  {
    if ops == [] {
    } else {
      var front := ops[..|ops| - 1];
      RunInOrder(maxSize, allowDuplicates, front, high);
      RunInv(maxSize, allowDuplicates, front);
      StepInOrder(Run(maxSize, allowDuplicates, front), ops[|ops| - 1], high);
    }
  }

  // Which of two queued tasks goes first

  lemma FlagByPosition(q: Queue, i: nat)
    requires Inv(q) && i < |Contents(q)|
    ensures Contents(q)[i].flags.highPriority <==> i < |q.high|
  {
    assert Contents(q)[i] == if i < |q.high| then q.high[i] else q.normal[i - |q.high|];
  }

  /** After every run the tasks flagged high priority are listed before the others. */
  lemma FlaggedFirst(maxSize: nat, allowDuplicates: bool, ops: seq<Op>, i: nat, j: nat)
    requires var s := Contents(Run(maxSize, allowDuplicates, ops).q);
      i < |s| && j < |s| && s[i].flags.highPriority && !s[j].flags.highPriority
    ensures i < j
  {
    RunInv(maxSize, allowDuplicates, ops);
    FlagByPosition(Run(maxSize, allowDuplicates, ops).q, i);
    FlagByPosition(Run(maxSize, allowDuplicates, ops).q, j);
  }

  /** The run with n dequeues at the end. */
  function Drained(maxSize: nat, allowDuplicates: bool, ops: seq<Op>, n: nat): Recorded {
    if n == 0 then Run(maxSize, allowDuplicates, ops) else Step(Drained(maxSize, allowDuplicates, ops, n - 1), DequeueOp)
  }

  lemma TakesListed(q: Queue)
    requires Size(q) > 0
    ensures Listed(Next(q)) == [Contents(q)[0]] && Contents(Dequeue(q)) == Contents(q)[1..]
  {}

  /** The next n dequeues deliver the first n listed tasks, in that order. */
  lemma {:induction false} DeliversListed(maxSize: nat, allowDuplicates: bool, ops: seq<Op>, n: nat)
    requires n <= |Contents(Run(maxSize, allowDuplicates, ops).q)|
    ensures var r, r' := Run(maxSize, allowDuplicates, ops), Drained(maxSize, allowDuplicates, ops, n);
      r'.h.delivered == r.h.delivered + Contents(r.q)[..n] && Contents(r'.q) == Contents(r.q)[n..]
  {
    if n > 0 {
      DeliversListed(maxSize, allowDuplicates, ops, n - 1);
      TakesListed(Drained(maxSize, allowDuplicates, ops, n - 1).q);
    }
  }

  // The counters and the codes

  ghost predicate Tallied(r: Recorded) {
    && r.q.enqueued == |r.h.accepted| && r.q.dequeued == |r.h.delivered|
    && r.q.removed + r.q.cleared == |r.h.discarded|
  }

  lemma StepTallied(r: Recorded, op: Op)
    requires Tallied(r)
    ensures Tallied(Step(r, op))
  {}

  /** On every run the counters count the accepted tasks and the delivered ones; cancelled tasks count as neither. */
  lemma {:induction false} RunTallied(maxSize: nat, allowDuplicates: bool, ops: seq<Op>)
    ensures Tallied(Run(maxSize, allowDuplicates, ops))
  {
    if ops != [] {
      RunTallied(maxSize, allowDuplicates, ops[..|ops| - 1]);
      StepTallied(Run(maxSize, allowDuplicates, ops[..|ops| - 1]), ops[|ops| - 1]);
    }
  }

  /** What the return codes of enqueue mean, after every run. */
  lemma CodesMean(maxSize: nat, allowDuplicates: bool, ops: seq<Op>, t: Task, nodeOk: bool)
    ensures var q := Run(maxSize, allowDuplicates, ops).q;
      var code, q' := EnqueueCode(q, t, nodeOk), Enqueue(q, t, nodeOk);
      var full, twice := 0 < maxSize == |Contents(q)|, !allowDuplicates && exists u | u in Contents(q) :: u.id == t.id;
      && (code == -2 <==> !q.shuttingDown && full) && (code == -3 <==> !q.shuttingDown && !full && twice)
      && (code == 0 <==> !q.shuttingDown && !full && !twice && nodeOk) && (code in {0, -1, -2, -3})
      && (code == 0 ==> |Contents(q')| == |Contents(q)| + 1) && (code != 0 ==> q' == q)
  {
    RunInv(maxSize, allowDuplicates, ops);
  }
}
