/** The linked-list task queue, refining the pair of FIFO sequences operation by operation. */
module TaskQueue {
  import opened Wrappers
  import opened QueueSpec

  function PriorityOf(t: Task): int {
    if High(t) then 1 else 0
  }

  class Node {
    const task: Task
    var next: Node?
    const priority: int

    constructor (t: Task)
      ensures task == t && next == null && priority == PriorityOf(t)
    {
      task, next, priority := t, null, PriorityOf(t);
    }
  }

  ghost function FirstTasks(ns: seq<Node>, n: nat): (r: seq<Task>)
    requires n <= |ns|
    ensures |r| == n && forall k {:trigger r[k]} | 0 <= k < n :: r[k] == ns[k].task
  {
    if n == 0 then [] else FirstTasks(ns, n - 1) + [ns[n - 1].task]
  }

  ghost function Tasks(ns: seq<Node>): (r: seq<Task>)
    ensures |r| == |ns| && forall k {:trigger r[k]} | 0 <= k < |r| :: r[k] == ns[k].task
  {
    FirstTasks(ns, |ns|)
  }

  ghost function Inserted<T>(s: seq<T>, i: nat, x: T): (r: seq<T>)
    requires i <= |s|
    ensures |r| == |s| + 1
    ensures forall k {:trigger r[k]} | 0 <= k < |r| :: r[k] == if k < i then s[k] else if k == i then x else s[k - 1]
  {
    seq(|s| + 1, k requires 0 <= k <= |s| => if k < i then s[k] else if k == i then x else s[k - 1])
  }

  lemma TasksInserted(ns: seq<Node>, i: nat, node: Node)
    requires i <= |ns|
    ensures Tasks(Inserted(ns, i, node)) == Inserted(Tasks(ns), i, node.task)
  {}

  lemma TasksWithout(ns: seq<Node>, i: nat)
    requires i < |ns|
    ensures Tasks(Without(ns, i)) == Without(Tasks(ns), i)
  {}

  lemma TasksTail(ns: seq<Node>)
    requires ns != []
    ensures Tasks(ns[1..]) == Tasks(ns)[1..]
  {}

  /** The high-priority tasks are exactly the first h. */
  ghost predicate Parted(s: seq<Task>, h: nat) {
    h <= |s| && forall i | 0 <= i < |s| :: High(s[i]) <==> i < h
  }

  /** s lists the tasks of q, its first h being the high-priority ones. */
  ghost predicate Reads(q: Queue, s: seq<Task>, h: nat) {
    Parted(s, h) && s == Contents(q) && |q.high| == h
  }

  lemma InsertReads(q: Queue, s: seq<Task>, h: nat, t: Task)
    requires Reads(q, s, h)
    ensures Reads(Insert(q, t), Inserted(s, if High(t) then h else |s|, t), h + PriorityOf(t))
  {}

  lemma DequeueReads(q: Queue, s: seq<Task>, h: nat)
    requires Reads(q, s, h) && s != []
    ensures High(s[0]) ==> h > 0
    ensures Next(q) == Some(s[0]) && Reads(Dequeue(q), s[1..], h - PriorityOf(s[0]))
    ensures Dequeue(q) == q.(high := Dequeue(q).high, normal := Dequeue(q).normal, dequeued := q.dequeued + 1)
  {}

  lemma NextReads(q: Queue, s: seq<Task>, h: nat)
    requires Reads(q, s, h)
    ensures Next(q) == if s == [] then None else Some(s[0])
  {}

  lemma ClearReads(q: Queue)
    requires q.high == [] && q.normal == []
    ensures Reads(q, Tasks([]), 0)
  {}

  lemma AbsentReads(q: Queue, s: seq<Task>, h: nat, id: nat)
    requires Reads(q, s, h) && !HasId(s, id)
    ensures RemoveById(q, id) == q
  {
    assert forall k | 0 <= k < h :: q.high[k] == s[k];
    assert forall k | 0 <= k < |q.normal| :: q.normal[k] == s[h + k];
  }

  /** The first task with an id in the list is the first in its lane. */
  lemma FirstInLane(q: Queue, s: seq<Task>, h: nat, i: nat)
    requires Reads(q, s, h) && i < |s| && forall k | 0 <= k < i :: s[k].id != s[i].id
    ensures i < h ==> HasId(q.high, s[i].id) && IndexOfId(q.high, s[i].id) == i
    ensures i >= h ==>
      !HasId(q.high, s[i].id) && HasId(q.normal, s[i].id) && IndexOfId(q.normal, s[i].id) == i - h
  {
    var id := s[i].id;
    if i < h {
      assert s[i] == q.high[i];
      var j := IndexOfId(q.high, id);
      assert s[j] == q.high[j];
    } else {
      assert forall k | 0 <= k < h :: q.high[k] == s[k];
      assert s[i] == q.normal[i - h];
      var j := IndexOfId(q.normal, id);
      assert s[h + j] == q.normal[j];
    }
  }

  lemma HighRemovedReads(q: Queue, s: seq<Task>, h: nat, i: nat)
    requires Reads(q, s, h) && i < h
    ensures Reads(q.(high := Without(q.high, i), removed := q.removed + 1), Without(s, i), h - 1)
  {}

  lemma NormalRemovedReads(q: Queue, s: seq<Task>, h: nat, i: nat)
    requires Reads(q, s, h) && h <= i < |s|
    ensures Reads(q.(normal := Without(q.normal, i - h), removed := q.removed + 1), Without(s, i), h)
  {}

  /** Removing the first task with an id from the list removes it from its lane. */
  lemma RemoveReads(q: Queue, s: seq<Task>, h: nat, i: nat)
    requires Reads(q, s, h) && i < |s| && forall k | 0 <= k < i :: s[k].id != s[i].id
    ensures High(s[i]) ==> h > 0
    ensures Reads(RemoveById(q, s[i].id), Without(s, i), h - PriorityOf(s[i]))
    ensures RemoveById(q, s[i].id)
      == q.(high := RemoveById(q, s[i].id).high, normal := RemoveById(q, s[i].id).normal, removed := q.removed + 1)
  {
    FirstInLane(q, s, h, i);
    if i < h { HighRemovedReads(q, s, h, i); } else { NormalRemovedReads(q, s, h, i); }
  }

  class TaskQueue {
    var head: Node?
    var tail: Node?
    var size: nat
    var maxSize: nat
    var allowDuplicates: bool
    var shuttingDown: bool
    var totalEnqueued: nat
    var totalDequeued: nat
    var highPriorityCount: nat
    ghost var nodes: seq<Node>
    ghost var model: Queue
    ghost var repr: set<Node>

    ghost function At(i: int): Node?
      reads this
    {
      if 0 <= i < |nodes| then nodes[i] else null
    }

    /** head, tail and the next links string exactly `nodes` together. */
    ghost predicate Chain()
      reads this, nodes
    {
      && (forall i, j | 0 <= i < j < |nodes| :: nodes[i] != nodes[j])
      && (forall i, j | 0 <= i < j < |nodes| && j == i + 1 :: nodes[i].next == nodes[j])
      && (forall i | 0 <= i < |nodes| :: nodes[i].priority == PriorityOf(nodes[i].task))
      && head == At(0) && tail == At(|nodes| - 1) && (tail != null ==> tail.next == null)
    }

    /** The list and the counters hold what q says. */
    ghost predicate Stores(q: Queue)
      reads this
    {
      && Reads(q, Tasks(nodes), highPriorityCount) && size == |nodes|
      && q.maxSize == maxSize && q.allowDuplicates == allowDuplicates && q.shuttingDown == shuttingDown
      && q.enqueued == totalEnqueued && q.dequeued == totalDequeued
    }

    ghost predicate Shape()
      reads this, nodes
    {
      Chain() && Stores(model) && forall k | 0 <= k < |nodes| :: nodes[k] in repr
    }

    ghost predicate Valid()
      reads this, nodes
    {
      Shape() && Inv(model)
    }

    constructor (maxSize: nat, allowDuplicates: bool)
      ensures Valid() && model == Empty(maxSize, allowDuplicates) && repr == {}
    {
      head, tail, size, this.maxSize, this.allowDuplicates, shuttingDown := null, null, 0, maxSize, allowDuplicates, false;
      totalEnqueued, totalDequeued, highPriorityCount := 0, 0, 0;
      nodes, model, repr := [], Empty(maxSize, allowDuplicates), {};
    }

    method TaskExists(id: nat) returns (found: bool)
      requires Chain()
      ensures found == HasId(Tasks(nodes), id)
    {
      var node := head;
      ghost var i, s := 0, Tasks(nodes);
      while node != null
        invariant i <= |nodes| && node == At(i)
        invariant forall k | 0 <= k < i :: s[k].id != id
        decreases |nodes| - i
      {
        assert s[i] == node.task;
        if node.task.id == id {
          return true;
        }
        node := node.next;
        i := i + 1;
      }
      return false;
    }

    method InsertFront(node: Node)
      requires Chain() && node !in nodes && node.priority == PriorityOf(node.task)
      modifies this`head, this`tail, this`nodes, node`next
      ensures nodes == Inserted(old(nodes), 0, node) && Chain()
    {
      node.next := head;
      head := node;
      if tail == null {
        tail := node;
      }
      nodes := Inserted(nodes, 0, node);
    }

    /** Links a node between prev and curr, neighbours at position i > 0. */
    method InsertBetween(prev: Node, curr: Node?, node: Node, ghost i: nat)
      requires Chain() && node !in nodes && node.priority == PriorityOf(node.task)
      requires 0 < i <= |nodes| && prev == nodes[i - 1] && curr == At(i)
      modifies this`tail, this`nodes, prev`next, node`next
      ensures nodes == Inserted(old(nodes), i, node) && Chain()
    {
      node.next := curr;
      prev.next := node;
      if node.next == null {
        tail := node;
      }
      nodes := Inserted(nodes, i, node);
    }

    /** The end of the high-priority prefix: its last node and the node behind it. */
    method LastHigh() returns (prev: Node, curr: Node?)
      requires Chain() && Parted(Tasks(nodes), highPriorityCount) && highPriorityCount > 0
      ensures prev == nodes[highPriorityCount - 1] && curr == At(highPriorityCount)
    {
      var last: Node?, node := null, head;
      ghost var i, s := 0, Tasks(nodes);
      while node != null && node.priority == 1
        invariant i <= highPriorityCount && node == At(i) && last == At(i - 1)
        decreases highPriorityCount - i
      {
        assert High(s[i]);
        last := node;
        node := node.next;
        i := i + 1;
      }
      if node != null { assert s[i] == node.task; }
      prev, curr := last, node;
    }

    /** Links a new high-priority node behind the last high-priority one. */
    method InsertHigh(node: Node)
      requires Chain() && Parted(Tasks(nodes), highPriorityCount)
      requires node !in nodes && node.priority == 1 && High(node.task)
      modifies this`head, this`tail, this`nodes, nodes`next, node`next
      ensures nodes == Inserted(old(nodes), highPriorityCount, node) && Chain()
    {
      ghost var s := Tasks(nodes);
      if head == null || head.priority == 0 {
        if head != null { assert s[0] == head.task; }
        InsertFront(node);
      } else {
        assert High(s[0]);
        var prev, curr := LastHigh();
        InsertBetween(prev, curr, node, highPriorityCount);
      }
    }

    /** Appends a normal-priority node at the tail. */
    method InsertNormal(node: Node)
      requires Chain() && node !in nodes && node.next == null && node.priority == PriorityOf(node.task)
      modifies this`head, this`tail, this`nodes, nodes`next
      ensures nodes == Inserted(old(nodes), |old(nodes)|, node) && Chain()
    {
      if head == null {
        head := node;
        tail := node;
      } else {
        tail.next := node;
        tail := node;
      }
      nodes := Inserted(nodes, |nodes|, node);
    }

    /** Links a new node in at the end of its priority class. */
    method Place(node: Node)
      requires Chain() && Parted(Tasks(nodes), highPriorityCount)
      requires node !in nodes && node.next == null && node.priority == PriorityOf(node.task)
      modifies this`head, this`tail, this`nodes, nodes`next, node`next
      ensures Chain() && forall k | 0 <= k < |nodes| :: nodes[k] == node || nodes[k] in old(nodes)
      ensures Tasks(nodes)
           == Inserted(old(Tasks(nodes)), if High(node.task) then highPriorityCount else |old(nodes)|, node.task)
    {
      TasksInserted(nodes, if High(node.task) then highPriorityCount else |nodes|, node);
      if node.priority == 1 {
        InsertHigh(node);
      } else {
        InsertNormal(node);
      }
    }

    /** Links in a node for a task that passed the checks. */
    method Link(t: Task) returns (node: Node)
      requires Chain() && Parted(Tasks(nodes), highPriorityCount)
      modifies this`head, this`tail, this`nodes, this`highPriorityCount, this`size, this`totalEnqueued, nodes`next
      ensures Chain() && highPriorityCount == old(highPriorityCount) + PriorityOf(t)
      ensures size == old(size) + 1 && totalEnqueued == old(totalEnqueued) + 1
      ensures fresh(node) && forall k | 0 <= k < |nodes| :: nodes[k] == node || nodes[k] in old(nodes)
      ensures Tasks(nodes) == Inserted(old(Tasks(nodes)), if High(t) then old(highPriorityCount) else |old(nodes)|, t)
    {
      node := new Node(t);
      Place(node);
      if node.priority == 1 {
        highPriorityCount := highPriorityCount + 1;
      }
      size := size + 1;
      totalEnqueued := totalEnqueued + 1;
    }

    /** Takes q, which the list already stores, as the model. */
    ghost method Settle(q: Queue, more: set<Node>)
      requires Chain() && Stores(q) && forall k | 0 <= k < |nodes| :: nodes[k] in repr + more
      modifies this`model, this`repr
      ensures Shape() && model == q && repr == old(repr) + more
    {
      model, repr := q, repr + more;
    }

    method Add(t: Task)
      requires Shape()
      modifies this`head, this`tail, this`nodes, this`highPriorityCount, this`size, this`totalEnqueued, this`model, this`repr
      modifies nodes`next
      ensures Shape() && model == Insert(old(model), t) && fresh(repr - old(repr))
    {
      InsertReads(model, Tasks(nodes), highPriorityCount, t);
      var node := Link(t);
      Settle(Insert(model, t), {node});
    }

    method Enqueue(t: Task, nodeOk: bool) returns (code: int)
      requires Valid()
      modifies this, repr
      ensures Valid() && fresh(repr - old(repr))
      ensures code == EnqueueCode(old(model), t, nodeOk)
      ensures model == QueueSpec.Enqueue(old(model), t, nodeOk)
    {
      EnqueueKeepsInv(model, t, nodeOk);
      assert Contents(model) == Tasks(nodes);
      if shuttingDown {
        return REJECTED;
      }
      if maxSize > 0 && size >= maxSize {
        return FULL;
      }
      if !allowDuplicates {
        var duplicate := TaskExists(t.id);
        if duplicate {
          return DUPLICATE;
        }
      }
      if !nodeOk {
        return REJECTED;
      }
      Add(t);
      return OK;
    }

    /** Unlinks the head node. */
    method Dequeue() returns (r: Option<Task>)
      requires Valid()
      modifies this
      ensures Valid() && repr == old(repr)
      ensures r == Next(old(model)) && model == QueueSpec.Dequeue(old(model))
    {
      NextReads(model, Tasks(nodes), highPriorityCount);
      if head == null {
        return None;
      }
      DequeueKeepsInv(model);
      r := Some(head.task);
      TakeHead();
    }

    method UnlinkHead()
      requires Chain() && head != null
      modifies this`head, this`tail, this`nodes
      ensures nodes == old(nodes)[1..] && Chain()
    {
      head := head.next;
      if head == null {
        tail := null;
      }
      nodes := nodes[1..];
    }

    /** Unlinks the head node and adjusts the counters. */
    method PopHead()
      requires Chain() && size == |nodes| && head != null && head.priority <= highPriorityCount
      modifies this`head, this`tail, this`nodes, this`highPriorityCount, this`size, this`totalDequeued
      ensures nodes == old(nodes)[1..] && Chain() && size == |nodes|
      ensures highPriorityCount == old(highPriorityCount) - old(head).priority
      ensures totalDequeued == old(totalDequeued) + 1
    {
      var node := head;
      UnlinkHead();
      if node.priority == 1 {
        highPriorityCount := highPriorityCount - 1;
      }
      size := size - 1;
      totalDequeued := totalDequeued + 1;
    }

    method TakeHead()
      requires Shape() && head != null
      modifies this`head, this`tail, this`nodes, this`highPriorityCount, this`size, this`totalDequeued, this`model, this`repr
      ensures Shape() && model == QueueSpec.Dequeue(old(model)) && repr == old(repr)
    {
      TasksTail(nodes);
      DequeueReads(model, Tasks(nodes), highPriorityCount);
      PopHead();
      Settle(QueueSpec.Dequeue(model), {});
    }

    method IsEmpty() returns (empty: bool)
      requires Valid()
      ensures empty == (Size(model) == 0)
    {
      empty := size == 0;
    }

    method Peek() returns (r: Option<Task>)
      requires Valid()
      ensures r == Next(model)
    {
      NextReads(model, Tasks(nodes), highPriorityCount);
      r := if head == null then None else Some(head.task);
    }

    /** The first node with the id and its predecessor, at position i. */
    method Find(id: nat) returns (prev: Node?, curr: Node?, ghost i: nat)
      requires Chain()
      ensures i <= |nodes| && curr == At(i) && prev == At(i - 1)
      ensures forall k | 0 <= k < i :: Tasks(nodes)[k].id != id
      ensures i < |nodes| ==> Tasks(nodes)[i].id == id
    {
      prev, curr, i := null, head, 0;
      ghost var s := Tasks(nodes);
      while curr != null && curr.task.id != id
        invariant i <= |nodes| && curr == At(i) && prev == At(i - 1)
        invariant forall k | 0 <= k < i :: s[k].id != id
        decreases |nodes| - i
      {
        assert s[i] == curr.task;
        prev := curr;
        curr := curr.next;
        i := i + 1;
      }
    }

    method Unlink(prev: Node?, curr: Node, ghost i: nat)
      requires Chain() && i < |nodes| && curr == nodes[i] && prev == At(i - 1)
      modifies this`head, this`tail, this`nodes, nodes`next
      ensures nodes == Without(old(nodes), i) && Chain()
    {
      if prev != null {
        prev.next := curr.next;
      } else {
        head := curr.next;
      }
      if curr == tail {
        tail := prev;
      }
      nodes := Without(nodes, i);
    }

    /** Unlinks the node at position i and adjusts the counters. */
    method Cancel(prev: Node?, curr: Node, ghost i: nat)
      requires Chain() && size == |nodes| && i < |nodes| && curr == nodes[i] && prev == At(i - 1)
      requires curr.priority <= highPriorityCount
      modifies this`head, this`tail, this`nodes, this`highPriorityCount, this`size, nodes`next
      ensures nodes == Without(old(nodes), i) && Chain()
      ensures size == |nodes| && highPriorityCount == old(highPriorityCount) - curr.priority
    {
      assert curr.priority == PriorityOf(curr.task);
      Unlink(prev, curr, i);
      if curr.priority == 1 {
        highPriorityCount := highPriorityCount - 1;
      }
      size := size - 1;
    }

    /** As Cancel, where q is what the queue then holds. */
    method Drop(prev: Node?, curr: Node, ghost i: nat, ghost q: Queue)
      requires Shape() && i < |nodes| && curr == nodes[i] && prev == At(i - 1)
      requires curr.priority <= highPriorityCount
      requires Reads(q, Without(Tasks(nodes), i), highPriorityCount - curr.priority)
      requires q == model.(high := q.high, normal := q.normal, removed := q.removed)
      modifies this`head, this`tail, this`nodes, this`highPriorityCount, this`size, this`model, this`repr, nodes`next
      ensures Shape() && model == q && repr == old(repr)
    {
      TasksWithout(nodes, i);
      Cancel(prev, curr, i);
      Settle(q, {});
    }

    method RemoveById(id: nat) returns (found: bool)
      requires Valid()
      modifies this, repr
      ensures Valid() && repr == old(repr)
      ensures found == HasId(Contents(old(model)), id) && model == QueueSpec.RemoveById(old(model), id)
    {
      RemoveKeepsInv(model, id);
      ghost var s := Tasks(nodes);
      assert Contents(model) == s;
      var prev, curr, i := Find(id);
      found := curr != null;
      if found {
        assert s[i] == curr.task;
        RemoveReads(model, s, highPriorityCount, i);
        Drop(prev, curr, i, QueueSpec.RemoveById(model, id));
      } else {
        AbsentReads(model, s, highPriorityCount, id);
      }
    }

    /** Walks the list to its end. */
    method CountNodes() returns (count: nat)
      requires Chain()
      ensures count == |nodes|
    {
      count := 0;
      var node := head;
      while node != null
        invariant count <= |nodes| && node == At(count)
        decreases |nodes| - count
      {
        node := node.next;
        count := count + 1;
      }
    }

    method Clear() returns (count: nat)
      requires Valid()
      modifies this
      ensures Valid() && repr == old(repr)
      ensures count == Size(old(model)) && model == QueueSpec.Clear(old(model))
    {
      count := CountNodes();
      head, tail, size, highPriorityCount := null, null, 0, 0;
      nodes, model := [], QueueSpec.Clear(model);
      ClearReads(model);
    }
  }
}
