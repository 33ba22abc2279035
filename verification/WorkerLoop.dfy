/** The standalone worker's loop body, on the linked local queue, refining the worker events of the step system. */
module WorkerLoop {
  import opened Wrappers
  import opened QueueSpec
  import opened Batches
  import opened Protocol
  import TaskQueue

  class StandaloneWorker {
    const local: TaskQueue.TaskQueue
    var reserved: nat
    var executing: Option<Task>
    var completed: nat
    var failed: nat
    ghost var model: Worker

    ghost predicate Valid()
      reads this, local, local.nodes
    {
      local.Valid() && model.local == local.model && model.reserved == reserved && model.executing == executing
    }

    /** A worker before its first turn; `capacity` is the size limit of its queue. */
    constructor (capacity: nat)
      ensures Valid() && fresh(local) && fresh(local.repr) && completed == failed == 0
      ensures capacity == LOCAL_CAPACITY ==> Unstarted(model)
    {
      local := new TaskQueue.TaskQueue(capacity, false);
      reserved, executing, completed, failed := 0, None, 0, 0;
      new;
      model := Worker(false, [], local.model, None, 0, [], [], []);
    }

    /** Unpacks the batch that heads the inbox. */
    method Receive(batch: seq<Task>)
      requires Valid() && model.inbox != [] && batch == model.inbox[0]
      modifies this, local, local.repr
      ensures Valid() && fresh(local.repr - old(local.repr)) && model == Received(old(model))
      ensures unchanged(this`completed, this`failed)
    {
      ghost var x := model;
      for i := 0 to |batch|
        invariant local.Valid() && local.model == EnqueueFirst(x.local, batch, i)
        invariant fresh(local.repr - old(local.repr))
        invariant reserved == x.reserved && executing == x.executing && model == x
        invariant completed == old(completed) && failed == old(failed)
      {
        var _ := local.Enqueue(batch[i], true);
      }
      model := Received(x);
    }

    /** resource_limits_reserve_task. */
    method Reserve() returns (ok: bool)
      modifies this`reserved
      ensures ok == (old(reserved) < MAX_CONCURRENT) && reserved == old(reserved) + if ok then 1 else 0
    {
      ok := reserved < MAX_CONCURRENT;
      if ok {
        reserved := reserved + 1;
      }
    }

    /** resource_limits_release_task: gives the slot back, if one is out, and counts the task. */
    method Release(success: bool)
      modifies this`reserved, this`completed, this`failed
      ensures reserved == if old(reserved) > 0 then old(reserved) - 1 else 0
      ensures completed == old(completed) + if success then 1 else 0
      ensures failed == old(failed) + if success then 0 else 1
    {
      if reserved > 0 {
        reserved := reserved - 1;
      }
      if success {
        completed := completed + 1;
      } else {
        failed := failed + 1;
      }
    }

    /** Takes a slot for the task, or puts it back. */
    method Admit(t: Task) returns (begun: bool)
      requires local.Valid() && executing.None?
      modifies this`reserved, this`executing, local, local.repr
      ensures local.Valid() && fresh(local.repr - old(local.repr))
      ensures begun == (old(reserved) < MAX_CONCURRENT) && reserved == old(reserved) + (if begun then 1 else 0)
      ensures executing == if begun then Some(t) else None
      ensures local.model == if begun then old(local.model) else Enqueue(old(local.model), t, true)
    {
      begun := Reserve();
      if begun {
        executing := Some(t);
      } else {
        var _ := local.Enqueue(t, true);
      }
    }

    /** Takes the next task and a slot for it, or puts the task back. */
    method Begin() returns (begun: bool)
      requires Valid() && executing.None?
      modifies this`reserved, this`executing, this`model, local, local.repr
      ensures Valid() && fresh(local.repr - old(local.repr))
      ensures begun == (Size(old(model).local) > 0 && MayReserve(old(model)))
      ensures model == if Size(old(model).local) > 0 then Begun(old(model)) else old(model)
    {
      ghost var x := model;
      var next := local.Dequeue();
      if next.None? {
        return false;
      }
      begun := Admit(next.value);
      model := Begun(x);
    }

    /** The task ended; its result is sent, or lost when the send fails. */
    method Finish(status: int, sent: bool) returns (result: Message)
      requires Valid() && executing.Some?
      modifies this
      ensures Valid() && model == Finished(old(model), status, sent)
      ensures result == Done(old(executing).value.id, status)
      ensures completed == old(completed) + (if status == 0 then 1 else 0)
      ensures failed == old(failed) + (if status == 0 then 0 else 1)
    {
      ghost var x := model;
      result := Done(executing.value.id, status);
      executing := None;
      Release(status == 0);
      model := Finished(x, status, sent);
    }
  }
}
