/** The `pool` struct over the linked queue, with `Go` and `running` written
    as in the source. Each method is shown to do exactly what the matching
    function of the `Pool` state machine does to the abstract state. */
module PoolImpl {
  import opened Int32
  import opened Tasks
  import opened LinkedQueue
  import Pool

  class ElasticPool {
    const queue: Queue
    const capacity: int32
    var worker: int32
    // the tasks taken from the list and run, in dequeue order, and the calls
    // made to the panic handler, in the same order
    var dequeued: seq<Task>
    var faults: seq<Fault>

    // the goroutines running `Running`, and the tasks handed to `Go`
    ghost var live: set<Pool.WorkerId>
    ghost var nextWorker: Pool.WorkerId
    ghost var submitted: seq<Task>
    ghost var Repr: set<object>

    ghost predicate Valid()
      reads this, Repr
    {
      && this in Repr
      && queue in Repr
      && queue.Repr <= Repr
      && this !in queue.Repr
      && queue.Valid()
    }

    /** The abstract state this object stands for. */
    ghost function Model(): Pool.PoolState
      reads this, queue
    {
      Pool.PoolState(queue.contents, capacity, worker, live, nextWorker, submitted, dequeued, faults)
    }

    /** `NewPool(capacity)`. */
    constructor (c: int32)
      ensures Valid() && fresh(Repr)
      ensures Model() == Pool.NewPool(c)
    {
      queue := new Queue();
      capacity := c;
      worker := 0;
      faults := [];
      live := {};
      nextWorker := 0;
      submitted := [];
      dequeued := [];
      new;
      Repr := {this} + queue.Repr;
    }

    /** `p.Go(ctx, f)`: tail push, then start a worker iff the counter is
        below capacity. The new goroutine is only recorded as live here; it
        runs when the scheduler calls `Running` or `Step` for it. */
    method Go(t: Task)
      requires Valid()
      modifies Repr
      ensures Valid() && fresh(Repr - old(Repr))
      ensures Model() == Pool.Go(old(Model()), t)
    {
      queue.Push(t);
      Repr := Repr + queue.Repr;
      submitted := submitted + [t];
      if worker < capacity {
        worker := Add(worker, 1);
        live := live + {nextWorker};
        nextWorker := nextWorker + 1;
      }
    }

    /** The recover boundary around one task body: a panic is handed to the
        handler with the task's context, and the caller's loop goes on. */
    method Execute(t: Task)
      modifies this
      ensures faults == old(faults) + Recover(t)
      ensures dequeued == old(dequeued) + [t]
      ensures worker == old(worker) && live == old(live)
      ensures nextWorker == old(nextWorker) && submitted == old(submitted) && Repr == old(Repr)
    {
      dequeued := dequeued + [t];
      match t.body
      case Ok =>
      case Panic(cover) =>
        faults := faults + [Fault(t.ctx, cover)];
    }

    /** One atomic step of worker `w`: pop and run the head task, or exit on
        an empty queue. */
    method Step(w: Pool.WorkerId)
      requires Valid() && w in live
      modifies Repr
      ensures Valid() && Repr == old(Repr)
      ensures Model() == Pool.WorkerStep(old(Model()), w)
    {
      var now := queue.Pop();
      match now
      case None =>
        worker := Add(worker, -1);
        live := live - {w};
      case Some(t) =>
        Execute(t);
    }

    /** The loop of `running`: pop and run tasks until the queue is empty.
        The second emptiness check inside the loop mirrors the source's
        re-check under the lock. */
    method RunLoop()
      requires Valid()
      modifies Repr
      ensures Valid() && Repr == old(Repr)
      ensures Model() == Pool.RunAll(old(Model()))
    {
      while queue.head != null
        invariant Valid() && Repr == old(Repr)
        invariant Pool.RunAll(Model()) == Pool.RunAll(old(Model()))
        decreases |queue.contents|
      {
        ghost var before := Model();
        var now := queue.Pop();
        if now.None? {
          break;
        }
        Execute(now.value);
        assert Model() == Pool.RunHead(before);
      }
    }

    /** `running`: the loop, then the decrement of the counter. */
    method Running(w: Pool.WorkerId)
      requires Valid() && w in live
      modifies Repr
      ensures Valid() && Repr == old(Repr)
      ensures Model() == Pool.RunWorker(old(Model()), w)
    {
      RunLoop();
      worker := Add(worker, -1);
      live := live - {w};
    }
  }
}
