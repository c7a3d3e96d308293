/** The elastic worker pool as a sequential state machine.

    `Go` and each step of a worker's run-loop are atomic actions. The linked
    list of the source is abstracted to the sequence of tasks from head to
    tail; `PoolImpl` shows that the pointer implementation refines it. */
module Pool {
  import opened Int32
  import opened Tasks

  /** Identifies one goroutine started by `go p.running()`. */
  type WorkerId = nat

  datatype PoolState = PoolState(
    // the fields of the `pool` struct
    queue: seq<Task>,          // the tasks from head to tail
    capacity: int32,           // never changed after NewPool
    worker: int32,             // the counter of running workers
    // the goroutines running `running`, and the id the next one gets
    live: set<WorkerId>,
    nextWorker: WorkerId,
    // what an observer of the pool sees: the tasks handed to `Go`, the tasks
    // taken from the queue by a worker (each run exactly once, by that
    // worker), and the calls made to the panic handler. A worker step pops a
    // task and runs it as one action, so both sequences are in dequeue order;
    // with several workers the bodies themselves may finish in another order.
    submitted: seq<Task>,
    dequeued: seq<Task>,
    faults: seq<Fault>)

  /** The invariant of every reachable state. */
  predicate Inv(p: PoolState)
  {
    // the counter is the number of live workers
    && p.worker as int == |p.live|
    && (forall w :: w in p.live ==> w < p.nextWorker)
    // capacity bounds the counter (a capacity <= 0 never lets a worker start)
    && (p.worker == 0 || p.worker <= p.capacity)
    // queued work is never left unattended while capacity allows a worker,
    // and with capacity <= 0 no task ever runs: they accumulate
    && (p.queue != [] && p.capacity >= 1 ==> p.worker >= 1)
    && (p.capacity <= 0 ==> p.dequeued == [])
    // FIFO and exactly-once: each submitted task has been dequeued or is still queued
    && p.submitted == p.dequeued + p.queue
    // fault isolation: one handler call per panicking task dequeued
    && p.faults == FaultsOf(p.dequeued)
  }

  /** An idle pool: no worker running and nothing queued. */
  predicate Idle(p: PoolState)
  {
    p.queue == [] && p.worker == 0 && p.live == {}
  }

  /** `NewPool(capacity)`: a pool with an empty queue and no workers. */
  function NewPool(capacity: int32): (p: PoolState)
    ensures Inv(p) && Idle(p)
    ensures p.capacity == capacity
    ensures p.submitted == [] && p.dequeued == [] && p.faults == []
  {
    PoolState([], capacity, 0, {}, 0, [], [], [])
  }

  /** `p.Go(ctx, f)`: push the task at the tail, then start one worker and
      count it iff the counter is below capacity. */
  function Go(p: PoolState, t: Task): (r: PoolState)
    // exactly one task is appended at the tail
    ensures r.queue == p.queue + [t] && r.submitted == p.submitted + [t]
    ensures r.dequeued == p.dequeued && r.faults == p.faults
    ensures r.capacity == p.capacity
    // spawn rule
    ensures p.worker < p.capacity ==>
              r.worker as int == p.worker as int + 1 && r.live == p.live + {p.nextWorker}
    ensures !(p.worker < p.capacity) ==> r.worker == p.worker && r.live == p.live
    ensures Inv(p) ==> Inv(r)
    ensures Inv(p) && p.worker < p.capacity ==> p.nextWorker !in p.live && |r.live| == |p.live| + 1
    ensures Inv(p) && p.capacity <= 0 ==> r.live == {} && r.worker == 0
  {
    var pushed := p.(queue := p.queue + [t], submitted := p.submitted + [t]);
    if pushed.worker < pushed.capacity then
      pushed.(worker := Add(pushed.worker, 1),
               live := pushed.live + {pushed.nextWorker},
               nextWorker := pushed.nextWorker + 1)
    else
      pushed
  }

  /** Pop the head task and run it inside the recover boundary. */
  function RunHead(p: PoolState): (r: PoolState)
    requires p.queue != []
    ensures r.queue == p.queue[1..]
    ensures r.dequeued == p.dequeued + [p.queue[0]]
    ensures r.faults == p.faults + Recover(p.queue[0])
    ensures r.submitted == p.submitted && r.capacity == p.capacity
    ensures r.worker == p.worker && r.live == p.live && r.nextWorker == p.nextWorker
    ensures Inv(p) && p.live != {} ==> Inv(r)
  {
    var now := p.queue[0];
    var r := p.(queue := p.queue[1..], dequeued := p.dequeued + [now], faults := p.faults + Recover(now));
    assert p.dequeued + p.queue == r.dequeued + r.queue by {
      assert p.queue == [now] + p.queue[1..];
    }
    FaultsOfAppend(p.dequeued, [now]);
    r
  }

  /** A worker that found the queue empty leaves its loop and decrements the counter. */
  function Exit(p: PoolState, w: WorkerId): PoolState
  {
    p.(worker := Add(p.worker, -1), live := p.live - {w})
  }

  /** One iteration of `running` for live worker `w`: pop and run the head
      task, or, on an empty queue, exit. */
  function WorkerStep(p: PoolState, w: WorkerId): (r: PoolState)
    requires w in p.live
    // the history and the configuration never change
    ensures r.submitted == p.submitted && r.capacity == p.capacity && r.nextWorker == p.nextWorker
    // a pop takes exactly the head and leaves the rest in order; the worker stays
    ensures p.queue != [] ==>
              && r.queue == p.queue[1..]
              && r.dequeued == p.dequeued + [p.queue[0]]
              && r.live == p.live && r.worker == p.worker
    // a panic yields one handler call with the task's own context and value
    ensures p.queue != [] && p.queue[0].body.Panic? ==>
              r.faults == p.faults + [Fault(p.queue[0].ctx, p.queue[0].body.value)]
    ensures p.queue != [] && p.queue[0].body.Ok? ==> r.faults == p.faults
    // on an empty queue the worker exits and the counter drops by exactly one
    ensures p.queue == [] ==>
              && r.queue == [] && r.dequeued == p.dequeued && r.faults == p.faults
              && r.live == p.live - {w}
    ensures Inv(p) && p.queue == [] ==> r.worker as int == p.worker as int - 1
    ensures Inv(p) ==> Inv(r)
  {
    if p.queue == [] then Exit(p, w) else RunHead(p)
  }

  /** The loop of `running` while the queue is non-empty and no other action
      intervenes: pop and run tasks until the queue is empty. */
  function RunAll(p: PoolState): (r: PoolState)
    ensures r.queue == []
    ensures r.dequeued == p.dequeued + p.queue
    ensures r.faults == p.faults + FaultsOf(p.queue)
    ensures r.submitted == p.submitted && r.capacity == p.capacity
    ensures r.worker == p.worker && r.live == p.live && r.nextWorker == p.nextWorker
    decreases |p.queue|
  {
    if p.queue == [] then p
    else
      var q := RunHead(p);
      var r := RunAll(q);
      assert r.dequeued == p.dequeued + p.queue by {
        assert p.queue == [p.queue[0]] + q.queue;
      }
      assert r.faults == p.faults + FaultsOf(p.queue) by {
        assert FaultsOf(p.queue) == Recover(p.queue[0]) + FaultsOf(q.queue);
      }
      r
  }

  /** A whole call of `running` by worker `w` while no other action intervenes:
      the worker drains the queue, running every queued task once in order,
      then exits. */
  function RunWorker(p: PoolState, w: WorkerId): (r: PoolState)
    requires w in p.live
    ensures r.queue == [] && r.live == p.live - {w}
    ensures r.dequeued == p.dequeued + p.queue
    ensures r.faults == p.faults + FaultsOf(p.queue)
    ensures r.submitted == p.submitted && r.capacity == p.capacity && r.nextWorker == p.nextWorker
    ensures Inv(p) ==> Inv(r) && r.worker as int == p.worker as int - 1
  {
    var q := RunAll(p);
    assert Inv(p) ==> Inv(q) by {
      FaultsOfAppend(p.dequeued, p.queue);
    }
    WorkerStep(q, w)
  }

  /** Run every live worker to completion, one after another in id order,
      starting from id `k`. */
  function QuiesceFrom(p: PoolState, k: WorkerId): (r: PoolState)
    requires Inv(p)
    requires forall w :: w in p.live ==> k <= w
    ensures Inv(r) && r.live == {} && r.worker == 0
    ensures r.capacity == p.capacity && r.submitted == p.submitted && r.nextWorker == p.nextWorker
    ensures p.capacity >= 1 ==>
              && r.queue == []
              && r.dequeued == p.dequeued + p.queue
              && r.faults == p.faults + FaultsOf(p.queue)
    ensures p.capacity <= 0 ==> r == p
    decreases p.nextWorker - k
  {
    if p.nextWorker <= k then
      p
    else if k in p.live then
      var q := RunWorker(p, k);
      var r := QuiesceFrom(q, k + 1);
      assert p.queue + [] == p.queue;
      assert FaultsOf([]) == [];
      r
    else
      QuiesceFrom(p, k + 1)
  }

  /** Let every live worker run until it exits. */
  function Quiesce(p: PoolState): (r: PoolState)
    requires Inv(p)
    ensures Inv(r) && r.live == {} && r.worker == 0
    ensures r.capacity == p.capacity && r.submitted == p.submitted
    ensures p.capacity >= 1 ==>
              && Idle(r)
              && r.dequeued == p.dequeued + p.queue
              && r.faults == p.faults + FaultsOf(p.queue)
    ensures p.capacity <= 0 ==> r == p
  {
    QuiesceFrom(p, 0)
  }

  /** A burst of `Go` calls with no worker step in between. */
  function GoAll(p: PoolState, ts: seq<Task>): (r: PoolState)
    ensures r.queue == p.queue + ts && r.submitted == p.submitted + ts
    ensures r.dequeued == p.dequeued && r.faults == p.faults && r.capacity == p.capacity
    ensures Inv(p) ==> Inv(r)
    decreases |ts|
  {
    if ts == [] then p
    else
      assert p.queue + [ts[0]] + ts[1..] == p.queue + ts;
      assert p.submitted + [ts[0]] + ts[1..] == p.submitted + ts;
      GoAll(Go(p, ts[0]), ts[1..])
  }

  /** Worker ids are handed out densely: when the live workers are exactly
      the ids below `nextWorker`, a burst of `Go` calls keeps it so. */
  ghost predicate DenseIds(p: PoolState)
  {
    && p.nextWorker == p.worker as int
    && forall j: WorkerId :: j in p.live <==> j < p.nextWorker
  }

  lemma {:induction false} BurstKeepsIdsDense(p: PoolState, ts: seq<Task>)
    requires Inv(p) && DenseIds(p)
    ensures DenseIds(GoAll(p, ts))
    decreases |ts|
  {
    if ts != [] {
      BurstKeepsIdsDense(Go(p, ts[0]), ts[1..]);
    }
  }

  function Min(a: int, b: int): int
  {
    if a <= b then a else b
  }

  /** A burst of n submissions starts workers until the counter reaches
      capacity: min(n, capacity - worker) of them, and none when the counter
      is already at or above capacity. */
  lemma {:induction false} BurstSpawns(p: PoolState, ts: seq<Task>)
    requires Inv(p)
    ensures p.worker < p.capacity ==>
              GoAll(p, ts).worker as int == Min(p.capacity as int, p.worker as int + |ts|)
    ensures !(p.worker < p.capacity) ==> GoAll(p, ts).worker == p.worker
    decreases |ts|
  {
    if ts != [] {
      BurstSpawns(Go(p, ts[0]), ts[1..]);
    }
  }

  /** Idle pools cost no goroutine, and the next `Go` on a pool with
      capacity >= 1 starts exactly one worker, which then runs the task. */
  lemma IdleResumes(p: PoolState, t: Task)
    requires Inv(p) && p.live == {} && p.capacity >= 1
    ensures var q := Go(p, t);
            q.worker == 1 && q.live == {p.nextWorker}
            && RunWorker(q, p.nextWorker).dequeued == p.dequeued + p.queue + [t]
  {
  }

  /** Fault isolation: after its task panicked, the same worker goes on with
      the next queued task; that task and the ones behind it are neither lost
      nor re-queued. */
  lemma {:induction false} PanicDoesNotStopWorker(p: PoolState, w: WorkerId)
    requires Inv(p) && w in p.live
    requires |p.queue| >= 2 && p.queue[0].body.Panic?
    ensures var q := WorkerStep(WorkerStep(p, w), w);
            && w in q.live
            && q.dequeued == p.dequeued + p.queue[..2]
            && q.queue == p.queue[2..]
            && q.faults == p.faults + [Fault(p.queue[0].ctx, p.queue[0].body.value)] + Recover(p.queue[1])
  {
  }
}
