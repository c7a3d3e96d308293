# Elastic goroutine pool, modelled in Dafny

This project models the elastic worker pool of the `goroutines` Go package
(`pool.go`). Callers hand tasks to `Go`. A task is a context plus a function.
`Go` appends the task to a singly linked list and starts a new worker
goroutine when the running-worker counter is below the pool's capacity. Each
worker pops and runs tasks until the list is empty, then decrements the
counter and exits. A panic in a task is recovered and reported to the panic
handler, and the worker goes on with the next task.

The pool is concurrent. The model makes it a sequential state machine in
which `Go` and each worker step are atomic actions:

- `int32.dfy` (`Int32`): Go's `int32` and the wrap-around of `atomic.AddInt32`.
- `tasks.dfy` (`Tasks`): tasks, their outcome (`Ok` or `Panic(v)`), the
  recover boundary, and the handler events (`Fault(ctx, v)`).
- `pool.dfy` (`Pool`): the abstract pool state. It holds the queue as a
  sequence, `capacity`, the `worker` counter and the set of live worker
  goroutines. It also records the history an observer sees: tasks submitted,
  tasks dequeued by workers, and handler calls. This file defines `NewPool`, `Go`, a worker
  step, a whole `running` call, and the invariant every reachable state keeps.
- `traces.dfy` (`Traces`): arbitrary interleavings of `Go` calls and worker
  steps. Every lemma there holds for every schedule.
- `linked_queue.dfy` (`LinkedQueue`): the heap-allocated task list with `head`
  and `tail`. It has a ghost `contents` sequence and a `Repr` frame. An empty
  list may keep a stale `tail`, because a pop clears only `head`.
- `pool_impl.dfy` (`PoolImpl`): the `pool` struct over that list, with `Go`,
  one worker step and `running` written as in the source. Each method is
  proved to change the abstract state exactly as the matching `Pool`
  function does.
- `scenarios.dfy` (`Scenarios`): the repository's tests stated for all inputs.

Behaviour of `pool.go` worth noting:

- `Go` increments the counter before it starts the goroutine.
- A capacity of 0 or less never starts a worker, so with such a capacity
  tasks accumulate and never run.
- An empty list leaves `tail` pointing at the node popped last; only `head`
  is cleared.
- The capacity is fixed by `NewPool`; the package exports nothing to change
  it, to read the counter, or to recycle task objects.
- The panic handler is one package-level variable shared by all pools.

The pool records the tasks its workers have taken from the queue
(`dequeued`). A worker runs each task it takes exactly once, inside the
recover boundary. Because the model takes a task and runs it in one step,
`dequeued` and the handler calls are in dequeue order. With one worker that
is also the order in which the tasks run.

## Model

| member | source | states |
|---|---|---|
| Int32.Add | pool.go:65 | `atomic.AddInt32` agrees with the mathematical sum modulo 2^32 and equals it whenever the sum fits in an int32 |
| Tasks.Recover | pool.go:85-93 | the recover boundary yields an event iff the task panicked, at most one, carrying the task's own context and the panic value |
| Tasks.FaultsOfAppend | pool.go:71-94 | the handler events of consecutive runs concatenate: none is lost, duplicated or reordered |
| Tasks.FaultsOfCountsPanics | pool.go:86-89 | the handler is called exactly once per panicking task |
| Pool.NewPool | pool.go:34-36 | a new pool has an empty queue, counter 0, no workers and the given capacity, and satisfies the invariant |
| Pool.Go | pool.go:49-68 | `Go` appends exactly the task at the tail; it starts one fresh worker and raises the counter by exactly 1 iff counter < capacity, and otherwise changes neither; capacity <= 0 never starts one; the invariant is preserved |
| Pool.WorkerStep | pool.go:71-96 | a worker step pops exactly the head, leaves the rest in order, runs it, and keeps the worker live; a panic yields one handler call with that task's context and value; on an empty queue the worker exits and the counter drops by exactly 1; the invariant is preserved |
| Pool.RunAll | pool.go:71-94 | the loop of `running`, with no other action in between, dequeues and runs every queued task once, in queue order, empties the queue and records one handler call per panic |
| Pool.RunWorker | pool.go:70-97 | a whole `running` call runs all queued tasks once in FIFO order, then removes its worker and lowers the counter by 1, preserving the invariant |
| Pool.QuiesceFrom | pool.go:70-97 | running the live workers one by one until each exits leaves no worker and counter 0; with capacity >= 1 every queued task has run once in order and the queue is empty; with capacity <= 0 nothing changes |
| Pool.Quiesce | pool.go:70-97 | once all live workers have exited, the pool is idle and has run everything that was queued, when capacity >= 1 |
| Pool.GoAll | pool.go:49-60 | a burst of `Go` calls appends its tasks at the tail in order and preserves the invariant |
| Pool.BurstSpawns | pool.go:62-67 | n submissions with no worker step in between start min(n, capacity - counter) workers, and none once the counter has reached capacity |
| Pool.IdleResumes | pool.go:62-67 | on an idle pool with capacity >= 1, the next `Go` starts exactly one worker, and that worker runs the new task |
| Pool.PanicDoesNotStopWorker | pool.go:85-93 | after its task panicked, the same worker stays live and runs the next queued task; no task is lost or re-queued; the handler log gains exactly one call for the panic, followed by the second task's own events (one if it panics, none otherwise) |
| Traces.RunPreservesInv | pool.go:27-30 | under every interleaving: counter = number of live workers; counter <= capacity or 0; queued work has a worker; submitted = dequeued ++ queued; one handler call per panicking task dequeued |
| Traces.RunSubmits | pool.go:49-60 | the tasks recorded as submitted are exactly those handed to `Go`, in order |
| Traces.Reachable | pool.go:20-31 | from `NewPool(c)` under every schedule: the counter equals the number of running workers and stays within [0, c] for c >= 0; the tasks dequeued are a prefix of the tasks submitted (FIFO dequeue); with c <= 0 nothing is dequeued |
| Traces.Completion | pool_test.go:30-47 | with capacity >= 1, once every worker has exited under any schedule, every submitted task has been dequeued, and so run, exactly once, the dequeue order is the submission order, the queue is empty and the counter is 0 |
| Traces.WorkStepsBounded | pool.go:70-97 | any schedule of worker steps alone is at most |queue| + counter long, so the workers always reach quiescence |
| Traces.RunWorkerIsTrace | pool.go:70-97 | a whole `running` call is the schedule of |queue| + 1 atomic steps of that one worker |
| LinkedQueue.Queue.Push | pool.go:52-60 | tail push appends exactly one task (`contents' = contents + [t]`), the new node is the tail with a nil `next`, and it is also the head when the list was empty |
| LinkedQueue.Queue.Pop | pool.go:75-83 | head pop returns exactly `contents[0]` and leaves `contents[1..]`, or reports empty; `tail` is untouched |
| PoolImpl.ElasticPool.Go | pool.go:49-68 | the pointer-level `Go` changes the abstract state exactly as `Pool.Go` does |
| PoolImpl.ElasticPool.Execute | pool.go:85-93 | running a task inside the recover boundary records it as run and calls the handler iff it panicked |
| PoolImpl.ElasticPool.Step | pool.go:75-96 | one pointer-level worker step changes the abstract state exactly as `Pool.WorkerStep` does |
| PoolImpl.ElasticPool.RunLoop | pool.go:71-94 | the pointer-level loop of `running` changes the abstract state exactly as `Pool.RunAll` does |
| PoolImpl.ElasticPool.Running | pool.go:70-97 | the pointer-level `running` changes the abstract state exactly as `Pool.RunWorker` does |
| Scenarios.SubmitAllThenDrain | pool_test.go:30-47 | on the pointer-level pool with capacity >= 1, submitting any tasks and then running every started worker to its exit dequeues, and so runs, each task exactly once, in submission order; the handler sees exactly their panics and the counter ends at 0 |
| Scenarios.ThreeTasksThreeWorkers | pool_test.go:171-174 | three `Go` calls on a capacity-3 pool start three workers, ids 0 to 2, with the three tasks queued in order, so three mutually waiting tasks can all be running at once |
| Scenarios.PanickingTaskIsReported | pool_test.go:67-70 | a task panicking with "test" in a capacity-128 pool is reported once with its context, and the pool ends idle |
| Scenarios.PanicThenNormalTask | pool.go:85-93 | with capacity 1, a panicking task followed by a normal one: both run, in order, and the handler is called once |
| Scenarios.PushPopPush | pool.go:52-83 | a list emptied by a pop keeps a stale tail; the next push is still popped correctly and in FIFO order, and the list then reports empty |

## Left out

- Goroutines, `sync.Mutex`, `sync/atomic` and preemptive interleaving. `Go`
  and each worker step are atomic actions, and the scheduler may pick any
  live worker between them.
- The race between the counter check and the increment in `Go`
  (pool.go:64-65). Under concurrent `Go` calls it can push the counter above
  capacity. The model's `worker <= capacity` bound holds only because `Go` is
  atomic.
- The window between a worker's empty check and its decrement (pool.go:76-79
  against pool.go:96). In that window a concurrent `Go` can skip spawning and
  leave a task with no worker.
- The unlocked read of `head` in the loop condition (pool.go:71). Because
  steps are atomic, the model reads it like the locked re-check.
- The body of the default panic handler (pool.go:39-42). `log.Printf` and
  `debug.Stack()` are I/O. Every handler call is recorded as a `Fault(ctx, v)`
  event instead.
- `InitPanicHandler` (pool.go:45-47). Which handler function is installed does
  not change the pool's behaviour, only what the handler does with an event.
- A panic inside the panic handler itself, and `runtime.Goexit` inside a task.
  A task body is modelled only by its outcome.
- Task bodies that call `Go` themselves, and task bodies that never return.
  A task is a value whose only effects are being run and possibly panicking.
- `context.Context`. It is an opaque number handed unchanged to the handler.
- The tests in pool_test.go that do not use the pool: TestGo (lines 49-65),
  BenchmarkGo (lines 90-104), and TestCompareInc and TestCompareInc2
  (lines 179-220). They exercise `go` statements and atomics only.
- BenchmarkPool (pool_test.go:72-88) measures time and allocations. Its use
  of the pool, many `Go` calls with a capacity of GOMAXPROCS, is the burst
  covered by Pool.BurstSpawns and Traces.Completion.
- The channel hand-offs inside TestGoroutines' tasks (pool_test.go:118-167)
  are task bodies. Only the pool's side of that test, three workers for
  three tasks, is modelled.
- Pool.WorkerStep: taking a task and running its body are one atomic step,
  so `dequeued` and the handler calls are in dequeue order. In pool.go the
  pop happens under the lock (lines 75-83) and the body and the handler run
  after `Unlock` (lines 85-93). With two or more workers, bodies and handler
  calls may finish in any order, and the model states no order for that.
- The type of a panic value. pool.go:87 recovers an `any`; the model uses a
  string, which the pool only passes to the handler. The model also omits
  the `cover != nil` test at pool.go:88. Since Go 1.21, `recover` after
  `panic(nil)` returns a non-nil `*runtime.PanicNilError`, so every panic
  reaches the handler. pool_test.go:183 uses `for range 2000`, which needs
  Go 1.22.
- Pool.Quiesce: it runs the live workers one after another, in id order. The
  claim for every other schedule is made by Traces.Completion and
  Traces.WorkStepsBounded.
