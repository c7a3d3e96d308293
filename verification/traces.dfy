/** Arbitrary interleavings of `Go` calls and worker steps.

    The scheduler may run any live worker at any time; a trace is a sequence
    of such atomic actions, and the lemmas here hold for every trace. */
module Traces {
  import opened Int32
  import opened Tasks
  import opened Pool

  datatype Action = Submit(task: Task) | Work(worker: WorkerId)

  /** A `Go` call is always possible; only a running goroutine can step. */
  predicate Enabled(p: PoolState, a: Action)
  {
    a.Submit? || a.worker in p.live
  }

  function Apply(p: PoolState, a: Action): PoolState
    requires Enabled(p, a)
  {
    match a
    case Submit(t) => Go(p, t)
    case Work(w) => WorkerStep(p, w)
  }

  /** Every action of `acts` is enabled when its turn comes. */
  predicate Valid(p: PoolState, acts: seq<Action>)
    decreases |acts|
  {
    acts == [] || (Enabled(p, acts[0]) && Valid(Apply(p, acts[0]), acts[1..]))
  }

  function Run(p: PoolState, acts: seq<Action>): PoolState
    requires Valid(p, acts)
    decreases |acts|
  {
    if acts == [] then p else Run(Apply(p, acts[0]), acts[1..])
  }

  /** The tasks handed to `Go` along a trace, in order. */
  function Submissions(acts: seq<Action>): seq<Task>
  {
    if acts == [] then [] else Submitted(acts[0]) + Submissions(acts[1..])
  }

  function Submitted(a: Action): seq<Task>
  {
    if a.Submit? then [a.task] else []
  }

  /** One action preserves the invariant and the capacity. */
  lemma ApplyPreservesInv(p: PoolState, a: Action)
    requires Inv(p) && Enabled(p, a)
    ensures var q := Apply(p, a);
            Inv(q) && q.capacity == p.capacity
  {
  }

  /** Worker steps only, in the order the scheduler chose them. */
  function Works(ws: seq<WorkerId>): (acts: seq<Action>)
    ensures |acts| == |ws|
    ensures forall i :: 0 <= i < |ws| ==> acts[i] == Work(ws[i])
  {
    if ws == [] then [] else [Work(ws[0])] + Works(ws[1..])
  }

  /** Every trace preserves the invariant and keeps the capacity. */
  lemma {:induction false} RunPreservesInv(p: PoolState, acts: seq<Action>)
    requires Inv(p) && Valid(p, acts)
    ensures var q := Run(p, acts);
            Inv(q) && q.capacity == p.capacity
    decreases |acts|
  {
    if acts != [] {
      var p' := Apply(p, acts[0]);
      assert Valid(p', acts[1..]);
      ApplyPreservesInv(p, acts[0]);
      RunPreservesInv(p', acts[1..]);
      var q := Run(p', acts[1..]);
      assert Run(p, acts) == q;
    }
  }

  /** A trace adds to `submitted` exactly the tasks it hands to `Go`, in order. */
  lemma {:induction false} RunSubmits(p: PoolState, acts: seq<Action>)
    requires Valid(p, acts)
    ensures Run(p, acts).submitted == p.submitted + Submissions(acts)
    decreases |acts|
  {
    if acts != [] {
      var p' := Apply(p, acts[0]);
      assert p'.submitted == p.submitted + Submitted(acts[0]);
      RunSubmits(p', acts[1..]);
      assert Run(p, acts) == Run(p', acts[1..]);
      assert p.submitted + Submitted(acts[0]) + Submissions(acts[1..])
          == p.submitted + Submissions(acts);
    }
  }

  /** What holds in every state reachable from `NewPool(c)`: the counter
      equals the number of running workers, never exceeds a non-negative
      capacity, the tasks dequeued so far are a prefix of the tasks submitted
      (workers take tasks in submission order), and the handler has been called
      once per panic among them, in dequeue order. */
  lemma Reachable(c: int32, acts: seq<Action>)
    requires Valid(NewPool(c), acts)
    ensures var q := Run(NewPool(c), acts);
            && q.worker as int == |q.live|
            && (c >= 0 ==> 0 <= q.worker <= c)
            && (c <= 0 ==> q.live == {} && q.queue == Submissions(acts))
            && q.dequeued <= Submissions(acts)
            && q.dequeued + q.queue == Submissions(acts)
            && q.faults == FaultsOf(q.dequeued)
  {
    RunPreservesInv(NewPool(c), acts);
    RunSubmits(NewPool(c), acts);
    assert [] + Submissions(acts) == Submissions(acts);
  }

  /** Completion: with capacity >= 1, once every worker has exited (under any
      interleaving), every submitted task has been dequeued, and so run, exactly
      once, the tasks were dequeued in submission order, the queue is empty
      and the counter is back to 0. */
  lemma Completion(c: int32, acts: seq<Action>)
    requires c >= 1 && Valid(NewPool(c), acts)
    requires Run(NewPool(c), acts).live == {}
    ensures var q := Run(NewPool(c), acts);
            && Idle(q)
            && q.dequeued == Submissions(acts)
            && q.faults == FaultsOf(Submissions(acts))
  {
    RunPreservesInv(NewPool(c), acts);
    RunSubmits(NewPool(c), acts);
    assert [] + Submissions(acts) == Submissions(acts);
  }

  /** Every worker step consumes a queued task or a running worker, so no
      schedule of worker steps alone is longer than |queue| + worker: the pool
      reaches quiescence whatever the scheduler does. */
  lemma {:induction false} WorkStepsBounded(p: PoolState, ws: seq<WorkerId>)
    requires Inv(p) && Valid(p, Works(ws))
    ensures |ws| <= |p.queue| + p.worker as int
    decreases |ws|
  {
    if ws != [] {
      assert Works(ws)[1..] == Works(ws[1..]);
      WorkStepsBounded(WorkerStep(p, ws[0]), ws[1..]);
    }
  }

  /** `w` repeated n times. */
  function Repeat(w: WorkerId, n: nat): (ws: seq<WorkerId>)
    ensures |ws| == n
    ensures forall i :: 0 <= i < n ==> ws[i] == w
  {
    if n == 0 then [] else [w] + Repeat(w, n - 1)
  }

  /** A whole call of `running` is the trace of |queue| + 1 steps of that one
      worker: |queue| pops followed by the exit. */
  lemma {:induction false} RunWorkerIsTrace(p: PoolState, w: WorkerId)
    requires w in p.live
    ensures Valid(p, Works(Repeat(w, |p.queue| + 1)))
    ensures Run(p, Works(Repeat(w, |p.queue| + 1))) == RunWorker(p, w)
    decreases |p.queue|
  {
    var acts := Works(Repeat(w, |p.queue| + 1));
    var q := WorkerStep(p, w);
    if p.queue == [] {
      assert acts == [Work(w)];
      assert Valid(q, []);
    } else {
      RunWorkerIsTrace(q, w);
      assert acts[1..] == Works(Repeat(w, |q.queue| + 1));
    }
  }
}
