/** The behaviour the repository's tests check, stated for all inputs. */
module Scenarios {
  import opened Int32
  import opened Tasks
  import opened Pool
  import opened LinkedQueue
  import opened PoolImpl

  lemma RangeWithoutLowest(ids: set<WorkerId>, k: nat, n: nat)
    requires forall j: WorkerId :: j in ids <==> k <= j < n
    ensures forall j: WorkerId :: j in ids - {k} <==> k + 1 <= j < n
  {
  }

  /** A fresh pool of capacity `c` after `Go` has been called for each of
      `ts`, with no worker step in between. */
  method NewPoolAfterBurst(c: int32, ts: seq<Task>) returns (p: ElasticPool)
    ensures p.Valid() && fresh(p.Repr)
    ensures p.Model() == GoAll(NewPool(c), ts)
  {
    p := new ElasticPool(c);
    var i := 0;
    while i < |ts|
      invariant 0 <= i <= |ts|
      invariant p.Valid() && fresh(p.Repr)
      invariant GoAll(p.Model(), ts[i..]) == GoAll(NewPool(c), ts)
    {
      assert ts[i..][1..] == ts[i + 1..];
      p.Go(ts[i]);
      i := i + 1;
    }
  }

  /** `TestPool` with any capacity >= 1 and any tasks: submit them all, then
      let every started worker run until it exits. Every task has been taken
      from the queue, and so run, exactly once, in submission order; the
      handler has seen exactly the panics; and the counter is back to 0. */
  method SubmitAllThenDrain(c: int32, ts: seq<Task>) returns (ran: seq<Task>, handled: seq<Fault>, workers: int32)
    requires c >= 1
    ensures ran == ts
    ensures handled == FaultsOf(ts)
    ensures workers == 0
  {
    var p := NewPoolAfterBurst(c, ts);
    ghost var burst := p.Model();
    BurstKeepsIdsDense(NewPool(c), ts);
    assert Inv(burst) && DenseIds(burst);
    assert burst.dequeued == [] && burst.queue == ts && burst.faults == [];

    // The started workers are exactly 0 .. started-1; run each to its exit.
    var started := p.worker as int;
    var k := 0;
    while k < started
      invariant 0 <= k <= started
      invariant p.Valid() && fresh(p.Repr)
      invariant Inv(p.Model())
      invariant p.capacity == c && p.nextWorker == started && p.worker as int == started - k
      invariant forall j: WorkerId :: j in p.live <==> k <= j < started
      invariant k == 0 ==> p.queue.contents == ts && p.dequeued == [] && p.faults == []
      invariant k > 0 ==> p.queue.contents == [] && p.dequeued == ts && p.faults == FaultsOf(ts)
    {
      ghost var before := p.live;
      p.Running(k);
      assert p.live == before - {k};
      RangeWithoutLowest(before, k, started);
      k := k + 1;
    }
    ran, handled, workers := p.dequeued, p.faults, p.worker;
  }

  /** `TestPoolPanic`: a pool of capacity 128 given one task that panics with
      "test" reports exactly that panic, with the task's context, and ends
      idle. */
  lemma PanickingTaskIsReported()
    ensures var t := Task(0, Panic("test"));
            var q := Quiesce(GoAll(NewPool(128), [t]));
            Idle(q) && q.dequeued == [t] && q.faults == [Fault(0, "test")]
  {
  }

  /** `TestGoroutines`: three tasks that can only finish together, because
      each waits on a channel the next one fills, handed to a pool of
      capacity 3 with no worker step in between. The burst starts three
      workers, one per task, so all three can block at once. */
  lemma ThreeTasksThreeWorkers(fish: Task, dog: Task, cat: Task)
    ensures var q := GoAll(NewPool(3), [fish, dog, cat]);
            q.worker == 3 && q.live == {0, 1, 2} && q.queue == [fish, dog, cat]
  {
    var ts := [fish, dog, cat];
    var p1 := Go(NewPool(3), fish);
    var p2 := Go(p1, dog);
    var p3 := Go(p2, cat);
    assert ts[1..] == [dog, cat] && ts[1..][1..] == [cat] && ts[1..][1..][1..] == [];
    assert GoAll(p3, []) == p3;
    assert GoAll(p2, [cat]) == p3;
    assert GoAll(p1, [dog, cat]) == p3;
  }

  /** A panicking task does not keep the next task from running: with
      capacity 1, a panicking task followed by a normal one both run, in that
      order, and the handler is called exactly once. */
  lemma PanicThenNormalTask(ctx: Context, v: PanicValue)
    ensures var ts := [Task(ctx, Panic(v)), Task(ctx, Ok)];
            var q := Quiesce(GoAll(NewPool(1), ts));
            Idle(q) && q.dequeued == ts && q.faults == [Fault(ctx, v)]
  {
    var ts := [Task(ctx, Panic(v)), Task(ctx, Ok)];
    assert FaultsOf(ts) == [Fault(ctx, v)] + FaultsOf(ts[1..]);
    assert FaultsOf(ts[1..]) == [];
  }

  /** A queue drained by a pop keeps its old `tail`; the next push still
      makes the new node both head and tail, and FIFO order is kept. */
  method PushPopPush(t1: Task, t2: Task) returns (first: Option<Task>, second: Option<Task>, rest: Option<Task>)
    ensures first == Some(t1) && second == Some(t2) && rest == None
  {
    var q := new Queue();
    q.Push(t1);
    first := q.Pop();
    assert q.head == null && q.tail != null && q.contents == [];
    q.Push(t2);
    assert q.head == q.tail;
    second := q.Pop();
    rest := q.Pop();
  }
}
