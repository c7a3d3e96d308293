/** Tasks, their outcomes and the events the panic handler receives. */
module Tasks {

  /** An opaque token standing for the caller's `context.Context`; the pool
      never inspects it, it only hands it to the panic handler. */
  type Context = nat

  /** The value a panicking task passed to `panic`, as `recover` returns it. */
  type PanicValue = string

  /** What running a task body (`f()`) does, as far as the pool can observe:
      it returns normally, or it panics with a value. */
  datatype Outcome = Ok | Panic(value: PanicValue)

  /** One submitted unit of work: the `task` struct without its `next` link. */
  datatype Task = Task(ctx: Context, body: Outcome)

  /** One call `panicHandler(ctx, cover)` made by a worker. */
  datatype Fault = Fault(ctx: Context, value: PanicValue)

  /** The recover boundary around one task: the handler events that running
      `t` produces. A panic is turned into exactly one event carrying the
      task's own context and the panic value; a normal return produces none. */
  function Recover(t: Task): (r: seq<Fault>)
    ensures |r| <= 1
    ensures r != [] <==> t.body.Panic?
    ensures r != [] ==> r[0] == Fault(t.ctx, t.body.value)
  {
    match t.body
    case Ok => []
    case Panic(v) => [Fault(t.ctx, v)]
  }

  /** The handler events produced by running `ts` in order. */
  function FaultsOf(ts: seq<Task>): seq<Fault>
  {
    if ts == [] then [] else Recover(ts[0]) + FaultsOf(ts[1..])
  }

  /** Events of consecutive runs concatenate: no event is lost, duplicated or
      reordered when a run is split. */
  lemma {:induction false} FaultsOfAppend(a: seq<Task>, b: seq<Task>)
    ensures FaultsOf(a + b) == FaultsOf(a) + FaultsOf(b)
    decreases |a|
  {
    if a == [] {
      assert a + b == b;
    } else {
      assert (a + b)[1..] == a[1..] + b;
      FaultsOfAppend(a[1..], b);
    }
  }

  /** Exactly one event per panicking task: the number of events is the
      number of panicking tasks. */
  function PanicCount(ts: seq<Task>): nat
  {
    if ts == [] then 0
    else (if ts[0].body.Panic? then 1 else 0) + PanicCount(ts[1..])
  }

  lemma {:induction false} FaultsOfCountsPanics(ts: seq<Task>)
    ensures |FaultsOf(ts)| == PanicCount(ts)
  {
    if ts != [] {
      FaultsOfCountsPanics(ts[1..]);
    }
  }
}
