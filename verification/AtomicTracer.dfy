/** The tracer with handlers that run all at once: the reference that the interleaved handlers
    are compared with. */
module AtomicTracer {
  import opened Basics
  import opened SyscallRecords
  import opened Capture
  import opened Protocol

  /** One whole handler run. */
  datatype Op =
    | Enter(tid: Tid, input: EnterInput)
    | Exit(tid: Tid, ret: I64, granted: bool)

  datatype Snapshot = Snapshot(inflight: map<Tid, EnterState>, ring: seq<Event>)

  const EMPTY := Snapshot(map[], [])

  function Apply(cfg: Config, a: Snapshot, op: Op): Snapshot {
    if !Traced(cfg, op.tid) then a
    else match op
      case Enter(t, input) =>
        a.(inflight := UpdateAny(a.inflight, cfg.capacity, t, Captured(input)))
      case Exit(t, ret, granted) =>
        if t !in a.inflight then a
        else Snapshot(a.inflight - {t}, a.ring + if granted then [Complete(a.inflight[t], t, ret)] else [])
  }

  function ApplyAll(cfg: Config, a: Snapshot, ops: seq<Op>): Snapshot
    decreases |ops|
  {
    if ops == [] then a
    else Apply(cfg, ApplyAll(cfg, a, ops[..|ops| - 1]), ops[|ops| - 1])
  }

  lemma ApplyNone(cfg: Config, a: Snapshot)
    ensures ApplyAll(cfg, a, []) == a
  {
  }

  lemma ApplyOne(cfg: Config, a: Snapshot, op: Op)
    ensures ApplyAll(cfg, a, [op]) == Apply(cfg, a, op)
  {
    assert [op][..0] == [];
    assert ApplyAll(cfg, a, []) == a;
  }

  lemma ApplyAllSnoc(cfg: Config, a: Snapshot, ops: seq<Op>, op: Op)
    ensures ApplyAll(cfg, a, ops + [op]) == Apply(cfg, ApplyAll(cfg, a, ops), op)
  {
    hide Apply;
    assert (ops + [op])[..|ops|] == ops;
  }

  lemma {:induction false} ApplyAllSplit(cfg: Config, a: Snapshot, left: seq<Op>, right: seq<Op>)
    ensures ApplyAll(cfg, a, left + right) == ApplyAll(cfg, ApplyAll(cfg, a, left), right)
    decreases |right|
  {
    if right == [] {
      assert left + right == left;
    } else {
      hide Apply, ApplyAll;
      var init, op := right[..|right| - 1], right[|right| - 1];
      assert right == init + [op];
      assert left + right == left + init + [op];
      ApplyAllSplit(cfg, a, left, init);
      ApplyAllSnoc(cfg, a, left + init, op);
      ApplyAllSnoc(cfg, ApplyAll(cfg, a, left), init, op);
    }
  }

  // ---------------------------------------------------------------- one thread's calls

  /** What a thread asks for, without what the kernel answers. */
  datatype Call = EnterCall(input: EnterInput) | ExitCall(ret: I64)

  function CallOf(op: Op): Call {
    match op
    case Enter(_, input) => EnterCall(input)
    case Exit(_, ret, _) => ExitCall(ret)
  }

  /** The calls of thread `t` in a run of whole handlers, in order. */
  function CallsIn(ops: seq<Op>, t: Tid): seq<Call>
    decreases |ops|
  {
    if ops == [] then []
    else
      var op := ops[|ops| - 1];
      CallsIn(ops[..|ops| - 1], t) + if op.tid == t then [CallOf(op)] else []
  }

  lemma CallsInSnoc(ops: seq<Op>, op: Op, t: Tid)
    ensures CallsIn(ops + [op], t) == CallsIn(ops, t) + if op.tid == t then [CallOf(op)] else []
  {
    hide CallOf;
    assert (ops + [op])[..|ops|] == ops;
  }

  lemma {:induction false} CallsInSplit(left: seq<Op>, right: seq<Op>, t: Tid)
    ensures CallsIn(left + right, t) == CallsIn(left, t) + CallsIn(right, t)
    decreases |right|
  {
    if right == [] {
      assert left + right == left;
    } else {
      hide CallsIn, CallOf;
      var init, op := right[..|right| - 1], right[|right| - 1];
      assert right == init + [op];
      assert left + right == left + init + [op];
      CallsInSplit(left, init, t);
      CallsInSnoc(init, op, t);
      CallsInSnoc(left + init, op, t);
    }
  }

  function CallOfStep(step: Step): seq<Call> {
    match step.action
    case BeginEnter(input) => [EnterCall(input)]
    case BeginExit(ret) => [ExitCall(ret)]
    case _ => []
  }

  /** The calls that thread `t` begins in an interleaving, in order. */
  function CallsOf(steps: seq<Step>, t: Tid): seq<Call>
    decreases |steps|
  {
    if steps == [] then []
    else
      var step := steps[|steps| - 1];
      CallsOf(steps[..|steps| - 1], t) + if step.tid == t then CallOfStep(step) else []
  }

  lemma CallsOfSnoc(steps: seq<Step>, step: Step, t: Tid)
    ensures CallsOf(steps + [step], t) == CallsOf(steps, t) + if step.tid == t then CallOfStep(step) else []
  {
    hide CallOfStep;
    assert (steps + [step])[..|steps|] == steps;
  }

  lemma {:induction false} CallsOfSplit(left: seq<Step>, right: seq<Step>, t: Tid)
    ensures CallsOf(left + right, t) == CallsOf(left, t) + CallsOf(right, t)
    decreases |right|
  {
    if right == [] {
      assert left + right == left;
    } else {
      hide CallsOf, CallOfStep;
      var init, step := right[..|right| - 1], right[|right| - 1];
      assert right == init + [step];
      assert left + right == left + init + [step];
      CallsOfSplit(left, init, t);
      CallsOfSnoc(init, step, t);
      CallsOfSnoc(left + init, step, t);
    }
  }

  // ---------------------------------------------------------------- agreement of the two

  function Events(ring: seq<Slot>): seq<Event> {
    seq(|ring|, j requires 0 <= j < |ring| => ring[j].event)
  }

  /** `ops` holds every handler of `t` that has ended in `steps`, and none that has not begun. */
  ghost predicate InTime(cfg: Config, steps: seq<Step>, ops: seq<Op>, t: Tid) {
    var s := Exec(cfg, START, steps);
    var begun := |CallsOf(steps, t)|;
    var running := if s.Some? && t in s.value.pcs then 1 else 0;
    begun - running <= |CallsIn(ops, t)| <= begun
  }

  /** At step `n` the whole handlers can be cut in two: a handler that has ended by then is before the
      cut, and one that has not begun is after it. */
  ghost predicate CutAt(cfg: Config, steps: seq<Step>, ops: seq<Op>, n: nat)
    requires n <= |steps|
  {
    exists k :: 0 <= k <= |ops| && forall t :: InTime(cfg, steps[..n], ops[..k], t)
  }

  /** A run of whole handlers tells the same story as an interleaving that ends in `s`: each
      thread makes the same calls in the same order, a handler that ends before another begins comes
      first, and the ring and the map end up the same. */
  ghost predicate SameStory(cfg: Config, steps: seq<Step>, s: State, ops: seq<Op>) {
    && (forall t :: CallsIn(ops, t) == CallsOf(steps, t))
    && (forall n :: 0 <= n <= |steps| ==> CutAt(cfg, steps, ops, n))
    && ApplyAll(cfg, EMPTY, ops) == Snapshot(s.inflight, Events(s.ring))
  }

  ghost predicate RunsOver(threads: set<Tid>, steps: seq<Step>) {
    forall n :: 0 <= n < |steps| ==> steps[n].tid in threads
  }

  /** Every interleaving of these threads' handlers that leaves none mid-flight could have come
      from handlers that run all at once. */
  ghost predicate LooksAtomic(cfg: Config, threads: set<Tid>) {
    forall steps, s ::
      Reaches(cfg, steps, s) && Quiescent(s) && RunsOver(threads, steps) ==>
      exists ops :: SameStory(cfg, steps, s, ops)
  }
}
