/** `libbpfapp`'s execve handler over the shared `execs` map.  Threads run the handler one statement
    at a time and their steps interleave freely; one thread is in at most one execve.  The map is
    keyed by the low half of the thread's id word, so a thread is named by that half here.  The map's
    size, 10240 in the program, is a parameter. */
module Execs {
  import opened Basics
  import opened SyscallRecords

  /** The id word, the user and the bytes that one invocation finds; `path` is what the string read
      leaves in the first 127 bytes of `args`. */
  datatype Input = Input(id: U64, uid: U32, comm: Comm, path: PathBytes)

  type PathBytes = s: seq<U8> | |s| == 127 witness seq(127, i => 0)
  type ArgBytes = s: seq<U8> | |s| == 128 witness seq(128, i => 0)

  /** `struct event`. */
  datatype Record = Record(pid: I32, ppid: I32, uid: U32, comm: Comm, args: ArgBytes)

  function EmptyRecord(): Record {
    Record(0, 0, 0, Zeros(16), Zeros(128))
  }

  datatype Pc =
    | Idle                                // in no handler
    | Begun(input: Input)                 // before the insert
    | Inserted(input: Input)              // before the lookup
    | Filling(input: Input, done: nat)    // writing through the pointer
    | Printed(input: Input)               // before the delete

  /** What one invocation prints out of its entry. */
  datatype Report = Report(thread: I32, pid: I32, uid: U32, comm: Comm, args: ArgBytes)

  datatype State = State(execs: map<I32, Record>, log: seq<Report>, pcs: map<I32, Pc>)

  datatype Action =
    | Begin(input: Input)
    | Insert                              // bpf_map_update_elem with BPF_NOEXIST
    | Lookup                              // bpf_map_lookup_elem
    | Fill                                // one write through the pointer
    | Print                               // bpf_printk of the entry's strings
    | Delete                              // bpf_map_delete_elem

  datatype Step = Step(thread: I32, action: Action)

  const START := State(map[], [], map[])

  /** The number of writes through the pointer. */
  const WRITES := 4

  function PcOf(s: State, t: I32): Pc {
    if t in s.pcs then s.pcs[t] else Idle
  }

  function SetPc(s: State, t: I32, pc: Pc): State {
    s.(pcs := if pc.Idle? then s.pcs - {t} else s.pcs[t := pc])
  }

  function Write(r: Record, input: Input, k: nat): Record {
    if k == 0 then r.(pid := Tgid(input.id))
    else if k == 1 then r.(uid := input.uid)
    else if k == 2 then r.(comm := input.comm)
    else r.(args := input.path + r.args[127..])
  }

  function ReportOf(t: I32, r: Record): Report {
    Report(t, r.pid, r.uid, r.comm, r.args)
  }

  /** `Fill` and `Print` go through the pointer, so they need the entry to be there still. */
  predicate Enabled(s: State, step: Step) {
    var pc := PcOf(s, step.thread);
    match step.action
    case Begin(input) => pc.Idle? && Pid(input.id) == step.thread
    case Insert => pc.Begun?
    case Lookup => pc.Inserted?
    case Fill => pc.Filling? && pc.done < WRITES && step.thread in s.execs
    case Print => pc.Filling? && pc.done == WRITES && step.thread in s.execs
    case Delete => pc.Printed?
  }

  /** Whether an insert with `BPF_NOEXIST` succeeds. */
  predicate Accepts(capacity: nat, s: State, t: I32) {
    t !in s.execs && |s.execs| < capacity
  }

  function Next(capacity: nat, s: State, step: Step): State
    requires Enabled(s, step)
  {
    var t := step.thread;
    var pc := PcOf(s, t);
    match step.action
    case Begin(input) => SetPc(s, t, Begun(input))
    case Insert =>
      if Accepts(capacity, s, t) then SetPc(s.(execs := s.execs[t := EmptyRecord()]), t, Inserted(pc.input))
      else SetPc(s, t, Idle)
    case Lookup => SetPc(s, t, if t in s.execs then Filling(pc.input, 0) else Idle)
    case Fill =>
      SetPc(s.(execs := s.execs[t := Write(s.execs[t], pc.input, pc.done)]), t, Filling(pc.input, pc.done + 1))
    case Print => SetPc(s.(log := s.log + [ReportOf(t, s.execs[t])]), t, Printed(pc.input))
    case Delete => SetPc(s.(execs := s.execs - {t}), t, Idle)
  }

  function Exec(capacity: nat, steps: seq<Step>): Option<State> {
    if steps == [] then Some(START)
    else
      var before := Exec(capacity, steps[..|steps| - 1]);
      var step := steps[|steps| - 1];
      if before.Some? && Enabled(before.value, step) then Some(Next(capacity, before.value, step)) else None
  }

  ghost predicate Reaches(capacity: nat, steps: seq<Step>, s: State) {
    Exec(capacity, steps) == Some(s)
  }

  // ---------------------------------------------------------------- reachable states

  /** The entry of an invocation that has made `k` writes: its own data and zeros, nothing else. */
  function Written(input: Input, k: nat): Record {
    Record(if k > 0 then Tgid(input.id) else 0, 0, if k > 1 then input.uid else 0,
           if k > 2 then input.comm else Zeros(16), if k > 3 then input.path + [0] else Zeros(128))
  }

  /** Between the insert and the delete. */
  predicate Holding(pc: Pc) {
    pc.Inserted? || pc.Filling? || pc.Printed?
  }

  function Progress(pc: Pc): nat {
    match pc
    case Filling(_, done) => done
    case Printed(_) => WRITES
    case _ => 0
  }

  ghost predicate ThreadOk(s: State, t: I32) {
    var pc := PcOf(s, t);
    && (t in s.pcs ==> !pc.Idle? && Pid(pc.input.id) == t)
    && (t in s.execs <==> Holding(pc))
    && Progress(pc) <= WRITES
    && (Holding(pc) ==> s.execs[t] == Written(pc.input, Progress(pc)))
  }

  ghost predicate Inv(capacity: nat, s: State) {
    |s.execs| <= capacity && forall t :: ThreadOk(s, t)
  }

  lemma WriteWrites(input: Input, k: nat)
    requires k < WRITES
    ensures Write(Written(input, k), input, k) == Written(input, k + 1)
  {
    assert Zeros(128)[127..] == [0];
  }

  lemma MoverKept(capacity: nat, s: State, step: Step)
    requires ThreadOk(s, step.thread) && Enabled(s, step)
    ensures ThreadOk(Next(capacity, s, step), step.thread)
  {
    if step.action.Fill? {
      var pc := PcOf(s, step.thread);
      WriteWrites(pc.input, pc.done);
    }
    hide Write;
  }

  lemma OthersKept(capacity: nat, s: State, step: Step, u: I32)
    requires Enabled(s, step) && u != step.thread && ThreadOk(s, u)
    ensures ThreadOk(Next(capacity, s, step), u)
  {
    hide Write, Written;
  }

  lemma SizeKept(capacity: nat, s: State, step: Step)
    requires Enabled(s, step) && |s.execs| <= capacity
    ensures |Next(capacity, s, step).execs| <= capacity
  {
    hide Write, EmptyRecord;
    var m, m' := s.execs, Next(capacity, s, step).execs;
    assert |m| == |m.Keys| && |m'| == |m'.Keys|;
    if step.action.Insert? && Accepts(capacity, s, step.thread) {
      assert m'.Keys == m.Keys + {step.thread};
    } else if step.action.Delete? {
      assert m'.Keys == m.Keys - {step.thread};
    } else {
      assert m'.Keys == m.Keys;
    }
  }

  lemma {:induction false} ReachableInv(capacity: nat, steps: seq<Step>, s: State)
    requires Reaches(capacity, steps, s)
    ensures Inv(capacity, s)
    decreases |steps|
  {
    hide Next, ThreadOk;
    if steps == [] {
      forall t ensures ThreadOk(s, t) {
        StartOk(t);
      }
    } else {
      var init, step := steps[..|steps| - 1], steps[|steps| - 1];
      var before := Exec(capacity, init).value;
      ReachableInv(capacity, init, before);
      SizeKept(capacity, before, step);
      forall t ensures ThreadOk(s, t) {
        assert ThreadOk(before, t);
        if t == step.thread {
          MoverKept(capacity, before, step);
        } else {
          OthersKept(capacity, before, step, t);
        }
      }
    }
  }

  lemma StartOk(t: I32)
    ensures ThreadOk(START, t)
  {
  }

  /** In every reachable state the map holds exactly the threads between their insert and their
      delete, so it is empty when no handler runs. */
  lemma ExecsHoldsTheRunning(capacity: nat, steps: seq<Step>, s: State)
    requires Reaches(capacity, steps, s)
    ensures s.execs.Keys == set t | t in s.pcs && Holding(s.pcs[t])
    ensures |s.execs| <= capacity
    ensures s.pcs == map[] ==> s.execs == map[]
  {
    ReachableInv(capacity, steps, s);
    forall t ensures t in s.execs <==> t in s.pcs && Holding(s.pcs[t]) {
      assert ThreadOk(s, t);
    }
  }

  /** The lookup after a successful insert never fails, an insert is refused only for lack of room,
      and the entry holds the thread's own data throughout. */
  lemma HandlerSteps(capacity: nat, steps: seq<Step>, s: State, t: I32)
    requires Reaches(capacity, steps, s) && t in s.pcs
    ensures s.pcs[t].Inserted? ==> PcOf(Next(capacity, s, Step(t, Lookup)), t) == Filling(s.pcs[t].input, 0)
    ensures s.pcs[t].Begun? ==> (Accepts(capacity, s, t) <==> |s.execs| != capacity)
    ensures !s.pcs[t].Idle? && (s.pcs[t].input.id - t) % 0x1_0000_0000 == 0
    ensures s.pcs[t].Filling? ==> s.pcs[t].done <= WRITES && s.execs.Keys >= {t}
    ensures s.pcs[t].Printed? ==> s.execs.Keys >= {t} && s.execs[t] == Written(s.pcs[t].input, WRITES)
  {
    ReachableInv(capacity, steps, s);
    assert ThreadOk(s, t);
    ToI32Is(s.pcs[t].input.id, t);
  }

  // ---------------------------------------------------------------- what is printed

  /** What the invocation that found `input` should print. */
  function Wanted(input: Input): Report {
    Report(Pid(input.id), Tgid(input.id), input.uid, input.comm, input.path + [0])
  }

  /** The process is the high half of the id word and the thread its low half; the path stands at the
      start of the arguments, and they end in a zero. */
  lemma WantedIs(input: Input)
    ensures var r := Wanted(input);
            && (input.id - r.thread) % 0x1_0000_0000 == 0
            && (input.id / 0x1_0000_0000 - r.pid) % 0x1_0000_0000 == 0
            && r.uid == input.uid && r.comm == input.comm && r.args[..127] == input.path && r.args[127] == 0
  {
    ToI32Is(input.id, Pid(input.id));
    ToI32Is(input.id / 0x1_0000_0000, Tgid(input.id));
  }

  function ReportsOf(log: seq<Report>, t: I32): seq<Report> {
    if log == [] then []
    else
      var last := log[|log| - 1];
      ReportsOf(log[..|log| - 1], t) + if last.thread == t then [last] else []
  }

  /** The invocations of `t`, in order, whose insert was accepted. */
  function AcceptedOf(capacity: nat, steps: seq<Step>, t: I32): seq<Report> {
    if steps == [] then []
    else
      var init, step := steps[..|steps| - 1], steps[|steps| - 1];
      var before := Exec(capacity, init);
      AcceptedOf(capacity, init, t) +
      if step == Step(t, Insert) && before.Some? && PcOf(before.value, t).Begun? && Accepts(capacity, before.value, t)
      then [Wanted(PcOf(before.value, t).input)] else []
  }

  /** All invocations of `t`, in order. */
  function BegunOf(steps: seq<Step>, t: I32): seq<Report> {
    if steps == [] then []
    else
      var step := steps[|steps| - 1];
      BegunOf(steps[..|steps| - 1], t) +
      if step.thread == t && step.action.Begin? then [Wanted(step.action.input)] else []
  }

  /** Accepted and not printed yet. */
  function Pending(pc: Pc): seq<Report> {
    if pc.Inserted? || pc.Filling? then [Wanted(pc.input)] else []
  }

  /** Begun and neither accepted nor refused yet. */
  function Waiting(pc: Pc): seq<Report> {
    if pc.Begun? then [Wanted(pc.input)] else []
  }

  lemma ReportsSnoc(log: seq<Report>, r: Report, t: I32)
    ensures ReportsOf(log + [r], t) == ReportsOf(log, t) + if r.thread == t then [r] else []
  {
    assert (log + [r])[..|log|] == log;
  }

  lemma MoverNext(capacity: nat, s: State, step: Step)
    requires ThreadOk(s, step.thread) && Enabled(s, step)
    ensures var pc, s' := PcOf(s, step.thread), Next(capacity, s, step);
            && s'.log == (if step.action.Print? then s.log + [ReportOf(step.thread, s.execs[step.thread])] else s.log)
            && PcOf(s', step.thread) ==
               match step.action
               case Begin(input) => Begun(input)
               case Insert => if Accepts(capacity, s, step.thread) then Inserted(pc.input) else Idle
               case Lookup => Filling(pc.input, 0)
               case Fill => Filling(pc.input, pc.done + 1)
               case Print => Printed(pc.input)
               case Delete => Idle
  {
    hide Write, EmptyRecord, Written;
  }

  lemma OthersPlace(capacity: nat, s: State, step: Step, u: I32)
    requires Enabled(s, step) && u != step.thread
    ensures PcOf(Next(capacity, s, step), u) == PcOf(s, u)
  {
    hide Write, EmptyRecord;
  }

  lemma PrintsOwnData(s: State, t: I32)
    requires ThreadOk(s, t) && Enabled(s, Step(t, Print))
    ensures ReportOf(t, s.execs[t]) == Wanted(PcOf(s, t).input)
    ensures Wanted(PcOf(s, t).input).thread == t
  {
  }

  /** One step of the account that `EveryAcceptedIsPrinted` keeps. */
  lemma StepPrints(capacity: nat, s: State, step: Step, t: I32)
    requires ThreadOk(s, step.thread) && Enabled(s, step)
    ensures var s' := Next(capacity, s, step);
            ReportsOf(s'.log, t) + Pending(PcOf(s', t)) ==
            ReportsOf(s.log, t) + Pending(PcOf(s, t)) +
            if step == Step(t, Insert) && Accepts(capacity, s, t) then [Wanted(PcOf(s, t).input)] else []
  {
    hide Next, Wanted, ReportsOf, ReportOf, ThreadOk;
    MoverNext(capacity, s, step);
    if step.action.Print? {
      PrintsOwnData(s, step.thread);
      ReportsSnoc(s.log, ReportOf(step.thread, s.execs[step.thread]), t);
    }
    if step.thread != t {
      OthersPlace(capacity, s, step, t);
    }
  }

  /** In every run, each thread's reports are those of its accepted invocations, in order and each
      once, with that invocation's own data; at most the last one is still to come. */
  lemma {:induction false} EveryAcceptedIsPrinted(capacity: nat, steps: seq<Step>, s: State, t: I32)
    requires Reaches(capacity, steps, s)
    ensures ReportsOf(s.log, t) + Pending(PcOf(s, t)) == AcceptedOf(capacity, steps, t)
    decreases |steps|
  {
    hide Next, Wanted, ThreadOk;
    if steps != [] {
      var init, step := steps[..|steps| - 1], steps[|steps| - 1];
      var before := Exec(capacity, init).value;
      EveryAcceptedIsPrinted(capacity, init, before, t);
      ReachableInv(capacity, init, before);
      assert ThreadOk(before, step.thread);
      StepPrints(capacity, before, step, t);
    }
  }

  ghost predicate OnlyThreads(steps: seq<Step>, threads: set<I32>) {
    forall i :: 0 <= i < |steps| ==> steps[i].thread in threads
  }

  lemma {:induction false} RunnersAreThreads(capacity: nat, steps: seq<Step>, s: State, threads: set<I32>)
    requires Reaches(capacity, steps, s) && OnlyThreads(steps, threads)
    ensures s.pcs.Keys <= threads
    decreases |steps|
  {
    hide Write, EmptyRecord, Wanted;
    if steps != [] {
      var init := steps[..|steps| - 1];
      RunnersAreThreads(capacity, init, Exec(capacity, init).value, threads);
    }
  }

  /** There is room for every insert when there are no more threads than entries. */
  lemma FewThreadsHaveRoom(capacity: nat, steps: seq<Step>, s: State, threads: set<I32>, t: I32)
    requires Reaches(capacity, steps, s) && OnlyThreads(steps, threads) && |threads| <= capacity
    requires t in s.pcs && s.pcs[t].Begun?
    ensures Accepts(capacity, s, t)
  {
    RunnersAreThreads(capacity, steps, s, threads);
    ExecsHoldsTheRunning(capacity, steps, s);
    var held := s.execs.Keys;
    assert threads == held + (threads - held) && t in threads - held;
    assert |s.execs| == |held|;
  }

  lemma StepWaits(capacity: nat, s: State, step: Step, t: I32)
    requires Enabled(s, step) && ThreadOk(s, step.thread)
    requires step.action.Insert? ==> Accepts(capacity, s, step.thread)
    ensures var pc' := PcOf(Next(capacity, s, step), t);
            (if step == Step(t, Insert) then [Wanted(PcOf(s, t).input)] else []) + Waiting(pc') ==
            Waiting(PcOf(s, t)) +
            if step.thread == t && step.action.Begin? then [Wanted(step.action.input)] else []
  {
    hide Write, EmptyRecord, Wanted;
  }

  lemma {:induction false} FewThreadsAcceptAll(capacity: nat, steps: seq<Step>, s: State, threads: set<I32>, t: I32)
    requires Reaches(capacity, steps, s) && OnlyThreads(steps, threads) && |threads| <= capacity
    ensures AcceptedOf(capacity, steps, t) + Waiting(PcOf(s, t)) == BegunOf(steps, t)
    decreases |steps|
  {
    hide Next, Wanted, ThreadOk;
    if steps != [] {
      var init, step := steps[..|steps| - 1], steps[|steps| - 1];
      var before := Exec(capacity, init).value;
      FewThreadsAcceptAll(capacity, init, before, threads, t);
      ReachableInv(capacity, init, before);
      assert ThreadOk(before, step.thread);
      if step.action.Insert? {
        FewThreadsHaveRoom(capacity, init, before, threads, step.thread);
      }
      StepWaits(capacity, before, step, t);
      var accepted := if step == Step(t, Insert) then [Wanted(PcOf(before, t).input)] else [];
      var begun := if step.thread == t && step.action.Begin? then [Wanted(step.action.input)] else [];
      calc {
        AcceptedOf(capacity, steps, t) + Waiting(PcOf(s, t));
        AcceptedOf(capacity, init, t) + accepted + Waiting(PcOf(s, t));
        AcceptedOf(capacity, init, t) + (accepted + Waiting(PcOf(s, t)));
        AcceptedOf(capacity, init, t) + Waiting(PcOf(before, t)) + begun;
        BegunOf(init, t) + begun;
      }
    }
  }

  /** With no more threads than entries, a run that ends with no handler running has printed every
      invocation of every thread once, in that thread's order. */
  lemma FewThreadsPrintAll(capacity: nat, steps: seq<Step>, s: State, threads: set<I32>, t: I32)
    requires Reaches(capacity, steps, s) && OnlyThreads(steps, threads) && |threads| <= capacity
    requires s.pcs == map[]
    ensures ReportsOf(s.log, t) == BegunOf(steps, t)
  {
    EveryAcceptedIsPrinted(capacity, steps, s, t);
    FewThreadsAcceptAll(capacity, steps, s, threads, t);
  }
}
