/** The tracer's two handlers as a step relation.  Threads run `handle_sys_enter` and
    `handle_sys_exit` over the shared `inflight` map and the `events` ring, one statement at a
    time, and the steps of different threads interleave freely.  One thread runs one handler at
    a time.  What a step does not decide by itself (the registers and user memory it finds,
    whether a reservation is granted, what the reserved bytes hold) is part of its label. */
module Protocol {
  import opened Basics
  import opened SyscallRecords
  import opened Capture

  type Tid = U64

  /** `max_entries` of the `inflight` map. */
  const INFLIGHT_ENTRIES := 16384

  datatype Config = Config(capacity: nat, target: I32)

  /** The filter on `target_tgid`; zero traces every process. */
  predicate Traced(cfg: Config, t: Tid) {
    cfg.target == 0 || Tgid(t) == cfg.target
  }

  /** The filter, in terms of the id word: its high half is the process. */
  lemma TracedIff(cfg: Config, id: Tid)
    ensures Traced(cfg, id) <==> cfg.target == 0 || (id / 0x1_0000_0000 - cfg.target) % 0x1_0000_0000 == 0
  {
    ToI32Is(id / 0x1_0000_0000, cfg.target);
  }

  /** Where a thread stands inside a handler. */
  datatype Pc =
    | Idle                                          // in no handler
    | Entering(input: EnterInput)                   // record captured, not yet stored
    | Found(ret: I64)                               // entry looked up, nothing reserved yet
    | Dropping(ret: I64)                            // reservation refused, entry not yet deleted
    | Filling(slot: nat, ret: I64, done: nat)       // copying the entry into a reserved slot
    | Submitted(slot: nat, ret: I64)                // slot submitted, entry not yet deleted

  datatype Slot = Slot(owner: Tid, event: Event, committed: bool)

  /** `pcs` holds the threads that are inside a handler. */
  datatype State = State(inflight: map<Tid, EnterState>, ring: seq<Slot>, pcs: map<Tid, Pc>)

  datatype Action =
    | BeginEnter(input: EnterInput)                 // filter, registers, captures
    | Store                                         // bpf_map_update_elem
    | BeginExit(ret: I64)                           // filter, bpf_map_lookup_elem
    | Reserve(memory: Option<Event>)                // bpf_ringbuf_reserve; None is NULL
    | Copy                                          // one assignment to the reserved record
    | Submit                                        // bpf_ringbuf_submit
    | Remove                                        // bpf_map_delete_elem

  datatype Step = Step(tid: Tid, action: Action)

  const START := State(map[], [], map[])

  function PcOf(s: State, t: Tid): Pc {
    if t in s.pcs then s.pcs[t] else Idle
  }

  function SetPc(s: State, t: Tid, pc: Pc): State {
    s.(pcs := if pc.Idle? then s.pcs - {t} else s.pcs[t := pc])
  }

  /** `bpf_map_update_elem` with `BPF_ANY` on a bounded hash map. */
  function UpdateAny(m: map<Tid, EnterState>, capacity: nat, t: Tid, v: EnterState): map<Tid, EnterState> {
    if t in m || |m| < capacity then m[t := v] else m
  }

  /** The number of assignments that fill a reserved record. */
  const FIELDS := 19

  /** The `k`-th assignment to the reserved record. */
  function CopyField(e: Event, s: EnterState, t: Tid, ret: I64, k: nat): Event {
    if k == 0 then e.(tgid := Tgid(t))
    else if k == 1 then e.(pid := Pid(t))
    else if k == 2 then e.(syscallId := s.syscallId)
    else if k == 3 then e.(ret := ret)
    else if k < 10 then e.(args := e.args[k - 4 := s.args[k - 4]])
    else if k == 10 then e.(comm := s.comm)
    else if k == 11 then e.(str := s.str)
    else if k == 12 then e.(strLen := s.strLen)
    else if k == 13 then e.(saFamily := s.saFamily)
    else if k == 14 then e.(saPort := s.saPort)
    else if k == 15 then e.(saAddr4 := s.saAddr4)
    else if k == 16 then e.(saAddr6 := s.saAddr6)
    else if k == 17 then e.(saScopeId := s.saScopeId)
    else e.(saValid := s.saValid)
  }

  /** The next statement of a handler can run.  `Copy` reads through a pointer into `inflight`,
      so it needs the entry to be there still. */
  predicate Enabled(s: State, step: Step) {
    var pc := PcOf(s, step.tid);
    match step.action
    case BeginEnter(_) => pc.Idle?
    case Store => pc.Entering?
    case BeginExit(_) => pc.Idle?
    case Reserve(_) => pc.Found?
    case Copy => pc.Filling? && pc.done < FIELDS && step.tid in s.inflight && pc.slot < |s.ring|
    case Submit => pc.Filling? && pc.done == FIELDS && pc.slot < |s.ring|
    case Remove => pc.Dropping? || pc.Submitted?
  }

  function Next(cfg: Config, s: State, step: Step): State
    requires Enabled(s, step)
  {
    var t := step.tid;
    var pc := PcOf(s, t);
    match step.action
    case BeginEnter(input) =>
      if Traced(cfg, t) then SetPc(s, t, Entering(input)) else s
    case Store =>
      SetPc(s.(inflight := UpdateAny(s.inflight, cfg.capacity, t, Captured(pc.input))), t, Idle)
    case BeginExit(ret) =>
      if Traced(cfg, t) && t in s.inflight then SetPc(s, t, Found(ret)) else s
    case Reserve(memory) =>
      if memory.None? then SetPc(s, t, Dropping(pc.ret))
      else SetPc(s.(ring := s.ring + [Slot(t, memory.value, false)]), t, Filling(|s.ring|, pc.ret, 0))
    case Copy =>
      var e := CopyField(s.ring[pc.slot].event, s.inflight[t], t, pc.ret, pc.done);
      SetPc(s.(ring := s.ring[pc.slot := s.ring[pc.slot].(event := e)]), t, pc.(done := pc.done + 1))
    case Submit =>
      SetPc(s.(ring := s.ring[pc.slot := s.ring[pc.slot].(committed := true)]), t, Submitted(pc.slot, pc.ret))
    case Remove =>
      SetPc(s.(inflight := s.inflight - {t}), t, Idle)
  }

  /** The state that a sequence of steps reaches from `s`, if each step can run in its turn. */
  function Exec(cfg: Config, s: State, steps: seq<Step>): Option<State>
    decreases |steps|
  {
    if steps == [] then Some(s)
    else
      var before := Exec(cfg, s, steps[..|steps| - 1]);
      var step := steps[|steps| - 1];
      if before.Some? && Enabled(before.value, step) then Some(Next(cfg, before.value, step)) else None
  }

  /** `steps` is an interleaving of handlers from the empty tracer to `s`. */
  ghost predicate Reaches(cfg: Config, steps: seq<Step>, s: State) {
    Exec(cfg, START, steps) == Some(s)
  }

  /** No handler is mid-flight. */
  predicate Quiescent(s: State) {
    s.pcs == map[]
  }

  // ---------------------------------------------------------------- reachable states

  /** The first `k` assignments have been made. */
  ghost predicate FilledUpTo(e: Event, s: EnterState, t: Tid, ret: I64, k: nat) {
    && (k > 0 ==> e.tgid == Tgid(t))
    && (k > 1 ==> e.pid == Pid(t))
    && (k > 2 ==> e.syscallId == s.syscallId)
    && (k > 3 ==> e.ret == ret)
    && (forall i :: 0 <= i < 6 && i + 4 < k ==> e.args[i] == s.args[i])
    && (k > 10 ==> e.comm == s.comm)
    && (k > 11 ==> e.str == s.str)
    && (k > 12 ==> e.strLen == s.strLen)
    && (k > 13 ==> e.saFamily == s.saFamily)
    && (k > 14 ==> e.saPort == s.saPort)
    && (k > 15 ==> e.saAddr4 == s.saAddr4)
    && (k > 16 ==> e.saAddr6 == s.saAddr6)
    && (k > 17 ==> e.saScopeId == s.saScopeId)
    && (k > 18 ==> e.saValid == s.saValid)
  }

  lemma CopyFills(e: Event, s: EnterState, t: Tid, ret: I64, k: nat)
    requires k < FIELDS && FilledUpTo(e, s, t, ret, k)
    ensures FilledUpTo(CopyField(e, s, t, ret, k), s, t, ret, k + 1)
  {
  }

  /** The assignments leave nothing of what the reserved bytes held. */
  lemma FilledIsComplete(e: Event, s: EnterState, t: Tid, ret: I64)
    requires FilledUpTo(e, s, t, ret, FIELDS)
    ensures e == Complete(s, t, ret)
  {
    assert e.args == s.args by {
      forall i | 0 <= i < 6 ensures e.args[i] == s.args[i] {}
    }
  }

  /** A thread inside the exit handler, past the lookup. */
  predicate Exiting(pc: Pc) {
    pc.Found? || pc.Dropping? || pc.Filling? || pc.Submitted?
  }

  /** What a thread's place in a handler says about the shared state. */
  ghost predicate ThreadOk(cfg: Config, s: State, t: Tid) {
    var pc := PcOf(s, t);
    && (t in s.pcs ==> !pc.Idle? && Traced(cfg, t))
    && (Exiting(pc) ==> t in s.inflight)
    && (pc.Filling? ==>
          && pc.done <= FIELDS
          && pc.slot < |s.ring|
          && s.ring[pc.slot].owner == t
          && !s.ring[pc.slot].committed
          && FilledUpTo(s.ring[pc.slot].event, s.inflight[t], t, pc.ret, pc.done))
    && (pc.Submitted? ==>
          pc.slot < |s.ring| && s.ring[pc.slot] == Slot(t, Complete(s.inflight[t], t, pc.ret), true))
  }

  /** An uncommitted slot is the one its owner is filling. */
  ghost predicate SlotOk(s: State, j: nat)
    requires j < |s.ring|
  {
    !s.ring[j].committed ==>
      var pc := PcOf(s, s.ring[j].owner);
      pc.Filling? && pc.slot == j
  }

  ghost predicate Inv(cfg: Config, s: State) {
    && |s.inflight| <= cfg.capacity
    && (forall t :: t in s.inflight ==> Traced(cfg, t))
    && (forall t :: ThreadOk(cfg, s, t))
    && (forall j :: 0 <= j < |s.ring| ==> SlotOk(s, j))
  }

  lemma StartInv(cfg: Config)
    ensures Inv(cfg, START)
  {
  }

  lemma UpdateSize(m: map<Tid, EnterState>, capacity: nat, t: Tid, v: EnterState)
    requires |m| <= capacity
    ensures |UpdateAny(m, capacity, t, v)| <= capacity
    ensures |UpdateAny(m, capacity, t, v)| == if t !in m && |m| < capacity then |m| + 1 else |m|
  {
    assert m[t := v].Keys == m.Keys + {t};
    assert |m[t := v]| == |m[t := v].Keys| && |m| == |m.Keys|;
  }

  lemma RemoveSize(m: map<Tid, EnterState>, t: Tid)
    ensures |m - {t}| == if t in m then |m| - 1 else |m|
  {
    assert (m - {t}).Keys == m.Keys - {t};
    assert |m - {t}| == |(m - {t}).Keys| && |m| == |m.Keys|;
  }

  lemma SizeKept(cfg: Config, s: State, step: Step)
    requires |s.inflight| <= cfg.capacity && Enabled(s, step)
    ensures |Next(cfg, s, step).inflight| <= cfg.capacity
  {
    hide Captured, CopyField, UpdateAny;
    if step.action.Remove? {
      RemoveSize(s.inflight, step.tid);
    } else if step.action.Store? {
      UpdateSize(s.inflight, cfg.capacity, step.tid, Captured(PcOf(s, step.tid).input));
    }
  }

  /** What a step does, seen from the thread that takes it. */
  lemma MoverNext(cfg: Config, s: State, step: Step)
    requires Enabled(s, step)
    ensures var t := step.tid;
            var pc := PcOf(s, t);
            var s' := Next(cfg, s, step);
            var pc' := PcOf(s', t);
            match step.action
            case BeginEnter(input) =>
              s'.inflight == s.inflight && s'.ring == s.ring && pc' == if Traced(cfg, t) then Entering(input) else Idle
            case Store =>
              && s'.inflight == UpdateAny(s.inflight, cfg.capacity, t, Captured(pc.input))
              && s'.ring == s.ring && pc' == Idle
            case BeginExit(ret) =>
              && s'.inflight == s.inflight && s'.ring == s.ring
              && pc' == if Traced(cfg, t) && t in s.inflight then Found(ret) else Idle
            case Reserve(memory) =>
              && s'.inflight == s.inflight
              && (memory.None? ==> s'.ring == s.ring && pc' == Dropping(pc.ret))
              && (memory.Some? ==>
                    s'.ring == s.ring + [Slot(t, memory.value, false)] && pc' == Filling(|s.ring|, pc.ret, 0))
            case Copy =>
              && s'.inflight == s.inflight && pc' == Filling(pc.slot, pc.ret, pc.done + 1)
              && |s'.ring| == |s.ring| && s'.ring == s.ring[pc.slot := s'.ring[pc.slot]]
              && s'.ring[pc.slot].owner == s.ring[pc.slot].owner
              && s'.ring[pc.slot].committed == s.ring[pc.slot].committed
            case Submit =>
              && s'.inflight == s.inflight && pc' == Submitted(pc.slot, pc.ret)
              && s'.ring == s.ring[pc.slot := s.ring[pc.slot].(committed := true)]
            case Remove =>
              s'.inflight == s.inflight - {t} && s'.ring == s.ring && pc' == Idle
  {
    hide Captured, CopyField, UpdateAny;
  }

  lemma PlaceKept(cfg: Config, s: State, step: Step, u: Tid)
    requires Enabled(s, step) && u != step.tid
    ensures PcOf(Next(cfg, s, step), u) == PcOf(s, u)
  {
    hide Captured, CopyField, UpdateAny;
  }

  /** The thread that takes a step keeps its own bookkeeping right. */
  lemma MoverKept(cfg: Config, s: State, step: Step)
    requires ThreadOk(cfg, s, step.tid) && Enabled(s, step)
    ensures ThreadOk(cfg, Next(cfg, s, step), step.tid)
  {
    var t := step.tid;
    var pc := PcOf(s, t);
    if step.action.Copy? {
      CopyFills(s.ring[pc.slot].event, s.inflight[t], t, pc.ret, pc.done);
    } else if step.action.Submit? {
      FilledIsComplete(s.ring[pc.slot].event, s.inflight[t], t, pc.ret);
    }
  }

  /** A step touches no other thread's entry, slot or place. */
  lemma OthersKept(cfg: Config, s: State, step: Step, u: Tid)
    requires ThreadOk(cfg, s, step.tid) && Enabled(s, step) && u != step.tid
    ensures var s' := Next(cfg, s, step);
            && PcOf(s', u) == PcOf(s, u)
            && (u in s'.pcs <==> u in s.pcs)
            && (u in s'.inflight <==> u in s.inflight)
            && (u in s.inflight ==> s'.inflight[u] == s.inflight[u])
            && |s.ring| <= |s'.ring|
            && forall j :: 0 <= j < |s.ring| && s.ring[j].owner == u ==> s'.ring[j] == s.ring[j]
  {
  }

  lemma SlotKept(cfg: Config, s: State, step: Step, j: nat)
    requires ThreadOk(cfg, s, step.tid) && Enabled(s, step)
    requires j < |Next(cfg, s, step).ring| && (j < |s.ring| ==> SlotOk(s, j))
    ensures SlotOk(Next(cfg, s, step), j)
  {
    if j < |s.ring| {
      assert SlotOk(s, j);
      var u := s.ring[j].owner;
      if u != step.tid {
        OthersKept(cfg, s, step, u);
      }
    }
  }

  lemma NextInv(cfg: Config, s: State, step: Step)
    requires Inv(cfg, s) && Enabled(s, step)
    ensures Inv(cfg, Next(cfg, s, step))
  {
    var s' := Next(cfg, s, step);
    var t := step.tid;
    assert ThreadOk(cfg, s, t);
    SizeKept(cfg, s, step);
    forall u ensures ThreadOk(cfg, s', u) {
      if u == t {
        MoverKept(cfg, s, step);
      } else {
        assert ThreadOk(cfg, s, u);
        OthersKept(cfg, s, step, u);
      }
    }
    forall j | 0 <= j < |s'.ring| ensures SlotOk(s', j) {
      SlotKept(cfg, s, step, j);
    }
    forall u | u in s'.inflight ensures Traced(cfg, u) {
      if u != t {
        OthersKept(cfg, s, step, u);
      }
    }
  }

  /** Every state that an interleaving reaches is consistent. */
  lemma {:induction false} ReachableInv(cfg: Config, steps: seq<Step>, s: State)
    requires Reaches(cfg, steps, s)
    ensures Inv(cfg, s)
    decreases |steps|
  {
    if steps == [] {
      StartInv(cfg);
    } else {
      var init := steps[..|steps| - 1];
      var before := Exec(cfg, START, init).value;
      ReachableInv(cfg, init, before);
      NextInv(cfg, before, steps[|steps| - 1]);
    }
  }

  /** The action by which a thread leaves its place in a handler. */
  function Continue(pc: Pc): Action
    requires !pc.Idle?
  {
    match pc
    case Entering(_) => Store
    case Found(_) => Reserve(None)
    case Filling(_, _, done) => if done < FIELDS then Copy else Submit
    case Dropping(_) => Remove
    case Submitted(_, _) => Remove
  }

  /** No handler is ever stuck: the pointer obtained by the lookup stays good, and the slot
      stays the thread's own, until the handler returns. */
  lemma NeverStuck(cfg: Config, steps: seq<Step>, s: State, t: Tid)
    requires Reaches(cfg, steps, s) && t in s.pcs
    ensures !s.pcs[t].Idle? && Enabled(s, Step(t, Continue(s.pcs[t])))
    ensures Exiting(s.pcs[t]) ==> t in s.inflight
  {
    ReachableInv(cfg, steps, s);
    assert ThreadOk(cfg, s, t);
  }
}
