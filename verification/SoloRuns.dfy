/** Handlers that run with no other thread's step in between. */
module SoloRuns {
  import opened Basics
  import opened SyscallRecords
  import opened Capture
  import opened Protocol
  import opened AtomicTracer

  lemma {:induction false} ExecSplit(cfg: Config, s: State, left: seq<Step>, right: seq<Step>)
    requires Exec(cfg, s, left).Some?
    ensures Exec(cfg, s, left + right) == Exec(cfg, Exec(cfg, s, left).value, right)
    decreases |right|
  {
    if right == [] {
      assert left + right == left;
    } else {
      hide Exec, Then;
      var init, step := right[..|right| - 1], right[|right| - 1];
      assert right == init + [step];
      assert left + right == left + init + [step];
      ExecSplit(cfg, s, left, init);
      ExecSnoc(cfg, s, left + init, step);
      ExecSnoc(cfg, Exec(cfg, s, left).value, init, step);
    }
  }

  function Then(cfg: Config, before: Option<State>, step: Step): Option<State> {
    if before.Some? && Enabled(before.value, step) then Some(Next(cfg, before.value, step)) else None
  }

  lemma ExecSnoc(cfg: Config, s: State, steps: seq<Step>, step: Step)
    ensures Exec(cfg, s, steps + [step]) == Then(cfg, Exec(cfg, s, steps), step)
  {
    hide Next, Enabled;
    assert (steps + [step])[..|steps|] == steps;
  }

  lemma ExecOne(cfg: Config, s: State, step: Step)
    requires Enabled(s, step)
    ensures Exec(cfg, s, [step]) == Some(Next(cfg, s, step))
  {
    hide Next, Enabled;
    assert [step][..0] == [];
    assert Exec(cfg, s, []) == Some(s);
  }

  lemma ExecTwo(cfg: Config, s: State, first: Step, second: Step)
    requires Enabled(s, first) && Enabled(Next(cfg, s, first), second)
    ensures Exec(cfg, s, [first, second]) == Some(Next(cfg, Next(cfg, s, first), second))
  {
    hide Next, Enabled;
    ExecOne(cfg, s, first);
    assert [first, second] == [first] + [second];
    ExecSplit(cfg, s, [first], [second]);
    ExecOne(cfg, Next(cfg, s, first), second);
  }

  function EnterSteps(t: Tid, input: EnterInput): seq<Step> {
    [Step(t, BeginEnter(input)), Step(t, Store)]
  }

  lemma SoloEnter(cfg: Config, s: State, t: Tid, input: EnterInput)
    requires t !in s.pcs && Traced(cfg, t)
    ensures Exec(cfg, s, EnterSteps(t, input))
            == Some(s.(inflight := UpdateAny(s.inflight, cfg.capacity, t, Captured(input))))
  {
    hide Captured, UpdateAny, CopyField;
    var s1 := Next(cfg, s, Step(t, BeginEnter(input)));
    var s2 := Next(cfg, s1, Step(t, Store));
    ExecTwo(cfg, s, Step(t, BeginEnter(input)), Step(t, Store));
    assert s2.pcs == s.pcs;
  }

  function ReserveSteps(t: Tid, ret: I64, memory: Event): seq<Step> {
    [Step(t, BeginExit(ret)), Step(t, Reserve(Some(memory)))]
  }

  function Reserved(s: State, t: Tid, ret: I64, memory: Event): State {
    State(s.inflight, s.ring + [Slot(t, memory, false)], s.pcs[t := Filling(|s.ring|, ret, 0)])
  }

  lemma SoloReserve(cfg: Config, s: State, t: Tid, ret: I64, memory: Event)
    requires t !in s.pcs && Traced(cfg, t) && t in s.inflight
    ensures Exec(cfg, s, ReserveSteps(t, ret, memory)) == Some(Reserved(s, t, ret, memory))
  {
    hide Captured, UpdateAny, CopyField;
    ExecTwo(cfg, s, Step(t, BeginExit(ret)), Step(t, Reserve(Some(memory))));
    assert s.pcs[t := Found(ret)][t := Filling(|s.ring|, ret, 0)] == s.pcs[t := Filling(|s.ring|, ret, 0)];
  }

  function Copies(t: Tid, n: nat): seq<Step> {
    if n == 0 then [] else Copies(t, n - 1) + [Step(t, Copy)]
  }

  /** `s'` is `s` with `n` more assignments made to the slot that `t` is filling. */
  ghost predicate Copied(s: State, t: Tid, n: nat, s': State) {
    var pc := PcOf(s, t);
    && pc.Filling?
    && t in s.inflight
    && s'.inflight == s.inflight
    && s'.pcs == s.pcs[t := pc.(done := pc.done + n)]
    && |s'.ring| == |s.ring|
    && pc.slot < |s.ring|
    && s'.ring == s.ring[pc.slot := s'.ring[pc.slot]]
    && s'.ring[pc.slot].owner == t
    && !s'.ring[pc.slot].committed
    && FilledUpTo(s'.ring[pc.slot].event, s.inflight[t], t, pc.ret, pc.done + n)
  }

  lemma CopyOnce(cfg: Config, s: State, t: Tid, n: nat, s1: State)
    requires t in s.pcs && Copied(s, t, n, s1) && PcOf(s, t).done + n < FIELDS
    ensures Enabled(s1, Step(t, Copy))
    ensures Copied(s, t, n + 1, Next(cfg, s1, Step(t, Copy)))
  {
    hide Captured, UpdateAny, CopyField, FilledUpTo;
    var pc := PcOf(s, t);
    var e := s1.ring[pc.slot].event;
    CopyFills(e, s.inflight[t], t, pc.ret, pc.done + n);
    assert s1.pcs[t] == pc.(done := pc.done + n);
    assert s1.pcs[t := pc.(done := pc.done + n + 1)] == s.pcs[t := pc.(done := pc.done + n + 1)];
  }

  lemma {:induction false} SoloCopies(cfg: Config, s: State, t: Tid, n: nat)
    requires t in s.pcs && Copied(s, t, 0, s) && PcOf(s, t).done + n <= FIELDS
    ensures Exec(cfg, s, Copies(t, n)).Some?
    ensures Copied(s, t, n, Exec(cfg, s, Copies(t, n)).value)
  {
    hide Next, Enabled, Copied;
    if n > 0 {
      SoloCopies(cfg, s, t, n - 1);
      var s1 := Exec(cfg, s, Copies(t, n - 1)).value;
      CopyOnce(cfg, s, t, n - 1, s1);
      assert Copies(t, n)[..|Copies(t, n)| - 1] == Copies(t, n - 1);
    }
  }

  function FinishSteps(t: Tid): seq<Step> {
    Copies(t, FIELDS) + [Step(t, Submit), Step(t, Remove)]
  }

  lemma SubmitRemove(cfg: Config, s: State, t: Tid, slot: nat, ret: I64)
    requires t in s.pcs && s.pcs[t] == Filling(slot, ret, FIELDS) && slot < |s.ring| && s.ring[slot].owner == t
    ensures Exec(cfg, s, [Step(t, Submit), Step(t, Remove)])
            == Some(State(s.inflight - {t}, s.ring[slot := Slot(t, s.ring[slot].event, true)], s.pcs - {t}))
  {
    hide Captured, UpdateAny, CopyField;
    ExecTwo(cfg, s, Step(t, Submit), Step(t, Remove));
    assert s.pcs[t := Submitted(slot, ret)] - {t} == s.pcs - {t};
  }

  /** From its reservation on, an undisturbed exit handler fills its slot with the complete
      event, submits it and deletes the entry. */
  lemma SoloFinish(cfg: Config, s: State, t: Tid, slot: nat, ret: I64)
    requires t in s.pcs && s.pcs[t] == Filling(slot, ret, 0) && t in s.inflight
    requires slot < |s.ring| && s.ring[slot].owner == t && !s.ring[slot].committed
    ensures Exec(cfg, s, FinishSteps(t))
            == Some(State(s.inflight - {t}, s.ring[slot := Slot(t, Complete(s.inflight[t], t, ret), true)], s.pcs - {t}))
  {
    hide Next, Enabled, Exec, Copies, Copied, Complete;
    CopiedNothing(s, t);
    SoloCopies(cfg, s, t, FIELDS);
    var s1 := Exec(cfg, s, Copies(t, FIELDS)).value;
    ExecSplit(cfg, s, Copies(t, FIELDS), [Step(t, Submit), Step(t, Remove)]);
    CopiedAll(s, t, s1);
    SubmitRemove(cfg, s1, t, slot, ret);
  }

  lemma CopiedNothing(s: State, t: Tid)
    requires t in s.pcs && s.pcs[t].Filling? && s.pcs[t].done == 0 && t in s.inflight
    requires s.pcs[t].slot < |s.ring| && s.ring[s.pcs[t].slot].owner == t && !s.ring[s.pcs[t].slot].committed
    ensures Copied(s, t, 0, s)
  {
    assert s.pcs == s.pcs[t := s.pcs[t].(done := s.pcs[t].done + 0)];
  }

  lemma CopiedAll(s: State, t: Tid, s1: State)
    requires t in s.pcs && s.pcs[t].Filling? && s.pcs[t].done == 0 && Copied(s, t, FIELDS, s1)
    ensures var slot, ret := s.pcs[t].slot, s.pcs[t].ret;
            && t in s1.pcs && s1.pcs[t] == Filling(slot, ret, FIELDS) && s1.pcs - {t} == s.pcs - {t}
            && slot < |s1.ring| && s1.ring[slot] == Slot(t, Complete(s.inflight[t], t, ret), false)
            && s1.ring[slot := Slot(t, s1.ring[slot].event, true)] == s.ring[slot := Slot(t, s1.ring[slot].event, true)]
            && s1.inflight == s.inflight
  {
    var slot, ret := s.pcs[t].slot, s.pcs[t].ret;
    FilledIsComplete(s1.ring[slot].event, s.inflight[t], t, ret);
  }

  // ---------------------------------------------------------------- the calls they make

  lemma {:induction false} CopiesCall(t: Tid, n: nat, u: Tid)
    ensures CallsOf(Copies(t, n), u) == []
  {
    if n > 0 {
      CopiesCall(t, n - 1, u);
      assert Copies(t, n)[..|Copies(t, n)| - 1] == Copies(t, n - 1);
    }
  }

  lemma CallsOfTwo(first: Step, second: Step, u: Tid)
    ensures CallsOf([first, second], u)
            == (if first.tid == u then CallOfStep(first) else []) + (if second.tid == u then CallOfStep(second) else [])
  {
    hide CallOfStep;
    assert [first, second][..1] == [first];
    assert [first][..0] == [];
    assert CallsOf([], u) == [];
    assert CallsOf([first], u) == [] + (if first.tid == u then CallOfStep(first) else []);
  }

  lemma EnterCalls(t: Tid, input: EnterInput, u: Tid)
    ensures CallsOf(EnterSteps(t, input), u) == if u == t then [EnterCall(input)] else []
  {
    CallsOfTwo(Step(t, BeginEnter(input)), Step(t, Store), u);
  }

  lemma ReserveCalls(t: Tid, ret: I64, memory: Event, u: Tid)
    ensures CallsOf(ReserveSteps(t, ret, memory), u) == if u == t then [ExitCall(ret)] else []
  {
    CallsOfTwo(Step(t, BeginExit(ret)), Step(t, Reserve(Some(memory))), u);
  }

  lemma FinishCalls(t: Tid, u: Tid)
    ensures CallsOf(FinishSteps(t), u) == []
  {
    CallsOfSplit(Copies(t, FIELDS), [Step(t, Submit), Step(t, Remove)], u);
    CopiesCall(t, FIELDS, u);
    CallsOfTwo(Step(t, Submit), Step(t, Remove), u);
  }
}
