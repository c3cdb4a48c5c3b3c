/** Which enter and which exit a reported event belongs to, in every interleaving: ill-bracketed
    ones, ones in which stores are refused and ones in which reservations fail included. */
module Pairing {
  import opened Basics
  import opened SyscallRecords
  import opened Capture
  import opened Protocol

  predicate Begins(step: Step, t: Tid) {
    step.tid == t && (step.action.BeginEnter? || step.action.BeginExit?)
  }

  /** The index of the last handler call that `t` begins in `steps`, or -1. */
  function LastBegin(steps: seq<Step>, t: Tid): (r: int)
    ensures -1 <= r < |steps|
    ensures r >= 0 ==> Begins(steps[r], t)
    ensures forall n :: r < n < |steps| ==> !Begins(steps[n], t)
    decreases |steps|
  {
    if steps == [] then -1
    else if Begins(steps[|steps| - 1], t) then |steps| - 1
    else LastBegin(steps[..|steps| - 1], t)
  }

  predicate Grants(step: Step) {
    step.action.Reserve? && step.action.memory.Some?
  }

  function GrantCount(steps: seq<Step>): nat
    decreases |steps|
  {
    if steps == [] then 0
    else GrantCount(steps[..|steps| - 1]) + if Grants(steps[|steps| - 1]) then 1 else 0
  }

  /** The step that reserved slot `j`. */
  function GrantOf(steps: seq<Step>, j: nat): (m: nat)
    requires j < GrantCount(steps)
    ensures m < |steps| && Grants(steps[m]) && GrantCount(steps[..m]) == j
    decreases |steps|
  {
    var n := |steps| - 1;
    if Grants(steps[n]) && j == GrantCount(steps[..n]) then n
    else
      var m := GrantOf(steps[..n], j);
      assert steps[..n][..m] == steps[..m];
      m
  }

  /** The last call that `t` begins before step `k` is an enter, and it captured `v`. */
  ghost predicate EnterBefore(steps: seq<Step>, k: nat, t: Tid, v: EnterState)
    requires k <= |steps|
  {
    var i := LastBegin(steps[..k], t);
    i >= 0 && steps[i].action.BeginEnter? && v == Captured(steps[i].action.input)
  }

  /** Where a thread stands, told from the calls it began. */
  ghost predicate ThreadHistory(steps: seq<Step>, s: State, t: Tid) {
    var pc := PcOf(s, t);
    var k := LastBegin(steps, t);
    && (t in s.inflight && pc.Idle? ==> EnterBefore(steps, |steps|, t, s.inflight[t]))
    && (!pc.Idle? ==> k >= 0)
    && (t in s.inflight && !pc.Idle? ==> EnterBefore(steps, k, t, s.inflight[t]))
    && (pc.Entering? ==> steps[k].action == BeginEnter(pc.input))
    && (Exiting(pc) ==> steps[k].action.BeginExit?)
    && (pc.Found? || pc.Filling? ==> steps[k].action.ret == pc.ret)
    && (pc.Filling? ==>
          && pc.slot < GrantCount(steps)
          && LastBegin(steps[..GrantOf(steps, pc.slot)], t) == k)
  }

  /** Slot `j` belongs to an enter of its owner, the owner's next call, an exit, and that exit's
      reservation. */
  ghost predicate SlotHistory(steps: seq<Step>, s: State, j: nat)
    requires j < |s.ring|
  {
    var t := s.ring[j].owner;
    && j < GrantCount(steps)
    && var m := GrantOf(steps, j);
       var k := LastBegin(steps[..m], t);
       && steps[m].tid == t
       && k >= 0
       && steps[k].action.BeginExit?
       && var i := LastBegin(steps[..k], t);
          && i >= 0
          && steps[i].action.BeginEnter?
          && (s.ring[j].committed ==> s.ring[j].event == Complete(Captured(steps[i].action.input), t, steps[k].action.ret))
  }

  ghost predicate History(steps: seq<Step>, s: State) {
    && GrantCount(steps) == |s.ring|
    && (forall t :: ThreadHistory(steps, s, t))
    && (forall j :: 0 <= j < |s.ring| ==> SlotHistory(steps, s, j))
  }

  lemma Snoc(init: seq<Step>, step: Step, steps: seq<Step>)
    requires steps == init + [step]
    ensures steps[..|steps| - 1] == init
    ensures forall k :: 0 <= k <= |init| ==> steps[..k] == init[..k]
    ensures forall t :: LastBegin(steps, t) == if Begins(step, t) then |init| else LastBegin(init, t)
    ensures GrantCount(steps) == GrantCount(init) + if Grants(step) then 1 else 0
    ensures forall j :: 0 <= j < GrantCount(init) ==> GrantOf(steps, j) == GrantOf(init, j)
    ensures Grants(step) ==> GrantOf(steps, GrantCount(init)) == |init|
  {
    assert steps[..|steps| - 1] == init;
  }

  /** The thread that moves: its history keeps up with its place in the handler. */
  lemma MoverHistory(cfg: Config, init: seq<Step>, s: State, step: Step)
    requires Enabled(s, step) && ThreadOk(cfg, s, step.tid) && ThreadHistory(init, s, step.tid)
    requires GrantCount(init) == |s.ring|
    requires step.tid in s.inflight ==> Traced(cfg, step.tid)
    ensures ThreadHistory(init + [step], Next(cfg, s, step), step.tid)
  {
    hide Next, Captured, CopyField, FilledUpTo, LastBegin, GrantOf, GrantCount;
    var steps := init + [step];
    Snoc(init, step, steps);
    MoverNext(cfg, s, step);
    assert steps[..|steps|] == steps && init[..|init|] == init;
  }

  lemma OthersHistory(cfg: Config, init: seq<Step>, s: State, step: Step, u: Tid)
    requires Enabled(s, step) && ThreadOk(cfg, s, step.tid) && ThreadHistory(init, s, u) && u != step.tid
    ensures ThreadHistory(init + [step], Next(cfg, s, step), u)
  {
    hide Next, Captured, CopyField, FilledUpTo, LastBegin, GrantOf, GrantCount;
    var steps := init + [step];
    Snoc(init, step, steps);
    OthersKept(cfg, s, step, u);
    assert steps[..|steps|] == steps && init[..|init|] == init;
  }

  /** A slot keeps its history; the submitting step makes its event the complete one. */
  lemma OldSlotHistory(cfg: Config, init: seq<Step>, s: State, step: Step, j: nat)
    requires Enabled(s, step) && ThreadOk(cfg, s, step.tid) && ThreadHistory(init, s, step.tid)
    requires j < |s.ring| && SlotOk(s, j) && SlotHistory(init, s, j)
    ensures j < |Next(cfg, s, step).ring| && SlotHistory(init + [step], Next(cfg, s, step), j)
  {
    hide Next, Captured, CopyField, FilledUpTo, LastBegin, GrantOf, GrantCount, Complete;
    var steps := init + [step];
    var t := step.tid;
    Snoc(init, step, steps);
    MoverNext(cfg, s, step);
    var u := s.ring[j].owner;
    if u != t {
      OthersKept(cfg, s, step, u);
    } else if step.action.Submit? && PcOf(s, t).slot == j {
      FilledIsComplete(s.ring[j].event, s.inflight[t], t, PcOf(s, t).ret);
    }
  }

  lemma NewSlotHistory(cfg: Config, init: seq<Step>, s: State, step: Step)
    requires Enabled(s, step) && ThreadOk(cfg, s, step.tid) && ThreadHistory(init, s, step.tid)
    requires GrantCount(init) == |s.ring| && Grants(step)
    ensures |Next(cfg, s, step).ring| == |s.ring| + 1 && SlotHistory(init + [step], Next(cfg, s, step), |s.ring|)
  {
    hide Next, Captured, CopyField, FilledUpTo, LastBegin, GrantOf, GrantCount, Complete;
    var steps := init + [step];
    Snoc(init, step, steps);
    MoverNext(cfg, s, step);
    assert init[..|init|] == init;
  }

  lemma NextHistory(cfg: Config, init: seq<Step>, s: State, step: Step)
    requires Enabled(s, step) && Inv(cfg, s) && History(init, s)
    ensures History(init + [step], Next(cfg, s, step))
  {
    hide Next, ThreadHistory, SlotHistory, ThreadOk, SlotOk, GrantCount;
    var s' := Next(cfg, s, step);
    var steps := init + [step];
    Snoc(init, step, steps);
    assert ThreadOk(cfg, s, step.tid) && ThreadHistory(init, s, step.tid);
    MoverNext(cfg, s, step);
    forall u ensures ThreadHistory(steps, s', u) {
      if u == step.tid {
        MoverHistory(cfg, init, s, step);
      } else {
        assert ThreadHistory(init, s, u);
        OthersHistory(cfg, init, s, step, u);
      }
    }
    forall j | 0 <= j < |s'.ring| ensures SlotHistory(steps, s', j) {
      if j < |s.ring| {
        assert SlotOk(s, j) && SlotHistory(init, s, j);
        OldSlotHistory(cfg, init, s, step, j);
      } else {
        NewSlotHistory(cfg, init, s, step);
      }
    }
  }

  lemma {:induction false} ReachableHistory(cfg: Config, steps: seq<Step>, s: State)
    requires Reaches(cfg, steps, s)
    ensures History(steps, s)
    decreases |steps|
  {
    if steps != [] {
      hide Next, History;
      var init := steps[..|steps| - 1];
      var before := Exec(cfg, START, init).value;
      ReachableHistory(cfg, init, before);
      ReachableInv(cfg, init, before);
      NextHistory(cfg, init, before, steps[|steps| - 1]);
      assert steps == init + [steps[|steps| - 1]];
    }
  }

  // ---------------------------------------------------------------- what it comes to

  /** Pairing.  A submitted event carries exactly what the last enter of its thread captured, and
      the return value of the exit that reserved its slot; the thread made no other call between
      that enter and that exit, nor between that exit and the reservation. */
  lemma EventIsPaired(cfg: Config, steps: seq<Step>, s: State, j: nat)
      returns (t: Tid, input: EnterInput, ret: I64, i: nat, k: nat, m: nat)
    requires Reaches(cfg, steps, s) && j < |s.ring| && s.ring[j].committed
    ensures i < k < m < |steps|
    ensures steps[i] == Step(t, BeginEnter(input)) && steps[k] == Step(t, BeginExit(ret))
    ensures steps[m].tid == t && Grants(steps[m]) && GrantCount(steps[..m]) == j
    ensures forall n :: i < n < m && n != k ==> !Begins(steps[n], t)
    ensures s.ring[j].owner == t && s.ring[j].event == Complete(Captured(input), t, ret)
  {
    hide Captured, Complete;
    ReachableHistory(cfg, steps, s);
    assert SlotHistory(steps, s, j);
    t := s.ring[j].owner;
    m := GrantOf(steps, j);
    k := LastBegin(steps[..m], t);
    i := LastBegin(steps[..k], t);
    input := steps[i].action.input;
    ret := steps[k].action.ret;
  }

  /** The enter that slot `j` reports. */
  ghost function EnterOf(steps: seq<Step>, t: Tid, j: nat): int
    requires j < GrantCount(steps)
  {
    var k := LastBegin(steps[..GrantOf(steps, j)], t);
    if k < 0 then -1 else LastBegin(steps[..k], t)
  }

  /** A later reservation by the same thread comes after a later call. */
  ghost predicate Separate(steps: seq<Step>, s: State, t: Tid) {
    && GrantCount(steps) == |s.ring|
    && (PcOf(s, t).Found? ==>
          forall j :: 0 <= j < |s.ring| && s.ring[j].owner == t ==> GrantOf(steps, j) < LastBegin(steps, t))
    && (forall j, j' :: 0 <= j < j' < |s.ring| && s.ring[j].owner == s.ring[j'].owner == t ==>
          GrantOf(steps, j) < LastBegin(steps[..GrantOf(steps, j')], t))
  }

  /** How a step changes the owners of the slots and the threads that have found their entries. */
  lemma OwnersNext(cfg: Config, s: State, step: Step, t: Tid)
    requires Enabled(s, step) && ThreadOk(cfg, s, step.tid)
    ensures var s' := Next(cfg, s, step);
            && |s'.ring| == |s.ring| + (if Grants(step) then 1 else 0)
            && (forall j :: 0 <= j < |s.ring| ==> s'.ring[j].owner == s.ring[j].owner)
            && (Grants(step) ==> s'.ring[|s.ring|].owner == step.tid && PcOf(s, step.tid).Found?)
            && (Begins(step, t) ==> !Grants(step))
            && (PcOf(s', t).Found? && !Begins(step, t) ==> PcOf(s, t).Found? && !(Grants(step) && step.tid == t))
  {
    hide Next, FilledUpTo, Captured, UpdateAny, Complete, Traced;
    MoverNext(cfg, s, step);
    if t != step.tid {
      PlaceKept(cfg, s, step, t);
    }
  }

  lemma SeparateStep(cfg: Config, init: seq<Step>, s: State, step: Step, t: Tid)
    requires Enabled(s, step) && ThreadOk(cfg, s, step.tid) && Separate(init, s, t)
    ensures Separate(init + [step], Next(cfg, s, step), t)
  {
    hide Next, Enabled, ThreadOk, LastBegin, GrantOf, GrantCount, Begins, Grants;
    var steps := init + [step];
    var s' := Next(cfg, s, step);
    Snoc(init, step, steps);
    OwnersNext(cfg, s, step, t);
    assert steps[..|init|] == init;
    if PcOf(s', t).Found? {
      forall j | 0 <= j < |s'.ring| && s'.ring[j].owner == t ensures GrantOf(steps, j) < LastBegin(steps, t) {
        assert j < |s.ring| && s.ring[j].owner == t;
        assert GrantOf(init, j) < |init|;
      }
    }
    forall j, j' | 0 <= j < j' < |s'.ring| && s'.ring[j].owner == s'.ring[j'].owner == t
      ensures GrantOf(steps, j) < LastBegin(steps[..GrantOf(steps, j')], t)
    {
      assert s.ring[j].owner == t;
      if j' < |s.ring| {
        assert s.ring[j'].owner == t;
      }
    }
  }

  lemma {:induction false} ReachableSeparate(cfg: Config, steps: seq<Step>, s: State, t: Tid)
    requires Reaches(cfg, steps, s)
    ensures Separate(steps, s, t)
    decreases |steps|
  {
    if steps != [] {
      hide Next, Separate;
      var init := steps[..|steps| - 1];
      var before := Exec(cfg, START, init).value;
      ReachableSeparate(cfg, init, before, t);
      ReachableInv(cfg, init, before);
      assert ThreadOk(cfg, before, steps[|steps| - 1].tid);
      SeparateStep(cfg, init, before, steps[|steps| - 1], t);
      assert steps == init + [steps[|steps| - 1]];
    }
  }

  /** No enter is reported twice: two slots of a thread belong to different enters, the later
      slot to the later enter. */
  lemma NoEnterReportedTwice(cfg: Config, steps: seq<Step>, s: State, j: nat, j': nat)
    requires Reaches(cfg, steps, s) && j < j' < |s.ring| && s.ring[j].owner == s.ring[j'].owner
    ensures j' < GrantCount(steps)
    ensures 0 <= EnterOf(steps, s.ring[j].owner, j) < EnterOf(steps, s.ring[j].owner, j')
  {
    hide Captured, Complete;
    var t := s.ring[j].owner;
    ReachableHistory(cfg, steps, s);
    ReachableSeparate(cfg, steps, s, t);
    assert SlotHistory(steps, s, j) && SlotHistory(steps, s, j');
    var k := LastBegin(steps[..GrantOf(steps, j)], t);
    var k' := LastBegin(steps[..GrantOf(steps, j')], t);
    assert k < k';
    assert Begins(steps[..k'][k], t);
  }

  /** Between handlers, an entry in the map is what the thread's last call captured, and that call
      was an enter: a thread whose last call was an exit has no entry. */
  lemma EntryIsLastEnter(cfg: Config, steps: seq<Step>, s: State, t: Tid)
    requires Reaches(cfg, steps, s) && t !in s.pcs && t in s.inflight
    ensures LastBegin(steps, t) >= 0
    ensures var step := steps[LastBegin(steps, t)];
            step.action.BeginEnter? && s.inflight[t] == Captured(step.action.input)
  {
    hide Captured;
    ReachableHistory(cfg, steps, s);
    assert ThreadHistory(steps, s, t);
    assert steps[..|steps|] == steps;
  }

  /** However many reservations failed, a run in which every traced thread's last call is an exit
      leaves the map empty. */
  lemma BalancedRunLeavesNothing(cfg: Config, steps: seq<Step>, s: State)
    requires Reaches(cfg, steps, s) && Quiescent(s)
    requires forall t :: Traced(cfg, t) && LastBegin(steps, t) >= 0 ==> steps[LastBegin(steps, t)].action.BeginExit?
    ensures s.inflight == map[]
  {
    ReachableInv(cfg, steps, s);
    forall t ensures t !in s.inflight {
      if t in s.inflight {
        EntryIsLastEnter(cfg, steps, s, t);
        assert false;
      }
    }
  }

  /** Whatever user memory did, every submitted event has the shape of a captured record. */
  lemma EveryEventHasShape(cfg: Config, steps: seq<Step>, s: State, j: nat)
    requires Reaches(cfg, steps, s) && j < |s.ring| && s.ring[j].committed
    ensures var e := s.ring[j].event;
            && StringShape(e.syscallId, e.str, e.strLen)
            && AddressShape(e.syscallId, e.saFamily, e.saAddr4, e.saAddr6, e.saScopeId, e.saValid)
  {
    hide Captured, StringShape, AddressShape;
    var t, input, ret, i, k, m := EventIsPaired(cfg, steps, s, j);
    CapturedShape(input);
  }
}
