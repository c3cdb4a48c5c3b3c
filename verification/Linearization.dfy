/** Interleaved handlers refine whole ones: an enter takes effect at its store and an exit at
    its reservation (at its lookup when it finds nothing).  The order of calls is kept just as well
    if an exit takes effect at its deletion. */
module Linearization {
  import opened Basics
  import opened SyscallRecords
  import opened Capture
  import opened Protocol
  import opened AtomicTracer

  /** Where an exit that finds its entry takes effect. */
  datatype Point = AtReservation | AtDeletion

  /** The handler run that takes effect at a step, if one does. */
  function EffectAt(cfg: Config, s: State, step: Step, point: Point): seq<Op>
    requires Enabled(s, step)
  {
    var t := step.tid;
    match step.action
    case BeginEnter(input) => if Traced(cfg, t) then [] else [Enter(t, input)]
    case Store => [Enter(t, PcOf(s, t).input)]
    case BeginExit(ret) => if Traced(cfg, t) && t in s.inflight then [] else [Exit(t, ret, false)]
    case Reserve(memory) => if point.AtReservation? then [Exit(t, PcOf(s, t).ret, memory.Some?)] else []
    case Remove => if point.AtDeletion? then [Exit(t, PcOf(s, t).ret, PcOf(s, t).Submitted?)] else []
    case _ => []
  }

  /** The handler runs of an interleaving in the order in which they take effect. */
  function Effects(cfg: Config, steps: seq<Step>, point: Point): seq<Op>
    requires Exec(cfg, START, steps).Some?
    decreases |steps|
  {
    if steps == [] then []
    else
      var init := steps[..|steps| - 1];
      Effects(cfg, init, point) + EffectAt(cfg, Exec(cfg, START, init).value, steps[|steps| - 1], point)
  }

  /** A thread whose exit has taken effect but whose entry is still in the map. */
  predicate Leaving(pc: Pc) {
    pc.Dropping? || pc.Filling? || pc.Submitted?
  }

  /** What a slot holds or will hold. */
  ghost function FinalEvent(s: State, slot: Slot): Event {
    if slot.committed then slot.event
    else
      var pc := PcOf(s, slot.owner);
      if pc.Filling? && slot.owner in s.inflight then Complete(s.inflight[slot.owner], slot.owner, pc.ret)
      else slot.event
  }

  ghost function AbstractMap(s: State): map<Tid, EnterState> {
    map t | t in s.inflight && !Leaving(PcOf(s, t)) :: s.inflight[t]
  }

  ghost function AbstractRing(s: State): seq<Event> {
    seq(|s.ring|, j requires 0 <= j < |s.ring| => FinalEvent(s, s.ring[j]))
  }

  ghost function Abstract(s: State): Snapshot {
    Snapshot(AbstractMap(s), AbstractRing(s))
  }

  /** `bpf_map_update_elem` refuses: the key is absent and the map is full. */
  predicate Refused(cfg: Config, s: State, step: Step) {
    step.action.Store? && step.tid !in s.inflight && |s.inflight| >= cfg.capacity
  }

  lemma MapOfOthers(cfg: Config, s: State, step: Step)
    requires Inv(cfg, s) && Enabled(s, step)
    ensures AbstractMap(Next(cfg, s, step)) - {step.tid} == AbstractMap(s) - {step.tid}
  {
    hide Next, Captured, CopyField, FilledUpTo;
    var m, m' := AbstractMap(s), AbstractMap(Next(cfg, s, step));
    assert ThreadOk(cfg, s, step.tid);
    forall u | u != step.tid
      ensures u in m' <==> u in m
      ensures u in m ==> m'[u] == m[u]
    {
      OthersKept(cfg, s, step, u);
    }
  }

  /** What the mover's own key is after a step, in the two maps. */
  lemma KeyOfMover(cfg: Config, s: State, step: Step)
    requires ThreadOk(cfg, s, step.tid) && Enabled(s, step) && !Refused(cfg, s, step)
    ensures var t := step.tid;
            var m, m' := AbstractMap(s), AbstractMap(Next(cfg, s, step));
            match step.action
            case Store => t in m' && m'[t] == Captured(PcOf(s, t).input)
            case Reserve(_) => t in m && t !in m'
            case _ => (t in m' <==> t in m) && (t in m ==> m'[t] == m[t])
  {
    hide Captured, CopyField, FilledUpTo, Next, Traced, Complete;
    MoverNext(cfg, s, step);
  }

  lemma MapOfMover(cfg: Config, s: State, step: Step)
    requires ThreadOk(cfg, s, step.tid) && Enabled(s, step) && !Refused(cfg, s, step)
    requires |AbstractMap(s)| <= |s.inflight|
    ensures var t := step.tid;
            var m, m' := AbstractMap(Next(cfg, s, step)), ApplyAll(cfg, Abstract(s), EffectAt(cfg, s, step, AtReservation)).inflight;
            && (t in m <==> t in m')
            && (t in m ==> m[t] == m'[t])
            && m' - {t} == AbstractMap(s) - {t}
  {
    hide Next, Captured, CopyField, FilledUpTo, AbstractRing;
    KeyOfMover(cfg, s, step);
    var ops := EffectAt(cfg, s, step, AtReservation);
    if ops != [] {
      ApplyOne(cfg, Abstract(s), ops[0]);
    }
  }

  lemma MapSimulated(cfg: Config, s: State, step: Step)
    requires Inv(cfg, s) && Enabled(s, step) && !Refused(cfg, s, step)
    ensures AbstractMap(Next(cfg, s, step)) == ApplyAll(cfg, Abstract(s), EffectAt(cfg, s, step, AtReservation)).inflight
  {
    var t := step.tid;
    var m, m' := AbstractMap(Next(cfg, s, step)), ApplyAll(cfg, Abstract(s), EffectAt(cfg, s, step, AtReservation)).inflight;
    assert ThreadOk(cfg, s, t);
    SubsetSize(AbstractMap(s).Keys, s.inflight.Keys);
    MapOfOthers(cfg, s, step);
    MapOfMover(cfg, s, step);
    EqualOffKey(m, m', t);
  }

  lemma EqualOffKey<K, V>(m: map<K, V>, m': map<K, V>, k: K)
    requires m - {k} == m' - {k}
    requires k in m <==> k in m'
    requires k in m ==> m[k] == m'[k]
    ensures m == m'
  {
    forall x | x in m || x in m'
      ensures x in m && x in m' && m[x] == m'[x]
    {
      if x != k {
        assert x in m - {k} || x in m' - {k};
        assert (m - {k})[x] == (m' - {k})[x];
      }
    }
  }

  lemma SubsetSize<T>(small: set<T>, large: set<T>)
    requires small <= large
    ensures |small| <= |large|
  {
    assert large == small + (large - small);
  }

  /** A step leaves what every slot holds or will hold. */
  lemma FinalEventKept(cfg: Config, s: State, step: Step, j: nat)
    requires ThreadOk(cfg, s, step.tid) && Enabled(s, step)
    requires j < |s.ring| && SlotOk(s, j)
    ensures j < |Next(cfg, s, step).ring|
    ensures FinalEvent(Next(cfg, s, step), Next(cfg, s, step).ring[j]) == FinalEvent(s, s.ring[j])
  {
    hide Captured, CopyField;
    var t := step.tid;
    if s.ring[j].owner != t {
      hide Next, FilledUpTo;
      OthersKept(cfg, s, step, s.ring[j].owner);
    } else if step.action.Submit? && !s.ring[j].committed {
      FilledIsComplete(s.ring[j].event, s.inflight[t], t, PcOf(s, t).ret);
    }
  }

  /** A granted reservation adds the event that its slot will hold; no other step adds a slot. */
  lemma RingOfMover(cfg: Config, s: State, step: Step)
    requires ThreadOk(cfg, s, step.tid) && Enabled(s, step)
    ensures var s' := Next(cfg, s, step);
            var t := step.tid;
            if step.action.Reserve? && step.action.memory.Some? then
              && |s'.ring| == |s.ring| + 1
              && t in s.inflight
              && FinalEvent(s', s'.ring[|s.ring|]) == Complete(s.inflight[t], t, PcOf(s, t).ret)
            else |s'.ring| == |s.ring|
  {
    hide Captured, CopyField, FilledUpTo, UpdateAny, Complete;
  }

  /** The event that a step adds to the abstract ring. */
  ghost function Granted(s: State, step: Step): seq<Event> {
    var t := step.tid;
    if step.action.Reserve? && step.action.memory.Some? && PcOf(s, t).Found? && t in s.inflight
    then [Complete(s.inflight[t], t, PcOf(s, t).ret)] else []
  }

  lemma RingGrows(cfg: Config, s: State, step: Step)
    requires Inv(cfg, s) && Enabled(s, step)
    ensures AbstractRing(Next(cfg, s, step)) == AbstractRing(s) + Granted(s, step)
  {
    assert ThreadOk(cfg, s, step.tid);
    RingOfMover(cfg, s, step);
    hide Next, FinalEvent, Complete, ThreadOk, SlotOk, Traced;
    var s' := Next(cfg, s, step);
    forall j | 0 <= j < |s.ring|
      ensures j < |s'.ring| && FinalEvent(s', s'.ring[j]) == FinalEvent(s, s.ring[j])
    {
      assert SlotOk(s, j);
      FinalEventKept(cfg, s, step, j);
    }
  }

  lemma EffectOnRing(cfg: Config, s: State, step: Step)
    requires ThreadOk(cfg, s, step.tid) && Enabled(s, step)
    ensures ApplyAll(cfg, Abstract(s), EffectAt(cfg, s, step, AtReservation)).ring == AbstractRing(s) + Granted(s, step)
  {
    hide FilledUpTo, Complete, AbstractRing, ApplyAll, Traced, Captured, UpdateAny;
    var ops := EffectAt(cfg, s, step, AtReservation);
    if ops != [] {
      ApplyOne(cfg, Abstract(s), ops[0]);
    } else {
      ApplyNone(cfg, Abstract(s));
    }
  }

  lemma RingSimulated(cfg: Config, s: State, step: Step)
    requires Inv(cfg, s) && Enabled(s, step)
    ensures AbstractRing(Next(cfg, s, step)) == ApplyAll(cfg, Abstract(s), EffectAt(cfg, s, step, AtReservation)).ring
  {
    assert ThreadOk(cfg, s, step.tid);
    hide Next, ThreadOk, SlotOk, Abstract, AbstractRing, ApplyAll, EffectAt, Granted;
    RingGrows(cfg, s, step);
    EffectOnRing(cfg, s, step);
  }

  /** A step that refuses no store does to the abstract store what its effect says. */
  lemma StepSimulated(cfg: Config, s: State, step: Step)
    requires Inv(cfg, s) && Enabled(s, step) && !Refused(cfg, s, step)
    ensures Abstract(Next(cfg, s, step)) == ApplyAll(cfg, Abstract(s), EffectAt(cfg, s, step, AtReservation))
  {
    MapSimulated(cfg, s, step);
    RingSimulated(cfg, s, step);
  }

  // ---------------------------------------------------------------- whole runs

  ghost predicate RefusesNothing(cfg: Config, steps: seq<Step>)
    requires Exec(cfg, START, steps).Some?
    decreases |steps|
  {
    steps == [] ||
    (var init := steps[..|steps| - 1];
     RefusesNothing(cfg, init) && !Refused(cfg, Exec(cfg, START, init).value, steps[|steps| - 1]))
  }

  /** In every state of a run that refuses no store, mid-flight handlers or not, the abstract
      store is what the effects so far produce. */
  lemma {:induction false} RunSimulated(cfg: Config, steps: seq<Step>, s: State)
    requires Reaches(cfg, steps, s) && RefusesNothing(cfg, steps)
    ensures Abstract(s) == ApplyAll(cfg, EMPTY, Effects(cfg, steps, AtReservation))
    decreases |steps|
  {
    if steps == [] {
      assert Abstract(START) == EMPTY;
    } else {
      var init := steps[..|steps| - 1];
      var step := steps[|steps| - 1];
      var before := Exec(cfg, START, init).value;
      RunSimulated(cfg, init, before);
      ReachableInv(cfg, init, before);
      StepSimulated(cfg, before, step);
      ApplyAllSplit(cfg, EMPTY, Effects(cfg, init, AtReservation), EffectAt(cfg, before, step, AtReservation));
    }
  }

  /** The call that has begun but not taken effect. */
  function Pending(pc: Pc, point: Point): seq<Call> {
    match pc
    case Idle => []
    case Entering(input) => [EnterCall(input)]
    case Found(ret) => [ExitCall(ret)]
    case _ => if point.AtDeletion? then [ExitCall(pc.ret)] else []
  }

  lemma NothingYet(t: Tid, point: Point)
    ensures CallsIn([], t) + Pending(Idle, point) == []
  {
  }

  lemma OrderStep(cfg: Config, s: State, step: Step, t: Tid, point: Point)
    requires Enabled(s, step)
    ensures CallsIn(EffectAt(cfg, s, step, point), t) + Pending(PcOf(Next(cfg, s, step), t), point)
            == Pending(PcOf(s, t), point) + if step.tid == t then CallOfStep(step) else []
  {
    hide Captured, CopyField, UpdateAny, Traced, Next;
    MoverNext(cfg, s, step);
    if step.tid != t {
      PlaceKept(cfg, s, step, t);
    }
    var ops := EffectAt(cfg, s, step, point);
    if ops != [] {
      assert ops[..0] == [];
      assert CallsIn(ops, t) == if step.tid == t then [CallOf(ops[0])] else [];
    }
  }

  /** Effects keep each thread's order: a handler takes effect between its first and its last
      step, so no two handlers of a thread change places. */
  lemma {:induction false} EffectsKeepOrder(cfg: Config, steps: seq<Step>, s: State, t: Tid, point: Point)
    requires Reaches(cfg, steps, s)
    ensures CallsIn(Effects(cfg, steps, point), t) + Pending(PcOf(s, t), point) == CallsOf(steps, t)
    decreases |steps|
  {
    hide Next, EffectAt, Enabled, Pending, CallOfStep, CallsIn;
    if steps == [] {
      NothingYet(t, point);
    } else {
      var init := steps[..|steps| - 1];
      var step := steps[|steps| - 1];
      var before := Exec(cfg, START, init).value;
      var effect := EffectAt(cfg, before, step, point);
      var call := if step.tid == t then CallOfStep(step) else [];
      EffectsKeepOrder(cfg, init, before, t, point);
      OrderStep(cfg, before, step, t, point);
      CallsInSplit(Effects(cfg, init, point), effect, t);
      calc {
        CallsIn(Effects(cfg, steps, point), t) + Pending(PcOf(s, t), point);
        CallsIn(Effects(cfg, init, point), t) + CallsIn(effect, t) + Pending(PcOf(s, t), point);
        CallsIn(Effects(cfg, init, point), t) + (CallsIn(effect, t) + Pending(PcOf(s, t), point));
        CallsIn(Effects(cfg, init, point), t) + (Pending(PcOf(before, t), point) + call);
        CallsIn(Effects(cfg, init, point), t) + Pending(PcOf(before, t), point) + call;
        CallsOf(init, t) + call;
      }
    }
  }

  /** A run's beginnings are runs, and their effects come first. */
  lemma {:induction false} EffectsOfBeginning(cfg: Config, steps: seq<Step>, n: nat, point: Point)
    requires Exec(cfg, START, steps).Some? && n <= |steps|
    ensures Exec(cfg, START, steps[..n]).Some?
    ensures var k := |Effects(cfg, steps[..n], point)|;
            k <= |Effects(cfg, steps, point)| && Effects(cfg, steps, point)[..k] == Effects(cfg, steps[..n], point)
    decreases |steps|
  {
    hide Next, Enabled, EffectAt;
    if n == |steps| {
      assert steps[..n] == steps;
    } else {
      var init := steps[..|steps| - 1];
      assert init[..n] == steps[..n];
      EffectsOfBeginning(cfg, init, n, point);
    }
  }

  /** A handler takes effect after its first and before its last step, so a handler that ends before
      another begins takes effect before it. */
  lemma EffectsKeepTime(cfg: Config, steps: seq<Step>, n: nat, point: Point)
    requires Exec(cfg, START, steps).Some? && n <= |steps|
    ensures CutAt(cfg, steps, Effects(cfg, steps, point), n)
  {
    hide Exec, Effects, CallsOf, CallsIn;
    EffectsOfBeginning(cfg, steps, n, point);
    var ops, k := Effects(cfg, steps, point), |Effects(cfg, steps[..n], point)|;
    var s := Exec(cfg, START, steps[..n]).value;
    forall t ensures InTime(cfg, steps[..n], ops[..k], t) {
      EffectsKeepOrder(cfg, steps[..n], s, t, point);
    }
  }

  /** Refinement: an interleaving that refuses no store and leaves no handler mid-flight is
      matched by its handlers run all at once, in the order in which they take effect. */
  lemma RunMatchesEffects(cfg: Config, steps: seq<Step>, s: State)
    requires Reaches(cfg, steps, s) && Quiescent(s) && RefusesNothing(cfg, steps)
    ensures SameStory(cfg, steps, s, Effects(cfg, steps, AtReservation))
  {
    var ops := Effects(cfg, steps, AtReservation);
    forall t ensures CallsIn(ops, t) == CallsOf(steps, t) {
      EffectsKeepOrder(cfg, steps, s, t, AtReservation);
    }
    forall n | 0 <= n <= |steps| ensures CutAt(cfg, steps, ops, n) {
      EffectsKeepTime(cfg, steps, n, AtReservation);
    }
    RunSimulated(cfg, steps, s);
    ReachableInv(cfg, steps, s);
    assert AbstractMap(s) == s.inflight;
    forall j | 0 <= j < |s.ring| ensures FinalEvent(s, s.ring[j]) == s.ring[j].event {
      assert SlotOk(s, j);
    }
    assert AbstractRing(s) == Events(s.ring);
  }

  // ---------------------------------------------------------------- few threads

  function TracedOf(cfg: Config, threads: set<Tid>): set<Tid> {
    set t | t in threads && Traced(cfg, t)
  }

  /** Only threads that run have entries. */
  lemma {:induction false} EntriesOfRunners(cfg: Config, threads: set<Tid>, steps: seq<Step>, s: State)
    requires Reaches(cfg, steps, s) && RunsOver(threads, steps)
    ensures s.inflight.Keys + s.pcs.Keys <= TracedOf(cfg, threads)
    decreases |steps|
  {
    if steps != [] {
      var init := steps[..|steps| - 1];
      var step := steps[|steps| - 1];
      var before := Exec(cfg, START, init).value;
      assert RunsOver(threads, init);
      EntriesOfRunners(cfg, threads, init, before);
      ReachableInv(cfg, init, before);
      ReachableInv(cfg, steps, s);
      assert ThreadOk(cfg, before, step.tid);
      forall u | u in s.inflight || u in s.pcs ensures u in TracedOf(cfg, threads) {
        assert ThreadOk(cfg, s, u);
        if u != step.tid {
          OthersKept(cfg, before, step, u);
        }
      }
    }
  }

  /** With no more traced threads than entries, no store is ever refused. */
  lemma {:induction false} FewThreadsRefuseNothing(cfg: Config, threads: set<Tid>, steps: seq<Step>, s: State)
    requires Reaches(cfg, steps, s) && RunsOver(threads, steps)
    requires |TracedOf(cfg, threads)| <= cfg.capacity
    ensures RefusesNothing(cfg, steps)
    decreases |steps|
  {
    if steps != [] {
      var init := steps[..|steps| - 1];
      var step := steps[|steps| - 1];
      var before := Exec(cfg, START, init).value;
      assert RunsOver(threads, init);
      FewThreadsRefuseNothing(cfg, threads, init, before);
      EntriesOfRunners(cfg, threads, init, before);
      var t := step.tid;
      if t !in before.inflight && step.action.Store? {
        assert |before.inflight.Keys + {t}| == |before.inflight| + 1;
        SubsetSize(before.inflight.Keys + {t}, TracedOf(cfg, threads));
      }
    }
  }

  lemma FewThreadsLookAtomic(cfg: Config, threads: set<Tid>)
    requires |TracedOf(cfg, threads)| <= cfg.capacity
    ensures LooksAtomic(cfg, threads)
  {
    forall steps, s | Reaches(cfg, steps, s) && Quiescent(s) && RunsOver(threads, steps)
      ensures exists ops :: SameStory(cfg, steps, s, ops)
    {
      FewThreadsRefuseNothing(cfg, threads, steps, s);
      RunMatchesEffects(cfg, steps, s);
    }
  }
}
