/** A map of at most one entry: then at most one exit is past its lookup, and the tracer always looks
    as if its handlers ran all at once, with each exit taking effect at its deletion. */
module SmallMaps {
  import opened SyscallRecords
  import opened Capture
  import opened Protocol
  import opened AtomicTracer
  import opened Linearization

  /** Between its reservation and its deletion. */
  predicate Reporting(pc: Pc) {
    pc.Filling? || pc.Submitted?
  }

  ghost function Reporters(s: State): set<Tid> {
    set t | t in s.pcs && Reporting(s.pcs[t])
  }

  ghost predicate HasLastSlot(s: State, t: Tid) {
    Reporting(PcOf(s, t)) ==> PcOf(s, t).slot == |s.ring| - 1
  }

  ghost predicate Small(cfg: Config, s: State) {
    && cfg.capacity <= 1
    && Inv(cfg, s)
    && forall t :: HasLastSlot(s, t)
  }

  /** The events of the exits that have deleted their entries. */
  ghost function SettledRing(s: State): seq<Event> {
    if Reporters(s) != {} && s.ring != [] then Events(s.ring[..|s.ring| - 1]) else Events(s.ring)
  }

  ghost function Settled(s: State): Snapshot {
    Snapshot(s.inflight, SettledRing(s))
  }

  lemma OneEntry(m: map<Tid, EnterState>, t: Tid, u: Tid)
    requires |m| <= 1 && t in m && u in m
    ensures t == u
  {
    if t != u {
      assert |m.Keys| == |m|;
      Linearization.SubsetSize({t, u}, m.Keys);
    }
  }

  /** While one thread is past its lookup, no other is. */
  lemma ReportersAre(cfg: Config, s: State, t: Tid)
    requires cfg.capacity <= 1 && Inv(cfg, s) && Exiting(PcOf(s, t))
    ensures Reporters(s) == if Reporting(PcOf(s, t)) then {t} else {}
  {
    hide FilledUpTo, SlotOk;
    assert ThreadOk(cfg, s, t);
    forall u | u in Reporters(s) ensures u == t {
      assert ThreadOk(cfg, s, u);
      OneEntry(s.inflight, t, u);
    }
  }

  lemma ReportersNext(cfg: Config, s: State, step: Step)
    requires Enabled(s, step)
    ensures var s' := Next(cfg, s, step);
            Reporters(s') == if Reporting(PcOf(s', step.tid)) then Reporters(s) + {step.tid} else Reporters(s) - {step.tid}
  {
    hide Next, Enabled;
    var s' := Next(cfg, s, step);
    forall u ensures u in Reporters(s') <==> if u == step.tid then Reporting(PcOf(s', u)) else u in Reporters(s) {
      if u != step.tid {
        PlaceKept(cfg, s, step, u);
      }
    }
  }

  lemma LastSlotKept(cfg: Config, s: State, step: Step, u: Tid)
    requires Small(cfg, s) && Enabled(s, step)
    ensures HasLastSlot(Next(cfg, s, step), u)
  {
    hide Next, Inv, Captured, UpdateAny, FilledUpTo;
    MoverNext(cfg, s, step);
    assert HasLastSlot(s, u);
    if u != step.tid {
      PlaceKept(cfg, s, step, u);
      assert Reporting(PcOf(s, u)) ==> u in Reporters(s);
      if Exiting(PcOf(s, step.tid)) {
        ReportersAre(cfg, s, step.tid);
      }
    }
  }

  /** A step changes the settled ring only where an exit that was granted a slot deletes its entry. */
  lemma RingSettled(cfg: Config, s: State, step: Step)
    requires Small(cfg, s) && Enabled(s, step)
    ensures var pc := PcOf(s, step.tid);
            && (step.action.Remove? ==> step.tid in s.inflight)
            && SettledRing(Next(cfg, s, step)) ==
               if step.action.Remove? && pc.Submitted?
               then SettledRing(s) + [Complete(s.inflight[step.tid], step.tid, pc.ret)]
               else SettledRing(s)
  {
    hide Next, Captured, UpdateAny, FilledUpTo, SlotOk, Complete, Reporters, Traced;
    var t := step.tid;
    var s', pc := Next(cfg, s, step), PcOf(s, t);
    assert ThreadOk(cfg, s, t) && HasLastSlot(s, t);
    MoverNext(cfg, s, step);
    ReportersNext(cfg, s, step);
    if !Exiting(pc) {
      NotReporting(s, t);
      assert s'.ring == s.ring && Reporters(s') == Reporters(s);
    } else {
      ReportersAre(cfg, s, t);
      var n := |s.ring|;
      match step.action
      case Reserve(memory) =>
        assert Reporters(s) == {};
        assert memory.Some? ==> s'.ring[..n] == s.ring && Reporters(s') == {t};
      case Copy => assert s'.ring[..n - 1] == s.ring[..n - 1];
      case Submit => assert s'.ring[..n - 1] == s.ring[..n - 1];
      case Remove =>
        if pc.Submitted? {
          assert s.ring == s.ring[..n - 1] + [s.ring[n - 1]];
        }
    }
  }

  lemma NotReporting(s: State, t: Tid)
    requires !Reporting(PcOf(s, t))
    ensures t !in Reporters(s)
  {
  }

  lemma StepSettled(cfg: Config, s: State, step: Step)
    requires Small(cfg, s) && Enabled(s, step)
    ensures Settled(Next(cfg, s, step)) == ApplyAll(cfg, Settled(s), EffectAt(cfg, s, step, AtDeletion))
  {
    hide Next, Captured, UpdateAny, FilledUpTo, SlotOk, Complete, SettledRing, ApplyAll;
    assert ThreadOk(cfg, s, step.tid);
    MoverNext(cfg, s, step);
    RingSettled(cfg, s, step);
    var ops := EffectAt(cfg, s, step, AtDeletion);
    if ops != [] {
      ApplyOne(cfg, Settled(s), ops[0]);
    } else {
      ApplyNone(cfg, Settled(s));
    }
  }

  /** In every state of every run over such a map, map and settled ring are those of the handlers run
      all at once so far, refused stores included. */
  lemma {:induction false} RunSettled(cfg: Config, steps: seq<Step>, s: State)
    requires cfg.capacity <= 1 && Reaches(cfg, steps, s)
    ensures Small(cfg, s)
    ensures Settled(s) == ApplyAll(cfg, EMPTY, Effects(cfg, steps, AtDeletion))
    decreases |steps|
  {
    ReachableInv(cfg, steps, s);
    hide Inv, Next, EffectAt, Enabled;
    if steps == [] {
      assert Settled(START) == EMPTY;
    } else {
      var init, step := steps[..|steps| - 1], steps[|steps| - 1];
      var before := Exec(cfg, START, init).value;
      RunSettled(cfg, init, before);
      StepSettled(cfg, before, step);
      forall t ensures HasLastSlot(s, t) {
        LastSlotKept(cfg, before, step, t);
      }
      hide Settled;
      ApplyAllSplit(cfg, EMPTY, Effects(cfg, init, AtDeletion), EffectAt(cfg, before, step, AtDeletion));
    }
  }

  lemma SmallMapsLookAtomic(cfg: Config, threads: set<Tid>)
    requires cfg.capacity <= 1
    ensures LooksAtomic(cfg, threads)
  {
    hide Exec, Effects, CallsIn, CallsOf, ApplyAll, CutAt;
    forall steps, s | Reaches(cfg, steps, s) && Quiescent(s) && RunsOver(threads, steps)
      ensures exists ops :: SameStory(cfg, steps, s, ops)
    {
      var ops := Effects(cfg, steps, AtDeletion);
      RunSettled(cfg, steps, s);
      assert Reporters(s) == {};
      forall t ensures CallsIn(ops, t) == CallsOf(steps, t) {
        EffectsKeepOrder(cfg, steps, s, t, AtDeletion);
      }
      forall n | 0 <= n <= |steps| ensures CutAt(cfg, steps, ops, n) {
        EffectsKeepTime(cfg, steps, n, AtDeletion);
      }
      assert SameStory(cfg, steps, s, ops);
    }
  }
}
