/** Which threads are traced and how an event names them, in arithmetic on the id word: the process in
    its high half, the thread in its low half. */
module TargetFilter {
  import opened Basics
  import opened SyscallRecords
  import opened Capture
  import opened Protocol

  /** An enter that finds room is stored exactly when the high half of its id word is the target, or
      every process is traced; the others leave the map alone. */
  lemma EnterStoredIff(cfg: Config, s: State, id: Tid, input: EnterInput)
    requires id !in s.pcs && (id in s.inflight || |s.inflight| < cfg.capacity)
    ensures Enabled(s, Step(id, BeginEnter(input)))
    ensures var s1 := Next(cfg, s, Step(id, BeginEnter(input)));
            && s1.inflight == s.inflight
            && (Enabled(s1, Step(id, Store)) <==>
                  cfg.target == 0 || (id / 0x1_0000_0000 - cfg.target) % 0x1_0000_0000 == 0)
            && (Enabled(s1, Step(id, Store)) ==>
                  var s2 := Next(cfg, s1, Step(id, Store));
                  id in s2.inflight && s2.inflight[id] == Captured(input))
  {
    TracedIff(cfg, id);
    hide Captured, CopyField, Traced;
  }

  /** Every thread with an entry or inside a handler, and every reported thread, is a target; and an
      event names its thread by the two halves of the id word. */
  lemma ReportedIsTarget(cfg: Config, steps: seq<Step>, s: State, id: Tid)
    requires Reaches(cfg, steps, s)
    requires id in s.inflight || id in s.pcs || exists j :: 0 <= j < |s.ring| && s.ring[j].owner == id
    ensures cfg.target == 0 || (id / 0x1_0000_0000 - cfg.target) % 0x1_0000_0000 == 0
  {
    hide Next, Enabled, Captured, CopyField, Traced;
    TracedIff(cfg, id);
    ReachableInv(cfg, steps, s);
    OwnersTraced(cfg, steps, s);
    assert ThreadOk(cfg, s, id);
  }

  lemma {:induction false} OwnersTraced(cfg: Config, steps: seq<Step>, s: State)
    requires Reaches(cfg, steps, s)
    ensures forall j :: 0 <= j < |s.ring| ==> Traced(cfg, s.ring[j].owner)
    decreases |steps|
  {
    if steps != [] {
      hide Next, Traced;
      var init, step := steps[..|steps| - 1], steps[|steps| - 1];
      var before := Exec(cfg, START, init).value;
      OwnersTraced(cfg, init, before);
      ReachableInv(cfg, init, before);
      assert ThreadOk(cfg, before, step.tid);
      hide Captured, FilledUpTo, Complete, SlotOk, Inv;
      MoverNext(cfg, before, step);
    }
  }

  lemma EventNamesThread(v: EnterState, id: Tid, ret: I64)
    ensures (Complete(v, id, ret).tgid - id / 0x1_0000_0000) % 0x1_0000_0000 == 0
    ensures (Complete(v, id, ret).pid - id) % 0x1_0000_0000 == 0
  {
    var tgid, pid := Complete(v, id, ret).tgid, Complete(v, id, ret).pid;
    ToI32Is(id / 0x1_0000_0000, tgid);
    ToI32Is(id, pid);
    Opposite(id / 0x1_0000_0000, tgid);
    Opposite(id, pid);
  }

  lemma Opposite(x: int, y: int)
    requires (x - y) % 0x1_0000_0000 == 0
    ensures (y - x) % 0x1_0000_0000 == 0
  {
  }
}
