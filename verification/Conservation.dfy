/** The tracer's books: every stored enter is reported, dropped, overwritten or still in the map. */
module Conservation {
  import opened Basics
  import opened Capture
  import opened Protocol

  datatype Tally = Tally(stored: nat, refused: nat, overwritten: nat, submitted: nat, dropped: nat)

  /** The books after one more step. */
  function Book(cfg: Config, s: State, step: Step, y: Tally): Tally
    requires Enabled(s, step)
  {
    var t := step.tid;
    match step.action
    case Store =>
      if t in s.inflight then y.(stored := y.stored + 1, overwritten := y.overwritten + 1)
      else if |s.inflight| < cfg.capacity then y.(stored := y.stored + 1)
      else y.(refused := y.refused + 1)
    case Submit => y.(submitted := y.submitted + 1)
    case Remove => if PcOf(s, t).Dropping? then y.(dropped := y.dropped + 1) else y
    case _ => y
  }

  /** What the columns count: stores after which the thread has an entry, or had one before, or has none;
      slots that are handed over; and deletions after a refused reservation. */
  lemma BookMeans(cfg: Config, s: State, step: Step, y: Tally)
    requires Enabled(s, step)
    ensures var s', y' := Next(cfg, s, step), Book(cfg, s, step, y);
            var t := step.tid;
            && y'.stored - y.stored == (if step.action.Store? && t in s'.inflight then 1 else 0)
            && y'.overwritten - y.overwritten == (if step.action.Store? && t in s.inflight then 1 else 0)
            && y'.refused - y.refused == (if step.action.Store? && t !in s'.inflight then 1 else 0)
            && y'.submitted - y.submitted == (if step.action.Submit? then 1 else 0)
            && y'.dropped - y.dropped == (if step.action.Remove? && PcOf(s, t).Dropping? then 1 else 0)
  {
    hide Next, Captured;
    MoverNext(cfg, s, step);
  }

  function Books(cfg: Config, steps: seq<Step>): Tally
    requires Exec(cfg, START, steps).Some?
    decreases |steps|
  {
    if steps == [] then Tally(0, 0, 0, 0, 0)
    else
      var init := steps[..|steps| - 1];
      Book(cfg, Exec(cfg, START, init).value, steps[|steps| - 1], Books(cfg, init))
  }

  /** Threads whose event is out but whose entry is still in the map. */
  function Reported(s: State): set<Tid> {
    set t | t in s.pcs && s.pcs[t].Submitted?
  }

  function CommittedCount(ring: seq<Slot>): nat {
    if ring == [] then 0
    else CommittedCount(ring[..|ring| - 1]) + if ring[|ring| - 1].committed then 1 else 0
  }

  lemma {:induction false} CommitOne(ring: seq<Slot>, j: nat, slot: Slot)
    requires j < |ring| && !ring[j].committed
    ensures CommittedCount(ring[j := slot]) == CommittedCount(ring) + if slot.committed then 1 else 0
  {
    var n := |ring| - 1;
    if j == n {
      assert ring[j := slot][..n] == ring[..n];
    } else {
      assert ring[j := slot][..n] == ring[..n][j := slot];
      CommitOne(ring[..n], j, slot);
    }
  }

  ghost predicate Balanced(s: State, y: Tally) {
    && y.stored + |Reported(s)| == y.submitted + y.dropped + y.overwritten + |s.inflight|
    && y.submitted == CommittedCount(s.ring)
  }

  /** How the set of reported threads changes. */
  lemma ReportedStep(cfg: Config, s: State, step: Step)
    requires Enabled(s, step) && ThreadOk(cfg, s, step.tid)
    ensures Reported(Next(cfg, s, step)) == if step.action.Submit? then Reported(s) + {step.tid} else Reported(s) - {step.tid}
    ensures step.tid in Reported(s) <==> PcOf(s, step.tid).Submitted?
  {
    hide Captured, CopyField, UpdateAny, FilledUpTo;
    var s' := Next(cfg, s, step);
    var t := step.tid;
    forall u ensures u in Reported(s') <==> if u == t then step.action.Submit? else u in Reported(s) {
      if u != t {
        OthersKept(cfg, s, step, u);
      }
    }
  }

  lemma ReportedSize(cfg: Config, s: State, step: Step)
    requires Enabled(s, step) && ThreadOk(cfg, s, step.tid)
    ensures |Reported(Next(cfg, s, step))|
            == |Reported(s)| + (if step.action.Submit? then 1 else 0) - (if PcOf(s, step.tid).Submitted? then 1 else 0)
  {
    hide Next, FilledUpTo, Reported;
    ReportedStep(cfg, s, step);
  }

  lemma RingStep(cfg: Config, s: State, step: Step)
    requires Enabled(s, step) && ThreadOk(cfg, s, step.tid)
    ensures CommittedCount(Next(cfg, s, step).ring) == CommittedCount(s.ring) + if step.action.Submit? then 1 else 0
  {
    hide Next, Captured, CopyField, UpdateAny, FilledUpTo;
    var s' := Next(cfg, s, step);
    var pc := PcOf(s, step.tid);
    MoverNext(cfg, s, step);
    match step.action {
      case Reserve(memory) =>
        if memory.Some? {
          assert s'.ring[..|s'.ring| - 1] == s.ring;
        }
      case Copy =>
        CommitOne(s.ring, pc.slot, s'.ring[pc.slot]);
      case Submit =>
        CommitOne(s.ring, pc.slot, s'.ring[pc.slot]);
      case _ =>
    }
  }

  lemma BalanceKept(cfg: Config, s: State, step: Step, y: Tally)
    requires Enabled(s, step) && ThreadOk(cfg, s, step.tid) && |s.inflight| <= cfg.capacity && Balanced(s, y)
    ensures Balanced(Next(cfg, s, step), Book(cfg, s, step, y))
  {
    hide Next, Captured, CopyField, FilledUpTo, Reported, CommittedCount, UpdateAny;
    var t := step.tid;
    MoverNext(cfg, s, step);
    ReportedSize(cfg, s, step);
    RingStep(cfg, s, step);
    if step.action.Remove? {
      RemoveSize(s.inflight, t);
    } else if step.action.Store? {
      UpdateSize(s.inflight, cfg.capacity, t, Captured(PcOf(s, t).input));
    }
  }

  /** The books balance in every reachable state, up to the entries of threads that have submitted
      and not yet deleted. */
  lemma {:induction false} BooksBalance(cfg: Config, steps: seq<Step>, s: State)
    requires Reaches(cfg, steps, s)
    ensures Balanced(s, Books(cfg, steps))
    decreases |steps|
  {
    if steps == [] {
      assert Reported(START) == {};
    } else {
      hide Next, Balanced;
      var init := steps[..|steps| - 1];
      var step := steps[|steps| - 1];
      var before := Exec(cfg, START, init).value;
      BooksBalance(cfg, init, before);
      ReachableInv(cfg, init, before);
      assert ThreadOk(cfg, before, step.tid);
      BalanceKept(cfg, before, step, Books(cfg, init));
    }
  }

  lemma {:induction false} AllCommitted(ring: seq<Slot>)
    requires forall j :: 0 <= j < |ring| ==> ring[j].committed
    ensures CommittedCount(ring) == |ring|
  {
    if ring != [] {
      AllCommitted(ring[..|ring| - 1]);
    }
  }

  /** Conservation: whenever no handler is mid-flight, every stored enter is accounted for once,
      and every slot of the ring holds a submitted event. */
  lemma EveryEnterAccountedFor(cfg: Config, steps: seq<Step>, s: State)
    requires Reaches(cfg, steps, s) && Quiescent(s)
    ensures var y := Books(cfg, steps);
            && y.stored == y.submitted + y.dropped + y.overwritten + |s.inflight|
            && y.submitted == |s.ring|
  {
    BooksBalance(cfg, steps, s);
    assert Reported(s) == {};
    ReachableInv(cfg, steps, s);
    forall j | 0 <= j < |s.ring| ensures s.ring[j].committed {
      assert SlotOk(s, j);
    }
    AllCommitted(s.ring);
  }
}
