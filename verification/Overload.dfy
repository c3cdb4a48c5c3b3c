/** More traced threads than the `inflight` map has entries, which are two or more: then some
    interleaving cannot have come from handlers that run all at once.  Thread `a` reserves first but
    deletes last; in between `b` comes and goes, `c` takes its room and `b`'s second enter is
    refused.  Run all at once, `a` would have been gone before `b` came back. */
module Overload {
  import opened Basics
  import opened SyscallRecords
  import opened Capture
  import opened Protocol
  import opened AtomicTracer
  import opened SoloRuns
  import Linearization
  import SmallMaps

  ghost predicate OwnedBy(e: Event, t: Tid) {
    e.tgid == Tgid(t) && e.pid == Pid(t)
  }

  lemma OneOwner(e: Event, t: Tid, u: Tid)
    requires OwnedBy(e, t) && OwnedBy(e, u)
    ensures t == u
  {
    IdFromHalves(t, u);
  }

  // ---------------------------------------------------------------- whole handlers

  lemma {:induction false} RingGrows(cfg: Config, a: Snapshot, ops: seq<Op>)
    ensures |a.ring| <= |ApplyAll(cfg, a, ops).ring|
    ensures ApplyAll(cfg, a, ops).ring[..|a.ring|] == a.ring
    decreases |ops|
  {
    if ops != [] {
      RingGrows(cfg, a, ops[..|ops| - 1]);
    }
  }

  /** A handler of another thread neither touches the entry of `t` nor reports it. */
  lemma ApplyOther(cfg: Config, a: Snapshot, op: Op, t: Tid)
    requires op.tid != t
    ensures var a' := Apply(cfg, a, op);
            && (t in a'.inflight <==> t in a.inflight)
            && |a.ring| <= |a'.ring| && a'.ring[..|a.ring|] == a.ring
            && forall j :: |a.ring| <= j < |a'.ring| ==> !OwnedBy(a'.ring[j], t)
  {
    hide Captured, Complete, OwnedBy;
    if op.Exit? && op.tid in a.inflight {
      OthersEvent(a.inflight[op.tid], op.tid, op.ret, t);
    }
  }

  lemma OthersEvent(v: EnterState, u: Tid, ret: I64, t: Tid)
    requires u != t
    ensures !OwnedBy(Complete(v, u, ret), t)
  {
    hide Tgid, Pid;
    if OwnedBy(Complete(v, u, ret), t) {
      OneOwner(Complete(v, u, ret), t, u);
    }
  }

  /** Runs that hold none of `t`'s calls neither touch its entry nor report it. */
  lemma {:induction false} QuietThread(cfg: Config, a: Snapshot, ops: seq<Op>, t: Tid)
    requires CallsIn(ops, t) == []
    ensures t in ApplyAll(cfg, a, ops).inflight <==> t in a.inflight
    ensures |a.ring| <= |ApplyAll(cfg, a, ops).ring|
    ensures forall j :: |a.ring| <= j < |ApplyAll(cfg, a, ops).ring| ==> !OwnedBy(ApplyAll(cfg, a, ops).ring[j], t)
    decreases |ops|
  {
    ApplyNone(cfg, a);
    hide CallsIn, CallOf, Apply, ApplyAll, OwnedBy;
    if ops != [] {
      var init := ops[..|ops| - 1];
      var op := ops[|ops| - 1];
      assert ops == init + [op];
      CallsInSnoc(init, op, t);
      ApplyAllSnoc(cfg, a, init, op);
      QuietThread(cfg, a, init, t);
      ApplyOther(cfg, ApplyAll(cfg, a, init), op, t);
    }
  }

  lemma {:induction false} NoCallsNoEntry(cfg: Config, ops: seq<Op>, t: Tid)
    requires CallsIn(ops, t) == []
    ensures t !in ApplyAll(cfg, EMPTY, ops).inflight
  {
    QuietThread(cfg, EMPTY, ops, t);
  }

  /** A reported thread has made an exit. */
  lemma {:induction false} ReportedHasExited(cfg: Config, ops: seq<Op>, t: Tid, j: nat)
    requires j < |ApplyAll(cfg, EMPTY, ops).ring| && OwnedBy(ApplyAll(cfg, EMPTY, ops).ring[j], t)
    ensures exists i :: 0 <= i < |CallsIn(ops, t)| && CallsIn(ops, t)[i].ExitCall?
    decreases |ops|
  {
    var init := ops[..|ops| - 1];
    var op := ops[|ops| - 1];
    var before := ApplyAll(cfg, EMPTY, init);
    if j < |before.ring| {
      ReportedHasExited(cfg, init, t, j);
      var i :| 0 <= i < |CallsIn(init, t)| && CallsIn(init, t)[i].ExitCall?;
      assert CallsIn(ops, t)[i] == CallsIn(init, t)[i];
    } else {
      OneOwner(ApplyAll(cfg, EMPTY, ops).ring[j], t, op.tid);
      assert CallsIn(ops, t)[|CallsIn(init, t)|] == CallOf(op);
    }
  }

  /** A traced thread whose last call is an exit has no entry. */
  lemma {:induction false} ExitLeavesNothing(cfg: Config, ops: seq<Op>, t: Tid)
    requires CallsIn(ops, t) != [] && CallsIn(ops, t)[|CallsIn(ops, t)| - 1].ExitCall?
    requires Traced(cfg, t)
    ensures t !in ApplyAll(cfg, EMPTY, ops).inflight
    decreases |ops|
  {
    var init := ops[..|ops| - 1];
    if ops[|ops| - 1].tid != t {
      ExitLeavesNothing(cfg, init, t);
    }
  }

  lemma NoCalls(t: Tid)
    ensures CallsIn([], t) == []
  {
  }

  /** The run up to a thread's last call, that call, and the rest. */
  lemma {:induction false} SplitAtLastCall(ops: seq<Op>, t: Tid) returns (n: nat)
    requires CallsIn(ops, t) != []
    ensures n < |ops| && ops[n].tid == t
    ensures CallsIn(ops[n + 1..], t) == []
    ensures CallsIn(ops, t) == CallsIn(ops[..n], t) + [CallOf(ops[n])]
    ensures ops == ops[..n] + [ops[n]] + ops[n + 1..]
    decreases |ops|
  {
    NoCalls(t);
    hide CallsIn, CallOf;
    var init := ops[..|ops| - 1];
    var op := ops[|ops| - 1];
    assert ops == init + [op];
    CallsInSnoc(init, op, t);
    if op.tid == t {
      n := |ops| - 1;
      assert ops[n + 1..] == [];
    } else {
      n := SplitAtLastCall(init, t);
      assert ops[..n] == init[..n] && ops[n + 1..] == init[n + 1..] + [op];
      CallsInSnoc(init[n + 1..], op, t);
    }
  }

  /** In whole handlers, if `a` is reported before `b` and neither exits again, then `a` has left
      room by the time `b` calls last, so that call is stored. */
  lemma LastEnterIsStored(cfg: Config, ops: seq<Op>, ids: set<Tid>, a: Tid, b: Tid)
    requires a in ids && b in ids && a != b && |ids| <= cfg.capacity + 1
    requires forall t :: t in ids ==> Traced(cfg, t)
    requires forall t :: t !in ids ==> CallsIn(ops, t) == []
    requires var c := CallsIn(ops, a); |c| == 2 && c[0].EnterCall? && c[1].ExitCall?
    requires var c := CallsIn(ops, b); |c| == 3 && c[2].EnterCall?
    requires var ring := ApplyAll(cfg, EMPTY, ops).ring;
             |ring| == 2 && OwnedBy(ring[0], a) && OwnedBy(ring[1], b)
    ensures b in ApplyAll(cfg, EMPTY, ops).inflight
  {
    hide Apply, ApplyAll, CallsIn, CallOf, OwnedBy, Traced;
    var n := SplitAtLastCall(ops, b);
    var head, op, tail := ops[..n], ops[n], ops[n + 1..];
    assert head + ([op] + tail) == ops && head + [op] + tail == ops;
    EnterIsEnter(op);
    var s := ApplyAll(cfg, EMPTY, head);
    var s' := Apply(cfg, s, op);
    ApplyAllSnoc(cfg, EMPTY, head, op);
    ApplyAllSplit(cfg, EMPTY, head + [op], tail);
    EnterStores(cfg, s, op);
    AlreadyReported(cfg, s', tail, b);
    QuietThread(cfg, s', tail, b);
    GoneOnceReported(cfg, head, [op] + tail, a);
    EntriesAmong(cfg, head, [op] + tail, ids);
    if b !in s.inflight {
      SizeWithoutTwo(s.inflight.Keys, ids, a, b);
    }
  }

  lemma EnterIsEnter(op: Op)
    ensures CallOf(op).EnterCall? <==> op.Enter?
  {
  }

  /** A ring whose last event is `b`'s was complete before a run without calls of `b`. */
  lemma AlreadyReported(cfg: Config, s: Snapshot, ops: seq<Op>, b: Tid)
    requires CallsIn(ops, b) == []
    requires var ring := ApplyAll(cfg, s, ops).ring; |ring| == 2 && OwnedBy(ring[1], b)
    ensures s.ring == ApplyAll(cfg, s, ops).ring
  {
    hide Apply, ApplyAll, CallsIn, OwnedBy;
    QuietThread(cfg, s, ops, b);
    RingGrows(cfg, s, ops);
    var ring := ApplyAll(cfg, s, ops).ring;
    assert |s.ring| > 1;
    assert ring[..2] == ring;
  }

  lemma SizeWithoutTwo<T>(small: set<T>, large: set<T>, a: T, b: T)
    requires small <= large && a in large && b in large && a != b && a !in small && b !in small
    ensures |small| <= |large| - 2
  {
    Linearization.SubsetSize(small, large - {a, b});
    assert |large - {a, b}| == |large| - 2;
  }

  /** A thread that calls enter and exit once each has no entry once it is reported. */
  lemma GoneOnceReported(cfg: Config, head: seq<Op>, rest: seq<Op>, a: Tid)
    requires Traced(cfg, a)
    requires var c := CallsIn(head + rest, a); |c| == 2 && c[0].EnterCall? && c[1].ExitCall?
    requires var ring := ApplyAll(cfg, EMPTY, head).ring; |ring| > 0 && OwnedBy(ring[0], a)
    ensures a !in ApplyAll(cfg, EMPTY, head).inflight
  {
    hide Apply, ApplyAll, CallsIn, OwnedBy;
    ReportedHasExited(cfg, head, a, 0);
    CallsInSplit(head, rest, a);
    assert CallsIn(head, a) == CallsIn(head + rest, a);
    ExitLeavesNothing(cfg, head, a);
  }

  lemma EntriesAmong(cfg: Config, head: seq<Op>, tail: seq<Op>, ids: set<Tid>)
    requires forall t :: t !in ids ==> CallsIn(head + tail, t) == []
    ensures ApplyAll(cfg, EMPTY, head).inflight.Keys <= ids
  {
    forall t | t !in ids ensures t !in ApplyAll(cfg, EMPTY, head).inflight {
      CallsInSplit(head, tail, t);
      NoCallsNoEntry(cfg, head, t);
    }
  }

  lemma EnterStores(cfg: Config, s: Snapshot, op: Op)
    requires op.Enter? && Traced(cfg, op.tid)
    ensures Apply(cfg, s, op).ring == s.ring
    ensures op.tid in s.inflight || |s.inflight| < cfg.capacity ==> op.tid in Apply(cfg, s, op).inflight
  {
  }

  // ---------------------------------------------------------------- the interleaving

  /** What the threads enter with, and what the reserved bytes hold: it does not matter. */
  function Input(): EnterInput {
    EnterInput(0, [0, 0, 0, 0, 0, 0], Zeros(16), map[], map[], map[], map[])
  }

  function Garbage(): Event {
    Complete(Registers(Input()), 0, 0)
  }

  function EnterAll(ids: seq<Tid>): seq<Step> {
    if ids == [] then [] else EnterAll(ids[..|ids| - 1]) + EnterSteps(ids[|ids| - 1], Input())
  }

  lemma EnterAllSnoc(ids: seq<Tid>, t: Tid)
    ensures EnterAll(ids + [t]) == EnterAll(ids) + EnterSteps(t, Input())
  {
    hide Input, EnterSteps;
    assert (ids + [t])[..|ids|] == ids;
  }

  lemma LastIsNew(ids: seq<Tid>) returns (init: seq<Tid>, t: Tid)
    requires NoRepeats(ids) && ids != []
    ensures ids == init + [t] && |init| == |ids| - 1 && NoRepeats(init) && t !in init
    ensures forall u :: u in ids <==> u in init || u == t
  {
    init, t := ids[..|ids| - 1], ids[|ids| - 1];
    assert ids == init + [t];
  }

  lemma {:induction false} EnterAllRuns(cfg: Config, ids: seq<Tid>)
    requires |ids| <= cfg.capacity && NoRepeats(ids) && forall t :: t in ids ==> Traced(cfg, t)
    ensures Exec(cfg, START, EnterAll(ids)).Some?
    ensures var s := Exec(cfg, START, EnterAll(ids)).value;
            && s.ring == [] && s.pcs == map[] && |s.inflight| == |ids|
            && forall t :: t in s.inflight <==> t in ids
    decreases |ids|
  {
    NothingRun(cfg);
    hide Next, Enabled, Captured, Input, EnterSteps, EnterAll, Exec, NoRepeats, Traced;
    if ids != [] {
      var init, t := LastIsNew(ids);
      EnterAllSnoc(init, t);
      EnterAllRuns(cfg, init);
      var s := Exec(cfg, START, EnterAll(init)).value;
      ExecSplit(cfg, START, EnterAll(init), EnterSteps(t, Input()));
      SoloEnter(cfg, s, t, Input());
      UpdateSize(s.inflight, cfg.capacity, t, Captured(Input()));
    }
  }

  lemma NothingRun(cfg: Config)
    ensures EnterAll([]) == [] && Exec(cfg, START, []) == Some(START)
    ensures forall u :: CallsOf([], u) == []
  {
  }

  lemma {:induction false} EnterAllCalls(ids: seq<Tid>, u: Tid)
    requires NoRepeats(ids)
    ensures CallsOf(EnterAll(ids), u) == if u in ids then [EnterCall(Input())] else []
    decreases |ids|
  {
    NothingRun(Config(0, 0));
    hide CallsOf, EnterAll, EnterSteps, NoRepeats, Input;
    if ids != [] {
      var init, t := LastIsNew(ids);
      EnterAllSnoc(init, t);
      EnterAllCalls(init, u);
      CallsOfSplit(EnterAll(init), EnterSteps(t, Input()), u);
      EnterCalls(t, Input(), u);
      var before, here := CallsOf(EnterAll(init), u), CallsOf(EnterSteps(t, Input()), u);
      if u == t {
        assert before == [] && before + here == here;
      } else {
        assert here == [] && before + here == before;
      }
    }
  }

  function Overtaking(first: seq<Tid>, a: Tid, b: Tid, c: Tid): seq<Step> {
    EnterAll(first + [a, b])
    + ReserveSteps(a, 0, Garbage())
    + ReserveSteps(b, 0, Garbage())
    + FinishSteps(b)
    + EnterSteps(c, Input())
    + EnterSteps(b, Input())
    + FinishSteps(a)
  }

  lemma OvertakingCalls(first: seq<Tid>, a: Tid, b: Tid, c: Tid, u: Tid)
    requires NoRepeats(first + [a, b]) && c !in first + [a, b]
    ensures CallsOf(Overtaking(first, a, b, c), u) ==
              if u == a then [EnterCall(Input()), ExitCall(0)]
              else if u == b then [EnterCall(Input()), ExitCall(0), EnterCall(Input())]
              else if u in first || u == c then [EnterCall(Input())]
              else []
  {
    hide CallsOf, EnterAll, EnterSteps, ReserveSteps, FinishSteps, NoRepeats, Input, Garbage;
    LastTwo(first, a, b);
    var p1 := EnterAll(first + [a, b]);
    var p2 := p1 + ReserveSteps(a, 0, Garbage());
    var p3 := p2 + ReserveSteps(b, 0, Garbage());
    var p4 := p3 + FinishSteps(b);
    var p5 := p4 + EnterSteps(c, Input());
    var p6 := p5 + EnterSteps(b, Input());
    EnterAllCalls(first + [a, b], u);
    CallsOfSplit(p1, ReserveSteps(a, 0, Garbage()), u);
    ReserveCalls(a, 0, Garbage(), u);
    CallsOfSplit(p2, ReserveSteps(b, 0, Garbage()), u);
    ReserveCalls(b, 0, Garbage(), u);
    CallsOfSplit(p3, FinishSteps(b), u);
    FinishCalls(b, u);
    CallsOfSplit(p4, EnterSteps(c, Input()), u);
    EnterCalls(c, Input(), u);
    CallsOfSplit(p5, EnterSteps(b, Input()), u);
    EnterCalls(b, Input(), u);
    CallsOfSplit(p6, FinishSteps(a), u);
    FinishCalls(a, u);
  }

  lemma LastTwo(first: seq<Tid>, a: Tid, b: Tid)
    requires NoRepeats(first + [a, b])
    ensures a != b && a !in first && b !in first
    ensures forall t :: t in first + [a, b] <==> t in first || t == a || t == b
  {
    var all := first + [a, b];
    assert all[|first|] == a && all[|first| + 1] == b;
    forall i | 0 <= i < |first| ensures first[i] != a && first[i] != b {
      assert all[i] == first[i];
    }
  }

  lemma BothReserve(cfg: Config, first: seq<Tid>, a: Tid, b: Tid) returns (s: State)
    requires |first| + 2 == cfg.capacity && NoRepeats(first + [a, b])
    requires forall t :: t in first + [a, b] ==> Traced(cfg, t)
    ensures Exec(cfg, START, EnterAll(first + [a, b]) + ReserveSteps(a, 0, Garbage()) + ReserveSteps(b, 0, Garbage())) == Some(s)
    ensures s.pcs == map[a := Filling(0, 0, 0), b := Filling(1, 0, 0)]
    ensures |s.inflight| == cfg.capacity && forall t :: t in s.inflight <==> t in first + [a, b]
    ensures s.ring == [Slot(a, Garbage(), false), Slot(b, Garbage(), false)]
  {
    hide Next, Enabled, Exec, Captured, Complete;
    var all := first + [a, b];
    LastTwo(first, a, b);
    EnterAllRuns(cfg, all);
    var s1 := Exec(cfg, START, EnterAll(all)).value;
    SoloReserve(cfg, s1, a, 0, Garbage());
    var s2 := Reserved(s1, a, 0, Garbage());
    ExecSplit(cfg, START, EnterAll(all), ReserveSteps(a, 0, Garbage()));
    SoloReserve(cfg, s2, b, 0, Garbage());
    s := Reserved(s2, b, 0, Garbage());
    ExecSplit(cfg, START, EnterAll(all) + ReserveSteps(a, 0, Garbage()), ReserveSteps(b, 0, Garbage()));
  }

  /** The first half: `a` has reserved, `b` has come and gone. */
  lemma OvertakingBegins(cfg: Config, first: seq<Tid>, a: Tid, b: Tid) returns (s: State)
    requires |first| + 2 == cfg.capacity && NoRepeats(first + [a, b])
    requires forall t :: t in first + [a, b] ==> Traced(cfg, t)
    ensures Exec(cfg, START, EnterAll(first + [a, b]) + ReserveSteps(a, 0, Garbage()) + ReserveSteps(b, 0, Garbage())
                             + FinishSteps(b)) == Some(s)
    ensures s.pcs == map[a := Filling(0, 0, 0)]
    ensures |s.inflight| == cfg.capacity - 1 && forall t :: t in s.inflight <==> t in first + [a]
    ensures |s.ring| == 2 && s.ring[0] == Slot(a, Garbage(), false)
    ensures s.ring[1].owner == b && s.ring[1].committed && OwnedBy(s.ring[1].event, b)
  {
    hide Next, Enabled, Exec, Captured, Complete, OwnedBy, EnterSteps, ReserveSteps, FinishSteps, EnterAll;
    hide NoRepeats, Traced, Input, Garbage;
    LastTwo(first, a, b);
    var s3 := BothReserve(cfg, first, a, b);
    SoloFinish(cfg, s3, b, 1, 0);
    ExecSplit(cfg, START, EnterAll(first + [a, b]) + ReserveSteps(a, 0, Garbage()) + ReserveSteps(b, 0, Garbage()), FinishSteps(b));
    s := State(s3.inflight - {b}, s3.ring[1 := Slot(b, Complete(s3.inflight[b], b, 0), true)], s3.pcs - {b});
    RemoveSize(s3.inflight, b);
    CompleteIsOwned(s3.inflight[b], b, 0);
    assert s.pcs == map[a := Filling(0, 0, 0)];
  }

  /** The second half: `c` takes the room, `b` is refused, and only then `a` finishes. */
  lemma OvertakingEnds(cfg: Config, first: seq<Tid>, a: Tid, b: Tid, c: Tid) returns (s: State)
    requires |first| + 2 == cfg.capacity && NoRepeats(first + [a, b]) && c !in first + [a, b]
    requires forall t :: t in first + [a, b] + [c] ==> Traced(cfg, t)
    ensures Reaches(cfg, Overtaking(first, a, b, c), s) && Quiescent(s)
    ensures b !in s.inflight
    ensures |s.ring| == 2 && OwnedBy(s.ring[0].event, a) && OwnedBy(s.ring[1].event, b)
  {
    hide Next, Enabled, Exec, Captured, Complete, OwnedBy, EnterSteps, ReserveSteps, FinishSteps, EnterAll;
    hide NoRepeats, Traced, Input, Garbage;
    var all := first + [a, b];
    LastTwo(first, a, b);
    assert forall t :: t in all ==> t in all + [c];
    assert c in all + [c];
    var s4 := OvertakingBegins(cfg, first, a, b);
    var p4 := EnterAll(all) + ReserveSteps(a, 0, Garbage()) + ReserveSteps(b, 0, Garbage()) + FinishSteps(b);
    SoloEnter(cfg, s4, c, Input());
    UpdateSize(s4.inflight, cfg.capacity, c, Captured(Input()));
    var s5 := s4.(inflight := UpdateAny(s4.inflight, cfg.capacity, c, Captured(Input())));
    ExecSplit(cfg, START, p4, EnterSteps(c, Input()));
    SoloEnter(cfg, s5, b, Input());
    assert UpdateAny(s5.inflight, cfg.capacity, b, Captured(Input())) == s5.inflight;
    ExecSplit(cfg, START, p4 + EnterSteps(c, Input()), EnterSteps(b, Input()));
    SoloFinish(cfg, s5, a, 0, 0);
    ExecSplit(cfg, START, p4 + EnterSteps(c, Input()) + EnterSteps(b, Input()), FinishSteps(a));
    s := State(s5.inflight - {a}, s5.ring[0 := Slot(a, Complete(s5.inflight[a], a, 0), true)], s5.pcs - {a});
    CompleteIsOwned(s5.inflight[a], a, 0);
  }

  lemma CompleteIsOwned(v: EnterState, t: Tid, ret: I64)
    ensures OwnedBy(Complete(v, t, ret), t)
  {
  }

  lemma {:induction false} CopiesBy(t: Tid, n: nat)
    ensures forall i :: 0 <= i < |Copies(t, n)| ==> Copies(t, n)[i].tid == t
  {
    if n > 0 {
      CopiesBy(t, n - 1);
    }
  }

  lemma {:induction false} EnterAllBy(ids: seq<Tid>)
    ensures forall i :: 0 <= i < |EnterAll(ids)| ==> EnterAll(ids)[i].tid in ids
  {
    if ids != [] {
      EnterAllBy(ids[..|ids| - 1]);
      assert ids == ids[..|ids| - 1] + [ids[|ids| - 1]];
    }
  }

  lemma OvertakingRunsOver(first: seq<Tid>, a: Tid, b: Tid, c: Tid, threads: set<Tid>)
    requires forall t :: t in first + [a, b] + [c] ==> t in threads
    ensures RunsOver(threads, Overtaking(first, a, b, c))
  {
    var all := first + [a, b] + [c];
    assert all[|first|] == a && all[|first| + 1] == b && all[|first| + 2] == c;
    EnterAllBy(first + [a, b]);
    assert forall t :: t in first + [a, b] ==> t in all;
    var p1 := EnterAll(first + [a, b]);
    assert RunsOver(threads, p1);
    HandlerRunsOver(threads, a);
    HandlerRunsOver(threads, b);
    HandlerRunsOver(threads, c);
    hide EnterAll, ReserveSteps, FinishSteps, EnterSteps, RunsOver;
    var p2 := p1 + ReserveSteps(a, 0, Garbage());
    var p3 := p2 + ReserveSteps(b, 0, Garbage());
    var p4 := p3 + FinishSteps(b);
    var p5 := p4 + EnterSteps(c, Input());
    var p6 := p5 + EnterSteps(b, Input());
    RunsOverJoin(threads, p1, ReserveSteps(a, 0, Garbage()));
    RunsOverJoin(threads, p2, ReserveSteps(b, 0, Garbage()));
    RunsOverJoin(threads, p3, FinishSteps(b));
    RunsOverJoin(threads, p4, EnterSteps(c, Input()));
    RunsOverJoin(threads, p5, EnterSteps(b, Input()));
    RunsOverJoin(threads, p6, FinishSteps(a));
  }

  lemma HandlerRunsOver(threads: set<Tid>, t: Tid)
    requires t in threads
    ensures RunsOver(threads, EnterSteps(t, Input())) && RunsOver(threads, ReserveSteps(t, 0, Garbage()))
    ensures RunsOver(threads, FinishSteps(t))
  {
    CopiesBy(t, FIELDS);
  }

  lemma RunsOverJoin(threads: set<Tid>, left: seq<Step>, right: seq<Step>)
    requires RunsOver(threads, left) && RunsOver(threads, right)
    ensures RunsOver(threads, left + right)
  {
  }

  lemma {:induction false} PickDistinct<T>(pool: set<T>, n: nat) returns (ids: seq<T>)
    requires n <= |pool|
    ensures |ids| == n && NoRepeats(ids) && forall t :: t in ids ==> t in pool
  {
    if n == 0 {
      ids := [];
    } else {
      var x :| x in pool;
      var rest := PickDistinct(pool - {x}, n - 1);
      ids := rest + [x];
    }
  }

  lemma {:induction false} SizeOfDistinct<T>(ids: seq<T>)
    requires NoRepeats(ids)
    ensures |set t | t in ids| == |ids|
  {
    if ids != [] {
      var init := ids[..|ids| - 1];
      var x := ids[|ids| - 1];
      SizeOfDistinct(init);
      assert ids == init + [x];
      assert (set t | t in ids) == (set t | t in init) + {x};
    }
  }

  lemma NoCounterpart(cfg: Config, first: seq<Tid>, a: Tid, b: Tid, c: Tid, s: State, ops: seq<Op>)
    requires |first| + 2 == cfg.capacity && NoRepeats(first + [a, b] + [c])
    requires forall t :: t in first + [a, b] + [c] ==> Traced(cfg, t)
    requires b !in s.inflight
    requires |s.ring| == 2 && OwnedBy(s.ring[0].event, a) && OwnedBy(s.ring[1].event, b)
    ensures !SameStory(cfg, Overtaking(first, a, b, c), s, ops)
  {
    hide ApplyAll, CallsOf, CallsIn, CutAt, Overtaking, OwnedBy, Traced;
    var ids, steps := first + [a, b] + [c], Overtaking(first, a, b, c);
    LastThree(first, a, b, c);
    SizeOfDistinct(ids);
    hide NoRepeats;
    if SameStory(cfg, steps, s, ops) {
      OvertakingCalls(first, a, b, c, a);
      OvertakingCalls(first, a, b, c, b);
      forall t | t !in ids ensures CallsIn(ops, t) == [] {
        OvertakingCalls(first, a, b, c, t);
      }
      LastEnterIsStored(cfg, ops, (set t | t in ids), a, b);
    }
  }

  lemma LastThree(first: seq<Tid>, a: Tid, b: Tid, c: Tid)
    requires NoRepeats(first + [a, b] + [c])
    ensures NoRepeats(first + [a, b]) && c !in first + [a, b] && a != b && a != c && b != c
    ensures forall t :: t in first + [a, b] + [c] <==> t in first || t == a || t == b || t == c
  {
    var all := first + [a, b];
    assert (all + [c])[..|all|] == all && (all + [c])[|all|] == c;
    LastTwo(first, a, b);
  }

  /** One traced thread too many, and some interleaving has no counterpart. */
  lemma ManyThreadsDoNotLookAtomic(cfg: Config, threads: set<Tid>)
    requires cfg.capacity >= 2 && |Linearization.TracedOf(cfg, threads)| > cfg.capacity
    ensures !LooksAtomic(cfg, threads)
  {
    hide Exec, SameStory, Overtaking, OwnedBy, Traced;
    var ids := PickDistinct(Linearization.TracedOf(cfg, threads), cfg.capacity + 1);
    var n := cfg.capacity - 2;
    var first, a, b, c := ids[..n], ids[n], ids[n + 1], ids[n + 2];
    assert ids == first + [a, b] + [c];
    LastThree(first, a, b, c);
    var s := OvertakingEnds(cfg, first, a, b, c);
    OvertakingRunsOver(first, a, b, c, threads);
    forall ops ensures !SameStory(cfg, Overtaking(first, a, b, c), s, ops) {
      NoCounterpart(cfg, first, a, b, c, s, ops);
    }
  }

  /** The tracer looks as if its handlers ran all at once exactly when the traced threads are no
      more than the entries of the map, or the map has at most one entry. */
  lemma LooksAtomicIff(cfg: Config, threads: set<Tid>)
    ensures LooksAtomic(cfg, threads) <==> |Linearization.TracedOf(cfg, threads)| <= cfg.capacity || cfg.capacity <= 1
  {
    if |Linearization.TracedOf(cfg, threads)| <= cfg.capacity {
      Linearization.FewThreadsLookAtomic(cfg, threads);
    } else if cfg.capacity <= 1 {
      SmallMaps.SmallMapsLookAtomic(cfg, threads);
    } else {
      ManyThreadsDoNotLookAtomic(cfg, threads);
    }
  }

  /** So it is for the map that the program declares. */
  lemma InflightLooksAtomicIff(target: I32, threads: set<Tid>)
    ensures var cfg := Config(INFLIGHT_ENTRIES, target);
            LooksAtomic(cfg, threads) <==> |Linearization.TracedOf(cfg, threads)| <= 16384
  {
    LooksAtomicIff(Config(INFLIGHT_ENTRIES, target), threads);
  }
}
