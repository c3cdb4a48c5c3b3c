/** The theorems about obstack operations hold of the macros as they run. */
module ObstackProgram {
  import opened ObstackModel
  import opened ObstackRuns
  import opened ObstackTheorems
  import opened ObstackMacros

  /** The macro call that performs an operation. */
  ghost function CallFor(w: World, op: Op): Call
    requires Allowed(w, op)
  {
    match op
    case RoomOp(n, a) => MakeRoomCall(n, a)
    case GrowOp(data, a) => GrowCall(data, a)
    case Grow0Op(data, a) => Grow0Call(data, a)
    case OneGrowOp(byte, a) => OneGrowCall(byte, a)
    case BlankOp(n, a) => BlankCall(n, a)
    case FinishOp => FinishCall
    case AllocOp(n, a) => AllocCall(n, a)
    case CopyOp(data, a) => CopyCall(data, a)
    case Copy0Op(data, a) => Copy0Call(data, a)
    case FreeOp(k) => FreeCall(w.log.finished[k].addr)
  }

  lemma CallIsOk(w: World, op: Op)
    requires Valid(w.o, w.log) && Allowed(w, op)
    ensures CallOk(w.o, CallFor(w, op))
  {
    ValidIsSound(w.o, w.log);
    hide Valid, Sound, SuitsIfNeeded, Within;
    if op.FreeOp? {
      ObjectIsWithin(w.o, w.log, op.k);
    }
  }

  lemma StepIsCall(w: World, op: Op)
    requires Valid(w.o, w.log) && Allowed(w, op)
    ensures CallOk(w.o, CallFor(w, op)) && After(w.o, CallFor(w, op)) == Step(w, op).o
  {
    CallIsOk(w, op);
    StateIs(w, op, CallFor(w, op));
  }

  lemma StateIs(w: World, op: Op, call: Call)
    requires Valid(w.o, w.log) && Allowed(w, op) && CallOk(w.o, call) && call == CallFor(w, op)
    ensures After(w.o, call) == StateAfter(w, op)
  {
    hide Valid, ChunksOk, PointersOk, SuitsIfNeeded, Grow, Blank, MakeRoom, Finish, Unwind, Holds;
    match op
    case RoomOp(n, a) =>
    case GrowOp(data, a) =>
    case Grow0Op(data, a) =>
    case OneGrowOp(byte, a) =>
    case BlankOp(n, a) =>
    case FinishOp =>
    case AllocOp(n, a) =>
    case CopyOp(data, a) =>
    case Copy0Op(data, a) =>
    case FreeOp(k) =>
  }

  lemma ValidIsSound(o: Obstack, log: Log)
    requires Valid(o, log)
    ensures Sound(o)
  {
  }

  lemma ObjectIsWithin(o: Obstack, log: Log, k: nat)
    requires Valid(o, log) && k < |log.finished|
    ensures Within(o, log.finished[k].addr)
  {
    FreeValid(o, log, k);
    assert ObjectOk(o, log.finished[k]);
    hide ChunksOk, PointersOk, Finished, Before, GrowingOk, Unwind, Holds, Bytes;
  }

  ghost function CallsFor(w: World, ops: seq<Op>, w': World): seq<Call>
    requires Valid(w.o, w.log) && Leads(w, ops, w')
    decreases |ops|
  {
    if ops == [] then []
    else
      StepValid(w, ops[0]);
      [CallFor(w, ops[0])] + CallsFor(Step(w, ops[0]), ops[1..], w')
  }

  /** Any run of operations is a run of macro calls that leaves the control block in the same state. */
  lemma {:induction false} RunIsCalls(w: World, ops: seq<Op>, w': World)
    requires Valid(w.o, w.log) && Leads(w, ops, w')
    ensures CallsOk(w.o, CallsFor(w, ops, w')) && AfterAll(w.o, CallsFor(w, ops, w')) == w'.o
    decreases |ops|
  {
    if ops != [] {
      StepValid(w, ops[0]);
      StepIsCall(w, ops[0]);
      hide Valid, Step, After, CallOk, CallFor, Allowed;
      RunIsCalls(Step(w, ops[0]), ops[1..], w');
      var calls := CallsFor(w, ops, w');
      assert calls[1..] == CallsFor(Step(w, ops[0]), ops[1..], w');
    }
  }

  /** The operations that finish an object. */
  predicate Adds(op: Op) {
    op.FinishOp? || op.AllocOp? || op.CopyOp? || op.Copy0Op?
  }

  /** The object that such an operation finishes. */
  ghost function Added(w: World, op: Op): Object
    requires Valid(w.o, w.log) && Allowed(w, op) && Adds(op)
  {
    FinishedAfter(w, op)[|w.log.finished|]
  }

  /** The address that the macro returns is that of the object it finishes. */
  lemma ValueIsObject(w: World, op: Op)
    requires Valid(w.o, w.log) && Allowed(w, op) && Adds(op)
    ensures CallOk(w.o, CallFor(w, op))
    ensures Value(w.o, CallFor(w, op)) == Added(w, op).addr
    ensures FinishedAfter(w, op) == w.log.finished + [Added(w, op)]
  {
    hide Valid, Sound, Within, SuitsIfNeeded, Grow, Blank, Finish, Unwind, Bytes;
    CallIsOk(w, op);
    ValidIsSound(w.o, w.log);
    SoundOrder(w.o);
    match op
    case FinishOp =>
    case AllocOp(n, a) =>
      BlankSound(w.o, n, a);
      SoundOrder(Blank(w.o, n, a));
    case CopyOp(data, a) =>
      GrowSound(w.o, data, a);
      SoundOrder(Grow(w.o, data, a));
    case Copy0Op(data, a) =>
      GrowSound(w.o, data + [0], a);
      SoundOrder(Grow(w.o, data + [0], a));
  }

  /** The world after the first `n` operations. */
  ghost function WorldAt(w: World, ops: seq<Op>, w': World, n: nat): (r: World)
    requires Valid(w.o, w.log) && Leads(w, ops, w') && n <= |ops|
    ensures Valid(r.o, r.log) && Leads(r, ops[n..], w')
    decreases n
  {
    if n == 0 then
      assert ops[0..] == ops;
      w
    else
      StepValid(w, ops[0]);
      assert ops[1..][n - 1..] == ops[n..];
      WorldAt(Step(w, ops[0]), ops[1..], w', n - 1)
  }

  lemma {:induction false} ValuesAreObjects(w: World, ops: seq<Op>, w': World, n: nat)
    requires Valid(w.o, w.log) && Leads(w, ops, w') && n < |ops| && Adds(ops[n])
    ensures CallsOk(w.o, CallsFor(w, ops, w')) && n < |Values(w.o, CallsFor(w, ops, w'))|
    ensures Allowed(WorldAt(w, ops, w', n), ops[n])
    ensures Values(w.o, CallsFor(w, ops, w'))[n] == Added(WorldAt(w, ops, w', n), ops[n]).addr
    ensures WorldAt(w, ops, w', n + 1) == Step(WorldAt(w, ops, w', n), ops[n])
    decreases n
  {
    hide Valid, Step, After, CallOk, CallFor, Allowed, Value, Added, Adds;
    RunIsCalls(w, ops, w');
    StepValid(w, ops[0]);
    StepIsCall(w, ops[0]);
    var rest := ops[1..];
    var calls := CallsFor(w, ops, w');
    assert calls[1..] == CallsFor(Step(w, ops[0]), rest, w');
    if n == 0 {
      ValueIsObject(w, ops[0]);
    } else {
      ValuesAreObjects(Step(w, ops[0]), rest, w', n - 1);
    }
  }

  /** The header's promise, of the memory that the macros leave behind: a finished object that is not
      freed keeps its address, which is what the macro returned, and its bytes through any later calls. */
  method FinishedObjectsLastInMemory(c: Control, calls: seq<Call>, ghost w: World, ghost ops: seq<Op>, ghost w': World)
      returns (values: seq<nat>)
    requires Valid(w.o, w.log) && Leads(w, ops, w') && calls == CallsFor(w, ops, w') && c.Contents() == w.o
    modifies c
    ensures c.Contents() == w'.o
    ensures forall i :: 0 <= i < |w.log.finished| && Spares(ops, i) ==>
              var f := w.log.finished[i]; Bytes(c.memory, f.addr, |f.bytes|) == f.bytes
    ensures forall n :: 0 <= n < |ops| && Adds(ops[n]) ==>
              && Allowed(WorldAt(w, ops, w', n), ops[n])
              && n < |values|
              && var f := Added(WorldAt(w, ops, w', n), ops[n]);
                 && values[n] == f.addr
                 && (Spares(ops[n + 1..], |WorldAt(w, ops, w', n).log.finished|) ==>
                       Bytes(c.memory, f.addr, |f.bytes|) == f.bytes)
  {
    RunIsCalls(w, ops, w');
    hide Valid, Leads, CallsFor, CallsOk, AfterAll, Bytes, ObjectOk, WorldAt, Added, Allowed, Values;
    values := RunGnu(c, calls);
    forall i | 0 <= i < |w.log.finished| && Spares(ops, i)
      ensures Bytes(c.memory, w.log.finished[i].addr, |w.log.finished[i].bytes|) == w.log.finished[i].bytes
    {
      FinishedObjectsLast(w, ops, w', i);
    }
    forall n | 0 <= n < |ops| && Adds(ops[n])
      ensures && Allowed(WorldAt(w, ops, w', n), ops[n])
              && n < |values|
              && var f := Added(WorldAt(w, ops, w', n), ops[n]);
                 && values[n] == f.addr
                 && (Spares(ops[n + 1..], |WorldAt(w, ops, w', n).log.finished|) ==>
                       Bytes(c.memory, f.addr, |f.bytes|) == f.bytes)
    {
      ValuesAreObjects(w, ops, w', n);
      AddedLasts(w, ops, w', n);
    }
  }

  lemma AddedLasts(w: World, ops: seq<Op>, w': World, n: nat)
    requires Valid(w.o, w.log) && Leads(w, ops, w') && n < |ops| && Adds(ops[n])
    ensures Allowed(WorldAt(w, ops, w', n), ops[n])
    ensures Spares(ops[n + 1..], |WorldAt(w, ops, w', n).log.finished|) ==>
              var f := Added(WorldAt(w, ops, w', n), ops[n]); Bytes(w'.o.memory, f.addr, |f.bytes|) == f.bytes
  {
    ValuesAreObjects(w, ops, w', n);
    var before, after := WorldAt(w, ops, w', n), WorldAt(w, ops, w', n + 1);
    ValueIsObject(before, ops[n]);
    assert after.log.finished == FinishedAfter(before, ops[n]);
    hide Valid, Leads, Bytes, Added, Allowed, StateAfter, FinishedAfter, WorldAt;
    if Spares(ops[n + 1..], |before.log.finished|) {
      FinishedObjectsLast(after, ops[n + 1..], w', |before.log.finished|);
    }
  }

  /** Allocating, freeing what was returned and allocating again, by the macros: the same address twice,
      and no further chunk. */
  method AllocFreeAllocInMemory(c: Control, length: nat, a: Allocation, a': Allocation, ghost log: Log)
      returns (first: nat, second: nat)
    requires Valid(c.Contents(), log) && SuitsIfNeeded(c.Contents(), a, length)
    modifies c
    ensures first == second
    ensures c.chunks == old(c.chunks) || (c.chunks != [] && c.chunks[|c.chunks| - 1] == a.chunk)
  {
    AllocAgain(c.Contents(), log, length, a, a');
    hide Valid, CallOk, After, Value, SuitsIfNeeded;
    first := c.GnuAlloc(length, a);
    c.GnuFree(first);
    second := c.GnuAlloc(length, a');
  }

  lemma AllocAgain(o: Obstack, log: Log, n: nat, a: Allocation, a': Allocation)
    requires Valid(o, log) && SuitsIfNeeded(o, a, n)
    ensures CallOk(o, AllocCall(n, a))
    ensures var o1, v := After(o, AllocCall(n, a)), Value(o, AllocCall(n, a));
            && CallOk(o1, FreeCall(v))
            && var o2 := After(o1, FreeCall(v));
               && CallOk(o2, AllocCall(n, a'))
               && Value(o2, AllocCall(n, a')) == v
               && After(o2, AllocCall(n, a')).chunks == o1.chunks
               && (o1.chunks == o.chunks || (o1.chunks != [] && o1.chunks[|o1.chunks| - 1] == a.chunk))
  {
    hide Valid, Sound, Within, Bytes, Unwind;
    var w, k := World(o, log), |log.finished|;
    var w1 := Step(w, AllocOp(n, a));
    StepIsCall(w, AllocOp(n, a));
    ValueIsObject(w, AllocOp(n, a));
    StepValid(w, AllocOp(n, a));
    StepIsCall(w1, FreeOp(k));
    StepValid(w1, FreeOp(k));
    var w2 := Step(w1, FreeOp(k));
    AllocFreeAlloc(o, log, n, a, a');
    ValidIsSound(w2.o, w2.log);
  }
}
