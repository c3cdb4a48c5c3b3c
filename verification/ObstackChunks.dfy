/** When a chunk is given back: `maybe_empty_object` is exact as long as nothing is freed. */
module ObstackChunks {
  import opened Basics
  import opened ObstackAlign
  import opened ObstackModel
  import opened ObstackLemmas
  import opened ObstackRuns
  import opened ObstackTheorems

  /** The finished object lies in the current chunk. */
  ghost predicate InCurrent(w: World, i: nat)
    requires i < |w.log.finished|
  {
    w.log.finished[i].home == |w.o.chunks| - 1
  }

  /** The flag is set exactly if an empty object was finished in the current chunk, and the first
      object of a chunk is at its start. */
  ghost predicate Exact(w: World) {
    && w.o.chunks != []
    && (w.o.maybeEmpty <==> exists i :: 0 <= i < |w.log.finished| && InCurrent(w, i) && w.log.finished[i].bytes == [])
    && ((forall i :: 0 <= i < |w.log.finished| ==> !InCurrent(w, i)) ==> w.o.base == ContentsOf(Last(w.o), w.o.mask))
  }

  ghost predicate FreesNothing(ops: seq<Op>) {
    forall n :: 0 <= n < |ops| ==> !ops[n].FreeOp?
  }

  /** No finished object is in a chunk that has just been begun. */
  lemma NewChunkExact(w: World, n: nat, a: Allocation)
    requires Valid(w.o, w.log) && Suits(w.o, a, n)
    ensures Exact(World(NewChunk(w.o, a), w.log))
  {
    hide ContentsOf, Bytes, Write, Without, AlignUp, Minus;
    var w' := World(NewChunk(w.o, a), w.log);
    assert Last(w'.o) == a.chunk;
    forall i | 0 <= i < |w.log.finished| ensures !InCurrent(w', i) {
      assert ObjectOk(w.o, w.log.finished[i]);
      if OnlyGrowing(w.o) {
        NothingLost(w.o, w.log, w.log.finished[i]);
      }
    }
  }

  lemma MakeRoomExact(w: World, n: nat, a: Allocation)
    requires Valid(w.o, w.log) && Exact(w) && SuitsIfNeeded(w.o, a, n)
    ensures Exact(World(MakeRoom(w.o, n, a), w.log))
  {
    hide Valid, Exact, NewChunk, Suits, Room;
    if Room(w.o) < n {
      NewChunkExact(w, n, a);
    }
  }

  /** Only the chunk, the base and the flag matter. */
  lemma SameExact(w: World, w': World)
    requires Exact(w) && w'.o.chunks == w.o.chunks && w'.o.base == w.o.base && w'.o.mask == w.o.mask
    requires w'.o.maybeEmpty == w.o.maybeEmpty && w'.log.finished == w.log.finished
    ensures Exact(w')
  {
    hide ContentsOf;
    assert forall i :: 0 <= i < |w.log.finished| ==> (InCurrent(w', i) <==> InCurrent(w, i));
  }

  lemma GrowExact(w: World, data: seq<U8>, a: Allocation, growing: seq<Option<U8>>)
    requires Valid(w.o, w.log) && Exact(w) && SuitsIfNeeded(w.o, a, |data|)
    ensures Exact(World(Grow(w.o, data, a), w.log.(growing := growing)))
  {
    MakeRoomExact(w, |data|, a);
    hide Valid, Exact, MakeRoom, Write;
    SameExact(World(MakeRoom(w.o, |data|, a), w.log), World(Grow(w.o, data, a), w.log.(growing := growing)));
  }

  lemma BlankExact(w: World, n: nat, a: Allocation, growing: seq<Option<U8>>)
    requires Valid(w.o, w.log) && Exact(w) && SuitsIfNeeded(w.o, a, n)
    ensures Exact(World(Blank(w.o, n, a), w.log.(growing := growing)))
  {
    MakeRoomExact(w, n, a);
    hide Valid, Exact, MakeRoom;
    SameExact(World(MakeRoom(w.o, n, a), w.log), World(Blank(w.o, n, a), w.log.(growing := growing)));
  }

  lemma FinishExact(w: World)
    requires Exact(w) && w.o.base <= w.o.next
    ensures Exact(World(Finish(w.o), Log(w.log.finished + [Finished(w.o)], [])))
  {
    hide ContentsOf, AlignUp, Read;
    var n := |w.log.finished|;
    var w' := World(Finish(w.o), Log(w.log.finished + [Finished(w.o)], []));
    assert InCurrent(w', n);
    assert forall i :: 0 <= i < n ==> (InCurrent(w', i) <==> InCurrent(w, i)) && w'.log.finished[i] == w.log.finished[i];
  }

  lemma ValidOrder(o: Obstack, log: Log)
    requires Valid(o, log)
    ensures o.chunks != [] && o.base <= o.next
  {
  }

  lemma StepExact(w: World, op: Op)
    requires Valid(w.o, w.log) && Exact(w) && Allowed(w, op) && !op.FreeOp?
    ensures Exact(Step(w, op))
  {
    hide Valid, Exact, Grow, Blank, MakeRoom, Finish, Unwind, Finished, SuitsIfNeeded, Known, Unknown;
    ValidOrder(w.o, w.log);
    var log := w.log;
    match op
    case RoomOp(n, a) =>
      MakeRoomExact(w, n, a);
    case GrowOp(data, a) =>
      GrowExact(w, data, a, log.growing + Known(data));
    case Grow0Op(data, a) =>
      GrowExact(w, data + [0], a, log.growing + Known(data + [0]));
    case OneGrowOp(byte, a) =>
      GrowExact(w, [byte], a, log.growing + Known([byte]));
    case BlankOp(n, a) =>
      BlankExact(w, n, a, log.growing + Unknown(n));
    case FinishOp =>
      FinishExact(w);
    case AllocOp(n, a) =>
      BlankExact(w, n, a, []);
      BlankValid(w.o, log, n, a);
      ValidOrder(Blank(w.o, n, a), log.(growing := log.growing + Unknown(n)));
      FinishExact(World(Blank(w.o, n, a), log.(growing := [])));
    case CopyOp(data, a) =>
      GrowThenFinish(w, data, a);
    case Copy0Op(data, a) =>
      GrowThenFinish(w, data + [0], a);
  }

  lemma GrowThenFinish(w: World, data: seq<U8>, a: Allocation)
    requires Valid(w.o, w.log) && Exact(w) && SuitsIfNeeded(w.o, a, |data|)
    ensures w.o.chunks != [] && var o := Grow(w.o, data, a);
            && o.chunks != [] && o.base <= o.next
            && Exact(World(Finish(o), Log(w.log.finished + [Finished(o)], [])))
  {
    hide Valid, Exact, Grow, Finish, Finished, SuitsIfNeeded, Known;
    ValidOrder(w.o, w.log);
    GrowExact(w, data, a, []);
    GrowValid(w.o, w.log, data, a);
    ValidOrder(Grow(w.o, data, a), w.log.(growing := w.log.growing + Known(data)));
    FinishExact(World(Grow(w.o, data, a), w.log.(growing := [])));
  }

  lemma {:induction false} RunExact(w: World, ops: seq<Op>, w': World)
    requires Valid(w.o, w.log) && Exact(w) && Leads(w, ops, w') && FreesNothing(ops)
    ensures Exact(w')
    decreases |ops|
  {
    if ops != [] {
      hide Valid, Exact, Step;
      StepValid(w, ops[0]);
      StepExact(w, ops[0]);
      RunExact(Step(w, ops[0]), ops[1..], w');
    }
  }

  lemma BeginExact(a: Allocation, mask: nat)
    ensures Exact(Begin(a, mask))
  {
    hide ContentsOf;
  }

  /** From a new obstack on, as long as nothing is freed: the flag is set exactly if the current chunk
      holds an empty object, and moving on to a new chunk gives the current one back exactly if it
      holds no finished object at all. */
  lemma ChunkGivenBackIff(a: Allocation, mask: nat, ops: seq<Op>, w: World, next: Allocation)
    requires Valid(Begin(a, mask).o, Begin(a, mask).log) && Leads(Begin(a, mask), ops, w) && FreesNothing(ops)
    ensures w.o.chunks != []
    ensures w.o.maybeEmpty <==> exists i :: 0 <= i < |w.log.finished| && InCurrent(w, i) && w.log.finished[i].bytes == []
    ensures NewChunk(w.o, next).chunks ==
              if forall i :: 0 <= i < |w.log.finished| ==> !InCurrent(w, i) then w.o.chunks[..|w.o.chunks| - 1] + [next.chunk]
              else w.o.chunks + [next.chunk]
  {
    hide Leads, Begin, ContentsOf, Bytes, Write;
    BeginExact(a, mask);
    RunExact(Begin(a, mask), ops, w);
    RunValid(Begin(a, mask), ops, w);
    if OnlyGrowing(w.o) {
      forall i | 0 <= i < |w.log.finished| ensures !InCurrent(w, i) {
        assert ObjectOk(w.o, w.log.finished[i]);
        NothingLost(w.o, w.log, w.log.finished[i]);
      }
    }
  }
}
