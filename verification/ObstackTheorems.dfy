/** What holds of an obstack after any sequence of operations. */
module ObstackTheorems {
  import opened Basics
  import opened Bits
  import opened ObstackAlign
  import opened ObstackModel
  import opened ObstackLemmas
  import opened ObstackRuns

  /** One operation, with what the chunk allocator hands out should it be asked.  `FreeOp(k)` frees
      the `k`-th finished object and all later ones. */
  datatype Op =
    | RoomOp(n: nat, a: Allocation)
    | GrowOp(data: seq<U8>, a: Allocation)
    | Grow0Op(data: seq<U8>, a: Allocation)
    | OneGrowOp(byte: U8, a: Allocation)
    | BlankOp(n: nat, a: Allocation)
    | FinishOp
    | AllocOp(n: nat, a: Allocation)
    | CopyOp(data: seq<U8>, a: Allocation)
    | Copy0Op(data: seq<U8>, a: Allocation)
    | FreeOp(k: nat)

  datatype World = World(o: Obstack, log: Log)

  /** How many bytes an operation asks room for. */
  function Wanted(op: Op): nat {
    match op
    case RoomOp(n, _) => n
    case GrowOp(data, _) => |data|
    case Grow0Op(data, _) => |data| + 1
    case OneGrowOp(_, _) => 1
    case BlankOp(n, _) => n
    case AllocOp(n, _) => n
    case CopyOp(data, _) => |data|
    case Copy0Op(data, _) => |data| + 1
    case _ => 0
  }

  ghost predicate Allowed(w: World, op: Op) {
    match op
    case FinishOp => true
    case FreeOp(k) => k < |w.log.finished|
    case _ => SuitsIfNeeded(w.o, op.a, Wanted(op))
  }

  function AppendOp(growing: seq<Option<U8>>, op: Op): seq<Option<U8>> {
    match op
    case RoomOp(_, _) => growing
    case GrowOp(data, _) => growing + Known(data)
    case Grow0Op(data, _) => growing + Known(data + [0])
    case OneGrowOp(byte, _) => growing + Known([byte])
    case BlankOp(n, _) => growing + Unknown(n)
    case _ => []
  }

  /** The obstack after an operation. */
  ghost function StateAfter(w: World, op: Op): Obstack
    requires Valid(w.o, w.log) && Allowed(w, op)
  {
    match op
    case RoomOp(n, a) => MakeRoom(w.o, n, a)
    case GrowOp(data, a) => Grow(w.o, data, a)
    case Grow0Op(data, a) => Grow(w.o, data + [0], a)
    case OneGrowOp(byte, a) => Grow(w.o, [byte], a)
    case BlankOp(n, a) => Blank(w.o, n, a)
    case FinishOp => Finish(w.o)
    case AllocOp(n, a) => Finish(Blank(w.o, n, a))
    case CopyOp(data, a) => Finish(Grow(w.o, data, a))
    case Copy0Op(data, a) => Finish(Grow(w.o, data + [0], a))
    case FreeOp(k) =>
      FreeValid(w.o, w.log, k);
      Unwind(w.o, w.log.finished[k].addr)
  }

  /** The objects that are finished then. */
  ghost function FinishedAfter(w: World, op: Op): seq<Object>
    requires Valid(w.o, w.log) && Allowed(w, op)
  {
    match op
    case FinishOp => w.log.finished + [Finished(w.o)]
    case AllocOp(n, a) =>
      BlankValid(w.o, w.log, n, a);
      w.log.finished + [Finished(Blank(w.o, n, a))]
    case CopyOp(data, a) =>
      GrowValid(w.o, w.log, data, a);
      w.log.finished + [Finished(Grow(w.o, data, a))]
    case Copy0Op(data, a) =>
      GrowValid(w.o, w.log, data + [0], a);
      w.log.finished + [Finished(Grow(w.o, data + [0], a))]
    case FreeOp(k) => w.log.finished[..k]
    case _ => w.log.finished
  }

  ghost function Step(w: World, op: Op): World
    requires Valid(w.o, w.log) && Allowed(w, op)
  {
    World(StateAfter(w, op), Log(FinishedAfter(w, op), AppendOp(w.log.growing, op)))
  }

  /** Every operation keeps an obstack valid: its pointers stay in order inside the current chunk,
      its chunks stay disjoint, its finished objects stay where and what they are, and the object
      being grown holds what was appended. */
  lemma StepValid(w: World, op: Op)
    requires Valid(w.o, w.log) && Allowed(w, op)
    ensures Valid(Step(w, op).o, Step(w, op).log)
  {
    hide Valid, Grow, Blank, MakeRoom, Finish, Unwind, Finished, SuitsIfNeeded;
    ValidSizes(w.o, w.log);
    match op {
      case RoomOp(n, a) => MakeRoomValid(w.o, w.log, n, a);
      case GrowOp(data, a) => GrowValid(w.o, w.log, data, a);
      case Grow0Op(data, a) => GrowValid(w.o, w.log, data + [0], a);
      case OneGrowOp(byte, a) => GrowValid(w.o, w.log, [byte], a);
      case BlankOp(n, a) => BlankValid(w.o, w.log, n, a);
      case FinishOp => FinishValid(w.o, w.log);
      case AllocOp(n, a) =>
        BlankValid(w.o, w.log, n, a);
        FinishValid(Blank(w.o, n, a), w.log.(growing := w.log.growing + Unknown(n)));
      case CopyOp(data, a) =>
        GrowValid(w.o, w.log, data, a);
        FinishValid(Grow(w.o, data, a), w.log.(growing := w.log.growing + Known(data)));
      case Copy0Op(data, a) =>
        GrowValid(w.o, w.log, data + [0], a);
        FinishValid(Grow(w.o, data + [0], a), w.log.(growing := w.log.growing + Known(data + [0])));
      case FreeOp(k) => FreeValid(w.o, w.log, k);
    }
  }

  /** `ops` leads from `w` to `w'`. */
  ghost predicate Leads(w: World, ops: seq<Op>, w': World)
    requires Valid(w.o, w.log)
    decreases |ops|
  {
    if ops == [] then w' == w
    else Allowed(w, ops[0]) && (StepValid(w, ops[0]); Leads(Step(w, ops[0]), ops[1..], w'))
  }

  lemma {:induction false} RunValid(w: World, ops: seq<Op>, w': World)
    requires Valid(w.o, w.log) && Leads(w, ops, w')
    ensures Valid(w'.o, w'.log)
    decreases |ops|
  {
    if ops != [] {
      StepValid(w, ops[0]);
      hide Valid, Step;
      RunValid(Step(w, ops[0]), ops[1..], w');
    }
  }

  /** `_obstack_begin`: one chunk and nothing in it. */
  function Begin(a: Allocation, mask: nat): World {
    var base := ContentsOf(a.chunk, mask);
    World(Obstack([a.chunk], base, base, a.chunk.limit, mask, false, a.bytes), Log([], []))
  }

  lemma BeginValid(a: Allocation, mask: nat)
    requires Mask(mask) && ChunkOk(a.chunk) && ContentsOf(a.chunk, mask) <= a.chunk.limit
    requires forall x :: x in a.bytes <==> a.chunk.addr <= x < a.chunk.limit
    ensures Valid(Begin(a, mask).o, Begin(a, mask).log)
  {
    hide AlignUp, Mask, Multiple;
    AlignUpIsMultiple(a.chunk.addr + HEADER, mask);
  }

  // ---------------------------------------------------------------- finished objects

  ghost predicate Disjoint(f: Object, g: Object) {
    End(f) <= g.addr || End(g) <= f.addr
  }

  /** Any two finished objects are disjoint. */
  lemma FinishedAreDisjoint(o: Obstack, log: Log, i: nat, j: nat)
    requires Valid(o, log) && i < j < |log.finished|
    ensures Disjoint(log.finished[i], log.finished[j])
  {
    hide Mask, Multiple, Bytes, Present;
    var f, g := log.finished[i], log.finished[j];
    assert ObjectOk(o, f) && ObjectOk(o, g) && Before(f, g);
    if f.home < g.home {
      assert Apart(o.chunks[f.home], o.chunks[g.home]);
    }
  }

  /** A finished object is disjoint from the object being grown. */
  lemma FinishedApartFromGrowing(o: Obstack, log: Log, i: nat)
    requires Valid(o, log) && i < |log.finished|
    ensures End(log.finished[i]) <= o.base || o.next <= log.finished[i].addr
  {
    hide Mask, Multiple, Bytes, Present;
    var f := log.finished[i];
    assert ObjectOk(o, f);
    if f.home < |o.chunks| - 1 {
      assert Apart(o.chunks[f.home], o.chunks[|o.chunks| - 1]);
    }
  }

  /** No operation frees object `i` or an older one. */
  ghost predicate Spares(ops: seq<Op>, i: nat) {
    forall n :: 0 <= n < |ops| && ops[n].FreeOp? ==> ops[n].k > i
  }

  lemma StepKeepsObject(w: World, op: Op, i: nat)
    requires Valid(w.o, w.log) && Allowed(w, op) && i < |w.log.finished| && (op.FreeOp? ==> op.k > i)
    ensures i < |Step(w, op).log.finished| && Step(w, op).log.finished[i] == w.log.finished[i]
  {
    hide Valid, Grow, Blank, MakeRoom, Finish, Unwind, Finished;
  }

  /** Once finished, an object never changes address: whatever is grown, finished or freed after it,
      through however many chunks, it stays the same object. */
  lemma {:induction false} ObjectStays(w: World, ops: seq<Op>, w': World, i: nat)
    requires Valid(w.o, w.log) && Leads(w, ops, w') && i < |w.log.finished| && Spares(ops, i)
    ensures i < |w'.log.finished| && w'.log.finished[i] == w.log.finished[i]
    decreases |ops|
  {
    if ops != [] {
      hide Step, Valid;
      StepValid(w, ops[0]);
      StepKeepsObject(w, ops[0], i);
      assert Spares(ops[1..], i);
      ObjectStays(Step(w, ops[0]), ops[1..], w', i);
    }
  }

  /** ... and it keeps its bytes, inside one live chunk, aligned, and clear of every other object. */
  lemma FinishedObjectsLast(w: World, ops: seq<Op>, w': World, i: nat)
    requires Valid(w.o, w.log) && Leads(w, ops, w') && i < |w.log.finished| && Spares(ops, i)
    ensures var f := w.log.finished[i];
            && (i < |w'.log.finished| && w'.log.finished[i] == f)
            && Bytes(w'.o.memory, f.addr, |f.bytes|) == f.bytes
            && (f.home < |w'.o.chunks| && w'.o.chunks[f.home].addr + 16 <= f.addr && End(f) <= w'.o.chunks[f.home].limit)
            && (f.bytes != [] ==> Multiple(f.addr, w'.o.mask + 1))
            && (End(f) <= w'.o.base || w'.o.next <= f.addr)
            && forall j :: 0 <= j < |w'.log.finished| && j != i ==> Disjoint(f, w'.log.finished[j])
  {
    RunValid(w, ops, w');
    ObjectStays(w, ops, w', i);
    hide Leads, Multiple, Bytes, Mask, Present;
    var f := w.log.finished[i];
    assert ObjectOk(w'.o, w'.log.finished[i]);
    FinishedApartFromGrowing(w'.o, w'.log, i);
    forall j | 0 <= j < |w'.log.finished| && j != i ensures Disjoint(f, w'.log.finished[j]) {
      if i < j {
        FinishedAreDisjoint(w'.o, w'.log, i, j);
      } else {
        FinishedAreDisjoint(w'.o, w'.log, j, i);
      }
    }
  }

  /** Every finished object of nonzero size starts at a multiple of `alignment_mask + 1`, also after
      a finish that stopped short at the end of its chunk. */
  lemma NonemptyIsAligned(w: World, ops: seq<Op>, w': World, i: nat)
    requires Valid(w.o, w.log) && Leads(w, ops, w') && i < |w'.log.finished|
    ensures w'.log.finished[i].bytes != [] ==> Multiple(w'.log.finished[i].addr, w'.o.mask + 1)
  {
    RunValid(w, ops, w');
    hide Leads, Multiple, Bytes, Mask;
    assert ObjectOk(w'.o, w'.log.finished[i]);
  }

  // ---------------------------------------------------------------- the object being grown

  /** Everything appended since the last finish or free, on top of `growing`. */
  function Appended(growing: seq<Option<U8>>, ops: seq<Op>): seq<Option<U8>>
    decreases |ops|
  {
    if ops == [] then growing else Appended(AppendOp(growing, ops[0]), ops[1..])
  }

  lemma {:induction false} GrowingFollows(w: World, ops: seq<Op>, w': World)
    requires Valid(w.o, w.log) && Leads(w, ops, w')
    ensures w'.log.growing == Appended(w.log.growing, ops)
    decreases |ops|
  {
    if ops != [] {
      assert Step(w, ops[0]).log.growing == AppendOp(w.log.growing, ops[0]);
      StepValid(w, ops[0]);
      hide Step, Valid, AppendOp;
      GrowingFollows(Step(w, ops[0]), ops[1..], w');
    }
  }

  /** The object being grown is the concatenation of everything appended since the last finish,
      however often it moved to a new chunk, and it lies between `object_base` and `chunk_limit`. */
  lemma GrowingIsConcatenation(w: World, ops: seq<Op>, w': World)
    requires Valid(w.o, w.log) && Leads(w, ops, w')
    ensures w'.o.base <= w'.o.next <= w'.o.limit
    ensures GrowingOk(w'.o, Appended(w.log.growing, ops))
  {
    RunValid(w, ops, w');
    GrowingFollows(w, ops, w');
    hide Leads, Appended, GrowingOk, ObjectOk, ChunksOk, Mask, Multiple;
  }

  // ---------------------------------------------------------------- allocating again

  /** `obstack_alloc`: the address it returns, and the obstack after it. */
  function AllocAddress(o: Obstack, n: nat, a: Allocation): nat
    requires o.chunks != []
  {
    Blank(o, n, a).base
  }

  function AfterAlloc(o: Obstack, n: nat, a: Allocation): Obstack
    requires o.chunks != []
  {
    Finish(Blank(o, n, a))
  }

  /** Freeing what was just allocated makes the next allocation of that size come from the same
      address, without another chunk. */
  lemma AllocFreeAlloc(o: Obstack, log: Log, n: nat, a: Allocation, a': Allocation)
    requires Valid(o, log) && SuitsIfNeeded(o, a, n)
    ensures var p := AllocAddress(o, n, a);
            var o1 := AfterAlloc(o, n, a);
            && o1.chunks != []
            && Holds(Last(o1), p)
            && var o2 := Unwind(o1, p);
               && o2.chunks == o1.chunks
               && Room(o2) >= n
               && AllocAddress(o2, n, a') == p
  {
    hide MakeRoom, Mask, Multiple, AlignUp, Wrap, Bytes;
    BlankValid(o, log, n, a);
    var ob := Blank(o, n, a);
    var o1 := AfterAlloc(o, n, a);
    FinishValid(ob, log.(growing := log.growing + Unknown(n)));
    assert ChunkOk(ob.chunks[|ob.chunks| - 1]);
    UnwindTo(o1, ob.base, |o1.chunks| - 1);
    var o2 := Unwind(o1, ob.base);
    assert o1.chunks[..|o1.chunks|] == o1.chunks;
    assert Room(o2) == o2.limit - ob.base;
    SameRoom(o2, n, a');
  }

  lemma SameRoom(o: Obstack, n: nat, a: Allocation)
    requires o.chunks != [] && Room(o) >= n
    ensures MakeRoom(o, n, a) == o
  {
  }
}
