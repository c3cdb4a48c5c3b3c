/** The macros of `obstack.h` as they run, on one control block: the GNU form, which keeps its
    temporaries in local variables, and the portable form, which keeps them in the `temp` slot. */
module ObstackMacros {
  import opened Basics
  import opened Bits
  import opened ObstackAlign
  import opened ObstackModel
  import opened ObstackLemmas
  import opened ObstackRuns

  /** One call of a macro, with what the chunk allocator hands out should it be asked. */
  datatype Call =
    | MakeRoomCall(length: nat, a: Allocation)
    | GrowCall(data: seq<U8>, a: Allocation)
    | Grow0Call(data: seq<U8>, a: Allocation)
    | OneGrowCall(byte: U8, a: Allocation)
    | BlankCall(length: nat, a: Allocation)
    | FinishCall
    | AllocCall(length: nat, a: Allocation)
    | CopyCall(data: seq<U8>, a: Allocation)
    | Copy0Call(data: seq<U8>, a: Allocation)
    | FreeCall(obj: nat)

  ghost predicate Sound(o: Obstack) {
    ChunksOk(o) && PointersOk(o)
  }

  /** The address lies in a chunk that has not been given back. */
  ghost predicate Within(o: Obstack, obj: nat) {
    exists i :: 0 <= i < |o.chunks| && Holds(o.chunks[i], obj)
  }

  ghost predicate CallOk(o: Obstack, call: Call) {
    && Sound(o)
    && match call
       case MakeRoomCall(n, a) => SuitsIfNeeded(o, a, n)
       case GrowCall(data, a) => SuitsIfNeeded(o, a, |data|)
       case Grow0Call(data, a) => SuitsIfNeeded(o, a, |data| + 1)
       case OneGrowCall(_, a) => SuitsIfNeeded(o, a, 1)
       case BlankCall(n, a) => SuitsIfNeeded(o, a, n)
       case FinishCall => true
       case AllocCall(n, a) => SuitsIfNeeded(o, a, n)
       case CopyCall(data, a) => SuitsIfNeeded(o, a, |data|)
       case Copy0Call(data, a) => SuitsIfNeeded(o, a, |data| + 1)
       case FreeCall(obj) => Within(o, obj)
  }

  /** What a call does to the control block. */
  ghost function After(o: Obstack, call: Call): Obstack
    requires CallOk(o, call)
  {
    match call
    case MakeRoomCall(n, a) => MakeRoom(o, n, a)
    case GrowCall(data, a) => Grow(o, data, a)
    case Grow0Call(data, a) => Grow(o, data + [0], a)
    case OneGrowCall(byte, a) => Grow(o, [byte], a)
    case BlankCall(n, a) => Blank(o, n, a)
    case FinishCall => Finish(o)
    case AllocCall(n, a) => Finish(Blank(o, n, a))
    case CopyCall(data, a) => Finish(Grow(o, data, a))
    case Copy0Call(data, a) => Finish(Grow(o, data + [0], a))
    case FreeCall(obj) => Unwind(o, obj)
  }

  /** The address a call returns; zero for a call of type `void`. */
  ghost function Value(o: Obstack, call: Call): nat
    requires CallOk(o, call)
  {
    match call
    case FinishCall => o.base
    case AllocCall(n, a) => Blank(o, n, a).base
    case CopyCall(data, a) => Grow(o, data, a).base
    case Copy0Call(data, a) => Grow(o, data + [0], a).base
    case _ => 0
  }

  /** Growing stays inside the chunk. */
  lemma MakeRoomSound(o: Obstack, n: nat, a: Allocation)
    requires Sound(o) && SuitsIfNeeded(o, a, n)
    ensures Sound(MakeRoom(o, n, a))
    ensures MakeRoom(o, n, a).limit - MakeRoom(o, n, a).next >= n
  {
    hide ChunksOk, PointersOk, Suits, NewChunk, Wrap;
    PlainRoom(o);
    if Room(o) < n {
      NewChunkChunks(o, a, n);
    }
  }

  lemma PlainRoom(o: Obstack)
    requires Sound(o)
    ensures o.chunks != [] && Room(o) == o.limit - o.next
  {
    PlainSizes(o);
  }

  lemma BlankSound(o: Obstack, n: nat, a: Allocation)
    requires Sound(o) && SuitsIfNeeded(o, a, n)
    ensures Sound(Blank(o, n, a))
  {
    hide Mask, Multiple, Present, Apart, ChunkOk, MakeRoom, SuitsIfNeeded;
    MakeRoomSound(o, n, a);
  }

  lemma GrowSound(o: Obstack, data: seq<U8>, a: Allocation)
    requires Sound(o) && SuitsIfNeeded(o, a, |data|)
    ensures Sound(Grow(o, data, a))
  {
    hide Mask, Multiple, Present, Apart, ChunkOk, MakeRoom, SuitsIfNeeded;
    MakeRoomSound(o, |data|, a);
    AppendChunks(MakeRoom(o, |data|, a), data);
  }

  /** The bytes at address `a` are these. */
  ghost predicate HoldsAt(m: map<nat, U8>, a: nat, data: seq<U8>) {
    Bytes(m, a, |data|) == data
  }

  /** An object of `size` bytes that has just been finished begins at `v`. */
  ghost predicate Placed(o: Obstack, v: nat, size: nat) {
    && o.chunks != []
    && Last(o).addr + 16 <= v
    && v + size <= o.next == o.base <= o.limit == Last(o).limit
    && (size > 0 ==> Multiple(v, o.mask + 1))
  }

  lemma FinishPlaces(o: Obstack)
    requires Sound(o)
    ensures Placed(Finish(o), o.base, o.next - o.base) && Finish(o).memory == o.memory && Finish(o).mask == o.mask
  {
    hide AlignUp, Multiple, Mask, ChunksOk;
    AlignUpIsMultiple(o.next, o.mask);
  }

  /** Making room keeps the size of the object so far. */
  lemma MakeRoomSize(o: Obstack, n: nat, a: Allocation)
    requires Sound(o) && SuitsIfNeeded(o, a, n)
    ensures var o' := MakeRoom(o, n, a); o'.next - o'.base == o.next - o.base && o'.mask == o.mask
  {
    PlainRoom(o);
    hide ChunksOk, PointersOk, Suits, Room;
    if Room(o) < n {
      NewChunkChunks(o, a, n);
    }
  }

  /** What `obstack_alloc` returns is the start of an object with room for what had been grown and for
      `n` bytes more. */
  lemma AllocPlaces(o: Obstack, n: nat, a: Allocation)
    requires CallOk(o, AllocCall(n, a))
    ensures Placed(After(o, AllocCall(n, a)), Value(o, AllocCall(n, a)), o.next - o.base + n)
    ensures After(o, AllocCall(n, a)).mask == o.mask
  {
    BlankSound(o, n, a);
    MakeRoomSize(o, n, a);
    FinishPlaces(Blank(o, n, a));
    hide Sound, SuitsIfNeeded, MakeRoom, Finish, Placed;
  }

  /** What `obstack_copy` returns is the start of an object that ends in the data. */
  lemma CopyPlaces(o: Obstack, data: seq<U8>, a: Allocation)
    requires Sound(o) && SuitsIfNeeded(o, a, |data|)
    ensures o.chunks != [] && Copied(o, Finish(Grow(o, data, a)), Grow(o, data, a).base, data)
  {
    hide Sound, SuitsIfNeeded, Finish, Grow, HoldsAt, Multiple;
    SoundOrder(o);
    GrowPlaces(o, data, a);
    GrowSound(o, data, a);
    SoundOrder(Grow(o, data, a));
    FinishPlaces(Grow(o, data, a));
  }

  lemma GrowPlaces(o: Obstack, data: seq<U8>, a: Allocation)
    requires Sound(o) && SuitsIfNeeded(o, a, |data|)
    ensures o.chunks != [] && o.base <= o.next
    ensures var o' := Grow(o, data, a);
            && o'.next == o'.base + (o.next - o.base) + |data|
            && HoldsAt(o'.memory, o'.base + (o.next - o.base), data)
  {
    hide Sound, SuitsIfNeeded, MakeRoom, Grow, HoldsAt, Append;
    SoundOrder(o);
    MakeRoomSize(o, |data|, a);
    MakeRoomSound(o, |data|, a);
    var room := MakeRoom(o, |data|, a);
    AppendedBytes(room, data);
    GrowFields(o, data, a);
    assert room.next == room.base + (o.next - o.base);
  }

  lemma SoundOrder(o: Obstack)
    requires Sound(o)
    ensures o.chunks != [] && o.base <= o.next
  {
  }

  lemma GrowFields(o: Obstack, data: seq<U8>, a: Allocation)
    requires o.chunks != []
    ensures var room, o' := MakeRoom(o, |data|, a), Grow(o, data, a);
            && o'.base == room.base && o'.next == room.next + |data| && o'.mask == room.mask
            && o'.memory == Append(room, data).memory
  {
    hide MakeRoom, Write;
  }

  lemma AppendedBytes(o: Obstack, data: seq<U8>)
    requires Sound(o) && o.limit - o.next >= |data|
    ensures HoldsAt(Append(o, data).memory, o.next, data)
  {
    hide Bytes, Write, Mask, Multiple, Read;
    var m := Append(o, data).memory;
    forall i | 0 <= i < |data| ensures Bytes(m, o.next, |data|)[i] == data[i] {
      AppendReads(o, data, |o.chunks| - 1, o.next + i);
    }
  }

  /** The object being grown is longer by `data`, which stands at its end. */
  ghost predicate Grown(o: Obstack, o': Obstack, data: seq<U8>) {
    && o.base <= o.next
    && o'.next == o'.base + (o.next - o.base) + |data| <= o'.limit
    && HoldsAt(o'.memory, o'.base + (o.next - o.base), data)
  }

  lemma GrowGrows(o: Obstack, data: seq<U8>, a: Allocation)
    requires Sound(o) && SuitsIfNeeded(o, a, |data|)
    ensures o.chunks != [] && Grown(o, Grow(o, data, a), data)
  {
    hide Sound, SuitsIfNeeded, Grow, HoldsAt;
    GrowPlaces(o, data, a);
    GrowSound(o, data, a);
    SoundWithin(Grow(o, data, a));
  }

  lemma Grow0Grows(o: Obstack, data: seq<U8>, a: Allocation)
    requires CallOk(o, Grow0Call(data, a))
    ensures Grown(o, After(o, Grow0Call(data, a)), data + [0])
  {
    hide Sound, SuitsIfNeeded, Grown, Grow;
    GrowGrows(o, data + [0], a);
  }

  lemma SoundWithin(o: Obstack)
    requires Sound(o)
    ensures o.next <= o.limit
  {
  }

  lemma BlankGrows(o: Obstack, n: nat, a: Allocation)
    requires Sound(o) && SuitsIfNeeded(o, a, n)
    ensures o.chunks != [] && Blank(o, n, a).next - Blank(o, n, a).base == o.next - o.base + n
  {
    PlainRoom(o);
    MakeRoomSize(o, n, a);
    hide Sound, SuitsIfNeeded, MakeRoom;
  }

  lemma {:induction false} UnwindBase(o: Obstack, obj: nat)
    requires Within(o, obj)
    ensures Unwind(o, obj).base == Unwind(o, obj).next == obj
    decreases |o.chunks|
  {
    if !Holds(Last(o), obj) {
      var c := Last(o);
      assert exists i :: 0 <= i < |o.chunks| - 1 && Holds(o.chunks[i], obj);
      UnwindBase(o.(chunks := o.chunks[..|o.chunks| - 1], memory := ObstackModel.Without(o.memory, c), maybeEmpty := true), obj);
    }
  }

  /** `obstack_copy` grows and finishes, and so does `obstack_copy0`. */
  lemma CopyCallIs(o: Obstack, data: seq<U8>, a: Allocation)
    requires CallOk(o, CopyCall(data, a))
    ensures CallOk(o, GrowCall(data, a)) && Sound(After(o, GrowCall(data, a)))
    ensures After(o, CopyCall(data, a)) == Finish(After(o, GrowCall(data, a)))
    ensures Value(o, CopyCall(data, a)) == After(o, GrowCall(data, a)).base
    ensures Copied(o, After(o, CopyCall(data, a)), Value(o, CopyCall(data, a)), data)
  {
    hide Sound, SuitsIfNeeded, Grow, Finish, Copied;
    CopyPlaces(o, data, a);
    GrowSound(o, data, a);
  }

  lemma Copy0CallIs(o: Obstack, data: seq<U8>, a: Allocation)
    requires CallOk(o, Copy0Call(data, a))
    ensures CallOk(o, Grow0Call(data, a)) && Sound(After(o, Grow0Call(data, a)))
    ensures After(o, Copy0Call(data, a)) == Finish(After(o, Grow0Call(data, a)))
    ensures Value(o, Copy0Call(data, a)) == After(o, Grow0Call(data, a)).base
    ensures Copied(o, After(o, Copy0Call(data, a)), Value(o, Copy0Call(data, a)), data + [0])
  {
    hide Sound, SuitsIfNeeded, Grow, Finish, Copied;
    CopyPlaces(o, data + [0], a);
    GrowSound(o, data + [0], a);
  }

  /** `v` is the address of an object that consists of what had been grown and of `data`. */
  ghost predicate Copied(o: Obstack, o': Obstack, v: nat, data: seq<U8>) {
    && o.base <= o.next
    && HoldsAt(o'.memory, v + (o.next - o.base), data)
    && v + (o.next - o.base) + |data| <= o'.next
    && (data != [] ==> Multiple(v, o'.mask + 1))
  }

  /** `struct obstack` and the memory behind it. */
  class Control {
    var chunks: seq<Chunk>
    var objectBase: nat
    var nextFree: nat
    var chunkLimit: nat
    var temp: nat
    var alignmentMask: nat
    var maybeEmptyObject: bool
    var memory: map<nat, U8>

    constructor (o: Obstack)
      ensures Contents() == o
    {
      chunks, objectBase, nextFree, chunkLimit := o.chunks, o.base, o.next, o.limit;
      alignmentMask, maybeEmptyObject, memory := o.mask, o.maybeEmpty, o.memory;
      temp := 0;
    }

    /** Everything but the `temp` slot. */
    function Contents(): Obstack
      reads this
    {
      Obstack(chunks, objectBase, nextFree, chunkLimit, alignmentMask, maybeEmptyObject, memory)
    }

    method Set(o: Obstack)
      modifies this
      ensures Contents() == o && temp == old(temp)
    {
      chunks, objectBase, nextFree, chunkLimit := o.chunks, o.base, o.next, o.limit;
      alignmentMask, maybeEmptyObject, memory := o.mask, o.maybeEmpty, o.memory;
    }

    /** `memcpy` to `next_free`, which then moves past the copy. */
    method CopyIn(data: seq<U8>)
      modifies this
      ensures Contents() == Append(old(Contents()), data) && temp == old(temp)
    {
      memory := Write(memory, nextFree, data);
      nextFree := nextFree + |data|;
    }

    /** `obstack_1grow_fast`. */
    method OneGrowFast(byte: U8)
      modifies this
      ensures Contents() == Append(old(Contents()), [byte]) && temp == old(temp)
    {
      memory := Write(memory, nextFree, [byte]);
      nextFree := nextFree + 1;
    }

    // -------------------------------------------------------------- the GNU form

    method GnuMakeRoom(length: nat, a: Allocation)
      requires CallOk(Contents(), MakeRoomCall(length, a))
      modifies this
      ensures Contents() == After(old(Contents()), MakeRoomCall(length, a)) && temp == old(temp)
    {
      var len := length;
      if Room(Contents()) < len {
        Set(NewChunk(Contents(), a));
      }
    }

    method GnuGrow(data: seq<U8>, a: Allocation)
      requires CallOk(Contents(), GrowCall(data, a))
      modifies this
      ensures Contents() == After(old(Contents()), GrowCall(data, a)) && temp == old(temp)
      ensures Grown(old(Contents()), Contents(), data)
    {
      hide Grown, Write, NewChunk, Room, Sound, SuitsIfNeeded;
      GrowGrows(Contents(), data, a);
      PlainRoom(Contents());
      var len := |data|;
      if Room(Contents()) < len {
        Set(NewChunk(Contents(), a));
      }
      CopyIn(data);
    }

    method GnuGrow0(data: seq<U8>, a: Allocation)
      requires CallOk(Contents(), Grow0Call(data, a))
      modifies this
      ensures Contents() == After(old(Contents()), Grow0Call(data, a)) && temp == old(temp)
      ensures Grown(old(Contents()), Contents(), data + [0])
    {
      Grow0Grows(Contents(), data, a);
      hide Grown, Write, NewChunk, Room, CallOk, After, Wrap;
      AfterGrow0(Contents(), data, a);
      var len := |data|;
      if Room(Contents()) < Wrap(len + 1) {
        Set(NewChunk(Contents(), a));
      }
      assert Contents() == MakeRoom(old(Contents()), |data| + 1, a);
      hide MakeRoom, Append;
      CopyIn(data);
      OneGrowFast(0);
    }

    method Gnu1Grow(byte: U8, a: Allocation)
      requires CallOk(Contents(), OneGrowCall(byte, a))
      modifies this
      ensures Contents() == After(old(Contents()), OneGrowCall(byte, a)) && temp == old(temp)
      ensures Grown(old(Contents()), Contents(), [byte])
    {
      GrowGrows(Contents(), [byte], a);
      hide Grown;
      if Room(Contents()) < 1 {
        Set(NewChunk(Contents(), a));
      }
      OneGrowFast(byte);
    }

    method GnuBlank(length: nat, a: Allocation)
      requires CallOk(Contents(), BlankCall(length, a))
      modifies this
      ensures Contents() == After(old(Contents()), BlankCall(length, a)) && temp == old(temp)
      ensures nextFree - objectBase == old(nextFree) - old(objectBase) + length
    {
      BlankGrows(Contents(), length, a);
      var len := length;
      if Room(Contents()) < len {
        Set(NewChunk(Contents(), a));
      }
      nextFree := nextFree + len;
    }

    method GnuFinish() returns (value: nat)
      requires Sound(Contents())
      modifies this
      ensures Contents() == Finish(old(Contents())) && value == old(Contents()).base && temp == old(temp)
    {
      hide AlignUp, BptrAlign, Wrap, Mask, Multiple, ChunkOk, Present, Apart;
      FinishComputes(Contents());
      value := objectBase;
      if nextFree == value {
        maybeEmptyObject := true;
      }
      nextFree := PtrAlign(nextFree, alignmentMask);
      var chunk := chunks[|chunks| - 1].addr;
      if Minus(nextFree, chunk) > Minus(chunkLimit, chunk) {
        nextFree := chunkLimit;
      }
      objectBase := nextFree;
    }

    method GnuFree(obj: nat)
      requires CallOk(Contents(), FreeCall(obj))
      modifies this
      ensures Contents() == After(old(Contents()), FreeCall(obj)) && temp == old(temp)
      ensures objectBase == nextFree == obj
    {
      UnwindBase(Contents(), obj);
      if obj > chunks[|chunks| - 1].addr && obj < chunkLimit {
        objectBase := obj;
        nextFree := objectBase;
      } else {
        Set(Unwind(Contents(), obj));
      }
    }

    method GnuAlloc(length: nat, a: Allocation) returns (value: nat)
      requires CallOk(Contents(), AllocCall(length, a))
      modifies this
      ensures Contents() == After(old(Contents()), AllocCall(length, a)) && temp == old(temp)
      ensures value == Value(old(Contents()), AllocCall(length, a))
      ensures value + (old(nextFree) - old(objectBase)) + length <= nextFree == objectBase <= chunkLimit
      ensures length > 0 ==> Multiple(value, alignmentMask + 1)
    {
      AllocPlaces(Contents(), length, a);
      BlankSound(Contents(), length, a);
      hide Sound, SuitsIfNeeded, Blank, Finish, Multiple;
      hide Sound, SuitsIfNeeded, Blank, Finish, Multiple;
      GnuBlank(length, a);
      value := GnuFinish();
    }

    method GnuCopy(data: seq<U8>, a: Allocation) returns (value: nat)
      requires CallOk(Contents(), CopyCall(data, a))
      modifies this
      ensures Contents() == After(old(Contents()), CopyCall(data, a)) && temp == old(temp)
      ensures value == Value(old(Contents()), CopyCall(data, a))
      ensures Copied(old(Contents()), Contents(), value, data)
    {
      hide CallOk, Sound, After, Value, Finish, Copied;
      CopyCallIs(Contents(), data, a);
      hide Sound, SuitsIfNeeded, Grow, Finish, HoldsAt, Placed, Multiple;
      GnuGrow(data, a);
      value := GnuFinish();
    }

    method GnuCopy0(data: seq<U8>, a: Allocation) returns (value: nat)
      requires CallOk(Contents(), Copy0Call(data, a))
      modifies this
      ensures Contents() == After(old(Contents()), Copy0Call(data, a)) && temp == old(temp)
      ensures value == Value(old(Contents()), Copy0Call(data, a))
      ensures Copied(old(Contents()), Contents(), value, data + [0])
    {
      hide CallOk, Sound, After, Value, Finish, Copied;
      Copy0CallIs(Contents(), data, a);
      hide Sound, SuitsIfNeeded, Grow, Finish, HoldsAt, Placed, Multiple;
      GnuGrow0(data, a);
      value := GnuFinish();
    }

    method GnuCall(call: Call) returns (value: nat)
      requires CallOk(Contents(), call)
      modifies this
      ensures Contents() == After(old(Contents()), call) && value == Value(old(Contents()), call) && temp == old(temp)
    {
      hide ChunksOk, PointersOk, SuitsIfNeeded, Holds, Grow, Blank, MakeRoom, Finish, Unwind;
      value := 0;
      match call {
        case MakeRoomCall(n, a) => GnuMakeRoom(n, a);
        case GrowCall(data, a) => GnuGrow(data, a);
        case Grow0Call(data, a) => GnuGrow0(data, a);
        case OneGrowCall(byte, a) => Gnu1Grow(byte, a);
        case BlankCall(n, a) => GnuBlank(n, a);
        case FinishCall => value := GnuFinish();
        case AllocCall(n, a) => value := GnuAlloc(n, a);
        case CopyCall(data, a) => value := GnuCopy(data, a);
        case Copy0Call(data, a) => value := GnuCopy0(data, a);
        case FreeCall(obj) => GnuFree(obj);
      }
    }

    // -------------------------------------------------------------- the portable form

    method PortableMakeRoom(length: nat, a: Allocation)
      requires CallOk(Contents(), MakeRoomCall(length, a))
      modifies this
      ensures Contents() == After(old(Contents()), MakeRoomCall(length, a))
    {
      temp := length;
      if Room(Contents()) < temp {
        Set(NewChunk(Contents(), a));
      }
    }

    method PortableGrow(data: seq<U8>, a: Allocation)
      requires CallOk(Contents(), GrowCall(data, a))
      modifies this
      ensures Contents() == After(old(Contents()), GrowCall(data, a))
      ensures Grown(old(Contents()), Contents(), data)
    {
      hide Grown, Write, NewChunk, Room, Sound, SuitsIfNeeded;
      GrowGrows(Contents(), data, a);
      PlainRoom(Contents());
      temp := |data|;
      assert data[..temp] == data;
      if Room(Contents()) < temp {
        Set(NewChunk(Contents(), a));
      }
      CopyIn(data[..temp]);
    }

    method PortableGrow0(data: seq<U8>, a: Allocation)
      requires CallOk(Contents(), Grow0Call(data, a))
      modifies this
      ensures Contents() == After(old(Contents()), Grow0Call(data, a))
      ensures Grown(old(Contents()), Contents(), data + [0])
    {
      Grow0Grows(Contents(), data, a);
      hide Grown, Write, NewChunk, Room, CallOk, After, Wrap, Append;
      AfterGrow0(Contents(), data, a);
      temp := |data|;
      var where := data[..temp];
      assert where == data;
      if Room(Contents()) < Wrap(temp + 1) {
        Set(NewChunk(Contents(), a));
      }
      assert Contents() == MakeRoom(old(Contents()), |data| + 1, a);
      hide MakeRoom;
      CopyIn(where);
      OneGrowFast(0);
    }

    method Portable1Grow(byte: U8, a: Allocation)
      requires CallOk(Contents(), OneGrowCall(byte, a))
      modifies this
      ensures Contents() == After(old(Contents()), OneGrowCall(byte, a))
      ensures Grown(old(Contents()), Contents(), [byte])
    {
      GrowGrows(Contents(), [byte], a);
      hide Grown;
      if Room(Contents()) < 1 {
        Set(NewChunk(Contents(), a));
      }
      OneGrowFast(byte);
    }

    method PortableBlank(length: nat, a: Allocation)
      requires CallOk(Contents(), BlankCall(length, a))
      modifies this
      ensures Contents() == After(old(Contents()), BlankCall(length, a))
      ensures nextFree - objectBase == old(nextFree) - old(objectBase) + length
    {
      BlankGrows(Contents(), length, a);
      hide NewChunk, Room, ChunksOk, SuitsIfNeeded;
      temp := length;
      if Room(Contents()) < temp {
        Set(NewChunk(Contents(), a));
      }
      nextFree := nextFree + temp;
    }

    method PortableFinish() returns (value: nat)
      requires Sound(Contents())
      modifies this
      ensures Contents() == Finish(old(Contents())) && value == old(Contents()).base
    {
      hide AlignUp, BptrAlign, Wrap, Mask, Multiple, ChunkOk, Present, Apart;
      FinishComputes(Contents());
      if nextFree == objectBase {
        maybeEmptyObject := true;
      }
      temp := objectBase;
      nextFree := PtrAlign(nextFree, alignmentMask);
      var chunk := chunks[|chunks| - 1].addr;
      if Minus(nextFree, chunk) > Minus(chunkLimit, chunk) {
        nextFree := chunkLimit;
      }
      objectBase := nextFree;
      value := temp;
    }

    method PortableFree(obj: nat)
      requires CallOk(Contents(), FreeCall(obj))
      modifies this
      ensures Contents() == After(old(Contents()), FreeCall(obj))
      ensures objectBase == nextFree == obj
    {
      UnwindBase(Contents(), obj);
      temp := obj;
      if temp > chunks[|chunks| - 1].addr && temp < chunkLimit {
        objectBase := temp;
        nextFree := objectBase;
      } else {
        Set(Unwind(Contents(), temp));
      }
    }

    method PortableAlloc(length: nat, a: Allocation) returns (value: nat)
      requires CallOk(Contents(), AllocCall(length, a))
      modifies this
      ensures Contents() == After(old(Contents()), AllocCall(length, a))
      ensures value == Value(old(Contents()), AllocCall(length, a))
      ensures value + (old(nextFree) - old(objectBase)) + length <= nextFree == objectBase <= chunkLimit
      ensures length > 0 ==> Multiple(value, alignmentMask + 1)
    {
      AllocPlaces(Contents(), length, a);
      BlankSound(Contents(), length, a);
      hide Sound, SuitsIfNeeded, Blank, Finish, Multiple;
      hide Sound, SuitsIfNeeded, Blank, Finish, Multiple;
      PortableBlank(length, a);
      value := PortableFinish();
    }

    method PortableCopy(data: seq<U8>, a: Allocation) returns (value: nat)
      requires CallOk(Contents(), CopyCall(data, a))
      modifies this
      ensures Contents() == After(old(Contents()), CopyCall(data, a))
      ensures value == Value(old(Contents()), CopyCall(data, a))
      ensures Copied(old(Contents()), Contents(), value, data)
    {
      hide CallOk, Sound, After, Value, Finish, Copied;
      CopyCallIs(Contents(), data, a);
      hide Sound, SuitsIfNeeded, Grow, Finish, HoldsAt, Placed, Multiple;
      PortableGrow(data, a);
      value := PortableFinish();
    }

    method PortableCopy0(data: seq<U8>, a: Allocation) returns (value: nat)
      requires CallOk(Contents(), Copy0Call(data, a))
      modifies this
      ensures Contents() == After(old(Contents()), Copy0Call(data, a))
      ensures value == Value(old(Contents()), Copy0Call(data, a))
      ensures Copied(old(Contents()), Contents(), value, data + [0])
    {
      hide CallOk, Sound, After, Value, Finish, Copied;
      Copy0CallIs(Contents(), data, a);
      hide Sound, SuitsIfNeeded, Grow, Finish, HoldsAt, Placed, Multiple;
      PortableGrow0(data, a);
      value := PortableFinish();
    }

    method PortableCall(call: Call) returns (value: nat)
      requires CallOk(Contents(), call)
      modifies this
      ensures Contents() == After(old(Contents()), call) && value == Value(old(Contents()), call)
    {
      hide ChunksOk, PointersOk, SuitsIfNeeded, Holds, Grow, Blank, MakeRoom, Finish, Unwind;
      value := 0;
      match call {
        case MakeRoomCall(n, a) => PortableMakeRoom(n, a);
        case GrowCall(data, a) => PortableGrow(data, a);
        case Grow0Call(data, a) => PortableGrow0(data, a);
        case OneGrowCall(byte, a) => Portable1Grow(byte, a);
        case BlankCall(n, a) => PortableBlank(n, a);
        case FinishCall => value := PortableFinish();
        case AllocCall(n, a) => value := PortableAlloc(n, a);
        case CopyCall(data, a) => value := PortableCopy(data, a);
        case Copy0Call(data, a) => value := PortableCopy0(data, a);
        case FreeCall(obj) => PortableFree(obj);
      }
    }
  }

  // ---------------------------------------------------------------- sequences of calls

  ghost predicate CallsOk(o: Obstack, calls: seq<Call>)
    decreases |calls|
  {
    calls == [] || (CallOk(o, calls[0]) && CallsOk(After(o, calls[0]), calls[1..]))
  }

  ghost function AfterAll(o: Obstack, calls: seq<Call>): Obstack
    requires CallsOk(o, calls)
    decreases |calls|
  {
    if calls == [] then o else AfterAll(After(o, calls[0]), calls[1..])
  }

  ghost function Values(o: Obstack, calls: seq<Call>): seq<nat>
    requires CallsOk(o, calls)
    decreases |calls|
  {
    if calls == [] then [] else [Value(o, calls[0])] + Values(After(o, calls[0]), calls[1..])
  }

  method RunGnu(c: Control, calls: seq<Call>) returns (values: seq<nat>)
    requires CallsOk(c.Contents(), calls)
    modifies c
    ensures c.Contents() == AfterAll(old(c.Contents()), calls)
    ensures values == Values(old(c.Contents()), calls) && c.temp == old(c.temp)
  {
    hide After, CallOk, Value;
    values := [];
    for i := 0 to |calls|
      invariant CallsOk(c.Contents(), calls[i..]) && c.temp == old(c.temp)
      invariant AfterAll(c.Contents(), calls[i..]) == AfterAll(old(c.Contents()), calls)
      invariant values + Values(c.Contents(), calls[i..]) == Values(old(c.Contents()), calls)
    {
      assert calls[i..][0] == calls[i] && calls[i..][1..] == calls[i + 1..];
      var v := c.GnuCall(calls[i]);
      values := values + [v];
    }
  }

  method RunPortable(c: Control, calls: seq<Call>) returns (values: seq<nat>)
    requires CallsOk(c.Contents(), calls)
    modifies c
    ensures c.Contents() == AfterAll(old(c.Contents()), calls)
    ensures values == Values(old(c.Contents()), calls)
  {
    hide After, CallOk, Value;
    values := [];
    for i := 0 to |calls|
      invariant CallsOk(c.Contents(), calls[i..])
      invariant AfterAll(c.Contents(), calls[i..]) == AfterAll(old(c.Contents()), calls)
      invariant values + Values(c.Contents(), calls[i..]) == Values(old(c.Contents()), calls)
    {
      assert calls[i..][0] == calls[i] && calls[i..][1..] == calls[i + 1..];
      var v := c.PortableCall(calls[i]);
      values := values + [v];
    }
  }

  /** The two forms of the macros, run on two control blocks that start out alike, return the same
      addresses and leave the blocks alike, for every sequence of calls. */
  method FormsAgree(g: Control, p: Control, calls: seq<Call>) returns (gv: seq<nat>, pv: seq<nat>)
    requires g != p && g.Contents() == p.Contents() && CallsOk(g.Contents(), calls)
    modifies g, p
    ensures gv == pv && g.Contents() == p.Contents() && g.temp == old(g.temp)
  {
    gv := RunGnu(g, calls);
    pv := RunPortable(p, calls);
  }

  /** No request is as large as the address space: no chunk would do for it. */
  lemma RequestFits(o: Obstack, n: nat, a: Allocation)
    requires Sound(o) && SuitsIfNeeded(o, a, n)
    ensures n < W
  {
    PlainRoom(o);
    assert ChunkOk(o.chunks[|o.chunks| - 1]);
  }

  /** Writing the data and then the terminator is growing by both at once. */
  lemma AfterGrow0(o: Obstack, data: seq<U8>, a: Allocation)
    requires CallOk(o, Grow0Call(data, a))
    ensures |data| + 1 < W && o.chunks != []
    ensures var o1 := MakeRoom(o, |data| + 1, a);
            After(o, Grow0Call(data, a)) == Append(Append(o1, data), [0])
  {
    hide NewChunk, ChunksOk, PointersOk, SuitsIfNeeded, Room, Size, Append, Grow, MakeRoom;
    RequestFits(o, |data| + 1, a);
    PlainRoom(o);
    GrowIsAppend(o, data + [0], a);
    AppendTwice(MakeRoom(o, |data| + 1, a), data, [0]);
  }

  lemma GrowIsAppend(o: Obstack, data: seq<U8>, a: Allocation)
    requires o.chunks != []
    ensures Grow(o, data, a) == Append(MakeRoom(o, |data|, a), data)
  {
    hide MakeRoom, Write;
  }

  lemma AppendTwice(o: Obstack, data: seq<U8>, more: seq<U8>)
    ensures Append(Append(o, data), more) == Append(o, data + more)
  {
    hide Write;
    WriteTwice(o.memory, o.next, data, more);
  }

  lemma WriteTwice(m: map<nat, U8>, p: nat, data: seq<U8>, more: seq<U8>)
    ensures Write(Write(m, p, data), p + |data|, more) == Write(m, p, data + more)
  {
  }

  /** The unsigned arithmetic of `obstack_finish` computes what `Finish` says. */
  lemma FinishComputes(o: Obstack)
    requires Sound(o)
    ensures Clamp(PtrAlign(o.next, o.mask), Last(o).addr, o.limit) == Finish(o).next
  {
    hide AlignUp, BptrAlign, Wrap, Mask, Multiple;
    assert ChunkOk(o.chunks[|o.chunks| - 1]);
    ClampedAlign(o.next, o.mask, Last(o).addr, o.limit);
  }
}
