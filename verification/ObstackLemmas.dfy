/** Each obstack operation keeps the finished objects where and what they are. */
module ObstackLemmas {
  import opened Basics
  import opened Bits
  import opened ObstackAlign
  import opened ObstackModel

  lemma PlainSizes(o: Obstack)
    requires ChunksOk(o) && PointersOk(o)
    ensures Room(o) == o.limit - o.next && Size(o) == o.next - o.base
  {
    hide Wrap, Mask, Multiple;
    assert ChunkOk(o.chunks[|o.chunks| - 1]);
  }

  lemma ValidSizes(o: Obstack, log: Log)
    requires Valid(o, log)
    ensures o.chunks != [] && Room(o) == o.limit - o.next >= 0 && Size(o) == o.next - o.base >= 0
  {
    PlainSizes(o);
  }

  /** Memories that agree on a range read the same there. */
  lemma {:induction false} SameBytes(m: map<nat, U8>, m': map<nat, U8>, a: nat, n: nat)
    requires forall x :: a <= x < a + n ==> Read(m, x) == Read(m', x)
    ensures Bytes(m, a, n) == Bytes(m', a, n)
  {
    hide Read;
    if n > 0 {
      SameBytes(m, m', a, n - 1);
    }
  }

  lemma ReadWrite(m: map<nat, U8>, a: nat, data: seq<U8>, x: nat)
    requires x in m
    ensures x in Write(m, a, data)
    ensures Read(Write(m, a, data), x) == if a <= x < a + |data| then data[x - a] else Read(m, x)
  {
  }

  // ---------------------------------------------------------------- a new chunk

  /** The chunk that `_obstack_newchunk` gives back holds no finished object, not even an empty one:
      this is what `maybe_empty_object` is for. */
  lemma NothingLost(o: Obstack, log: Log, f: Object)
    requires PointersOk(o) && OnlyGrowing(o) && ObjectOk(o, f)
    ensures f.home < |o.chunks| - 1
  {
    hide AlignUp, Wrap, Bytes;
    if f.home == |o.chunks| - 1 {
      AlignUpIsLeast(Last(o).addr + HEADER, o.mask, f.addr);
      assert false;
    }
  }

  /** The chunks that stay keep their bytes. */
  lemma NewChunkKeeps(o: Obstack, a: Allocation, n: nat, i: nat, x: nat)
    requires ChunksOk(o) && Suits(o, a, n) && ContentsOf(a.chunk, o.mask) >= a.chunk.addr
    requires i < |o.chunks| && (OnlyGrowing(o) ==> i < |o.chunks| - 1)
    requires o.chunks[i].addr <= x < o.chunks[i].limit
    ensures x in NewChunk(o, a).memory && Read(NewChunk(o, a).memory, x) == Read(o.memory, x)
  {
    hide ContentsOf, Size, Wrap, AlignUp, Bytes;
    assert Apart(o.chunks[i], a.chunk) && Present(o.memory, o.chunks[i]);
    assert i < |o.chunks| - 1 ==> Apart(o.chunks[i], Last(o));
    var kept := if OnlyGrowing(o) then Without(o.memory, Last(o)) else o.memory;
    assert x in kept && x !in a.bytes;
    var m := kept + a.bytes;
    ReadWrite(m, ContentsOf(a.chunk, o.mask), Bytes(o.memory, o.base, Size(o)), x);
  }

  /** The new chunk begins with the object so far. */
  lemma NewChunkMoves(o: Obstack, a: Allocation, n: nat, x: nat)
    requires o.chunks != [] && Suits(o, a, n) && ContentsOf(a.chunk, o.mask) >= a.chunk.addr
    requires a.chunk.addr <= x < a.chunk.limit
    ensures x in NewChunk(o, a).memory
    ensures var base := ContentsOf(a.chunk, o.mask);
            base <= x < base + Size(o) ==> Read(NewChunk(o, a).memory, x) == Read(o.memory, o.base + (x - base))
  {
    hide ContentsOf, Size, Wrap, AlignUp, Read, Bytes;
    var kept := if OnlyGrowing(o) then Without(o.memory, Last(o)) else o.memory;
    var m := kept + a.bytes;
    ReadWrite(m, ContentsOf(a.chunk, o.mask), Bytes(o.memory, o.base, Size(o)), x);
  }

  lemma NewChunkChunks(o: Obstack, a: Allocation, n: nat)
    requires ChunksOk(o) && PointersOk(o) && Suits(o, a, n)
    ensures ChunksOk(NewChunk(o, a)) && PointersOk(NewChunk(o, a))
    ensures NewChunk(o, a).limit - NewChunk(o, a).next >= n
    ensures NewChunk(o, a).next - NewChunk(o, a).base == o.next - o.base
  {
    hide AlignUp, Wrap, Bytes, Read, Write;
    PlainSizes(o);
    var c := a.chunk;
    AlignUpIsMultiple(c.addr + HEADER, o.mask);
    var o' := NewChunk(o, a);
    forall i | 0 <= i < |o'.chunks| ensures ChunkOk(o'.chunks[i]) && Present(o'.memory, o'.chunks[i]) {
      if i == |o'.chunks| - 1 {
        forall x | c.addr <= x < c.limit ensures x in o'.memory {
          NewChunkMoves(o, a, n, x);
        }
      } else {
        var d := o.chunks[i];
        assert ChunkOk(d);
        forall x | d.addr <= x < d.limit ensures x in o'.memory {
          NewChunkKeeps(o, a, n, i, x);
        }
      }
    }
    forall i, j | 0 <= i < j < |o'.chunks| ensures Apart(o'.chunks[i], o'.chunks[j]) {
      if j < |o'.chunks| - 1 {
        assert Apart(o.chunks[i], o.chunks[j]);
      }
    }
  }

  lemma NewChunkBytes(o: Obstack, log: Log, a: Allocation, n: nat, f: Object)
    requires ChunksOk(o) && PointersOk(o) && Suits(o, a, n) && ObjectOk(o, f)
    requires OnlyGrowing(o) ==> f.home < |o.chunks| - 1
    ensures Bytes(NewChunk(o, a).memory, f.addr, |f.bytes|) == f.bytes
  {
    hide AlignUp, Wrap, Read, Write, NewChunk, Mask, Multiple, Bytes;
    AlignUpIsMultiple(a.chunk.addr + HEADER, o.mask);
    forall x | f.addr <= x < f.addr + |f.bytes| ensures Read(o.memory, x) == Read(NewChunk(o, a).memory, x) {
      NewChunkKeeps(o, a, n, f.home, x);
    }
    SameBytes(o.memory, NewChunk(o, a).memory, f.addr, |f.bytes|);
  }

  lemma NewChunkObject(o: Obstack, log: Log, a: Allocation, n: nat, f: Object)
    requires ChunksOk(o) && PointersOk(o) && Suits(o, a, n) && ObjectOk(o, f)
    ensures ObjectOk(NewChunk(o, a), f)
  {
    hide AlignUp, Wrap, Read, Write, Bytes, Mask, Multiple;
    if OnlyGrowing(o) {
      NothingLost(o, log, f);
    }
    NewChunkBytes(o, log, a, n, f);
  }

  lemma NewChunkGrowing(o: Obstack, growing: seq<Option<U8>>, a: Allocation, n: nat)
    requires ChunksOk(o) && PointersOk(o) && Suits(o, a, n) && GrowingOk(o, growing)
    ensures GrowingOk(NewChunk(o, a), growing)
  {
    hide AlignUp, Wrap, Read, Write, Bytes, Mask, Multiple;
    PlainSizes(o);
    NewChunkChunks(o, a, n);
    AlignUpIsMultiple(a.chunk.addr + HEADER, o.mask);
    var o' := NewChunk(o, a);
    forall i | 0 <= i < |growing| && growing[i].Some? ensures growing[i].value == Read(o'.memory, o'.base + i) {
      NewChunkMoves(o, a, n, o'.base + i);
    }
  }

  /** Moving to a new chunk keeps everything valid and makes the room asked for. */
  lemma NewChunkValid(o: Obstack, log: Log, a: Allocation, n: nat)
    requires Valid(o, log) && Suits(o, a, n)
    ensures Valid(NewChunk(o, a), log)
    ensures NewChunk(o, a).limit - NewChunk(o, a).next >= n
  {
    hide ObjectOk, PointersOk, Suits, NewChunk, GrowingOk, Present, Apart, ChunkOk;
    NewChunkChunks(o, a, n);
    forall i | 0 <= i < |log.finished| ensures ObjectOk(NewChunk(o, a), log.finished[i]) {
      NewChunkObject(o, log, a, n, log.finished[i]);
    }
    NewChunkGrowing(o, log.growing, a, n);
  }

  /** `obstack_make_room`: afterwards there is room, and nothing finished or growing has changed. */
  lemma MakeRoomValid(o: Obstack, log: Log, n: nat, a: Allocation)
    requires Valid(o, log) && SuitsIfNeeded(o, a, n)
    ensures Valid(MakeRoom(o, n, a), log)
    ensures MakeRoom(o, n, a).limit - MakeRoom(o, n, a).next >= n
  {
    hide Valid, NewChunk, Suits, ChunksOk, PointersOk, Wrap;
    if Room(o) < n {
      NewChunkValid(o, log, a, n);
    } else {
      ValidSizes(o, log);
    }
  }
}
