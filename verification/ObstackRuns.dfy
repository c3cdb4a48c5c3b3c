/** Runs of obstack operations of any length: what they do to finished objects, to the object being
    grown and to alignment. */
module ObstackRuns {
  import opened Basics
  import opened Bits
  import opened ObstackAlign
  import opened ObstackModel
  import opened ObstackLemmas

  // ---------------------------------------------------------------- growing

  function Known(data: seq<U8>): (r: seq<Option<U8>>)
    ensures |r| == |data|
    ensures forall i :: 0 <= i < |data| ==> r[i] == Some(data[i])
  {
    if data == [] then [] else Known(data[..|data| - 1]) + [Some(data[|data| - 1])]
  }

  function Unknown(n: nat): (r: seq<Option<U8>>)
    ensures |r| == n
    ensures forall i :: 0 <= i < n ==> r[i].None?
  {
    if n == 0 then [] else Unknown(n - 1) + [None]
  }

  /** An obstack after bytes are written above the object so far. */
  function Append(o: Obstack, data: seq<U8>): Obstack {
    o.(memory := Write(o.memory, o.next, data), next := o.next + |data|)
  }

  /** Writing above the object touches no byte below `next`, and none of another chunk. */
  lemma AppendReads(o: Obstack, data: seq<U8>, i: nat, x: nat)
    requires ChunksOk(o) && PointersOk(o) && o.limit - o.next >= |data|
    requires i < |o.chunks| && o.chunks[i].addr <= x < o.chunks[i].limit
    ensures x in Append(o, data).memory
    ensures i < |o.chunks| - 1 || x < o.next ==> Read(Append(o, data).memory, x) == Read(o.memory, x)
    ensures i == |o.chunks| - 1 && o.next <= x < o.next + |data| ==> Read(Append(o, data).memory, x) == data[x - o.next]
  {
    hide Read, Write, Mask, Multiple;
    assert Present(o.memory, o.chunks[i]);
    assert i < |o.chunks| - 1 ==> Apart(o.chunks[i], Last(o));
    ReadWrite(o.memory, o.next, data, x);
  }

  lemma AppendObject(o: Obstack, data: seq<U8>, f: Object)
    requires ChunksOk(o) && PointersOk(o) && o.limit - o.next >= |data| && ObjectOk(o, f)
    ensures ObjectOk(Append(o, data), f)
  {
    hide Read, Write, Mask, Multiple, Bytes;
    var o' := Append(o, data);
    forall x | f.addr <= x < f.addr + |f.bytes| ensures Read(o.memory, x) == Read(o'.memory, x) {
      AppendReads(o, data, f.home, x);
    }
    SameBytes(o.memory, o'.memory, f.addr, |f.bytes|);
  }

  lemma AppendGrowing(o: Obstack, growing: seq<Option<U8>>, data: seq<U8>)
    requires ChunksOk(o) && PointersOk(o) && o.limit - o.next >= |data| && GrowingOk(o, growing)
    ensures GrowingOk(Append(o, data), growing + Known(data))
  {
    hide Read, Write, Mask, Multiple, Known, ChunkOk, Present, Apart;
    var o' := Append(o, data);
    var known := Known(data);
    var g := growing + known;
    forall i | 0 <= i < |g| && g[i].Some? ensures g[i].value == Read(o'.memory, o.base + i) {
      AppendReads(o, data, |o.chunks| - 1, o.base + i);
      if i < |growing| {
        assert g[i] == growing[i];
      } else {
        assert g[i] == known[i - |growing|];
      }
    }
  }

  lemma AppendChunks(o: Obstack, data: seq<U8>)
    requires ChunksOk(o) && PointersOk(o) && o.limit - o.next >= |data|
    ensures ChunksOk(Append(o, data)) && PointersOk(Append(o, data))
  {
    hide Read, Mask, Multiple;
    var o' := Append(o, data);
    forall i | 0 <= i < |o'.chunks| ensures ChunkOk(o'.chunks[i]) && Present(o'.memory, o'.chunks[i]) {
      assert ChunkOk(o.chunks[i]) && Present(o.memory, o.chunks[i]);
    }
  }

  lemma AppendValid(o: Obstack, log: Log, data: seq<U8>)
    requires Valid(o, log) && o.limit - o.next >= |data|
    ensures Valid(Append(o, data), log.(growing := log.growing + Known(data)))
  {
    hide Append, ObjectOk, GrowingOk, ChunksOk, PointersOk;
    AppendChunks(o, data);
    forall i | 0 <= i < |log.finished| ensures ObjectOk(Append(o, data), log.finished[i]) {
      AppendObject(o, data, log.finished[i]);
    }
    AppendGrowing(o, log.growing, data);
  }

  lemma GrowValid(o: Obstack, log: Log, data: seq<U8>, a: Allocation)
    requires Valid(o, log) && SuitsIfNeeded(o, a, |data|)
    ensures Valid(Grow(o, data, a), log.(growing := log.growing + Known(data)))
  {
    hide Valid, MakeRoom, SuitsIfNeeded, Known, Write, Room, Size;
    ValidSizes(o, log);
    MakeRoomValid(o, log, |data|, a);
    AppendValid(MakeRoom(o, |data|, a), log, data);
  }

  lemma BlankValid(o: Obstack, log: Log, n: nat, a: Allocation)
    requires Valid(o, log) && SuitsIfNeeded(o, a, n)
    ensures Valid(Blank(o, n, a), log.(growing := log.growing + Unknown(n)))
  {
    hide MakeRoom, SuitsIfNeeded, Mask, Multiple, Read, Bytes, Present;
    MakeRoomValid(o, log, n, a);
    var o1 := MakeRoom(o, n, a);
    var o' := Blank(o, n, a);
    forall i | 0 <= i < |log.finished| ensures ObjectOk(o', log.finished[i]) {
      assert ObjectOk(o1, log.finished[i]);
    }
  }

  // ---------------------------------------------------------------- finishing

  /** The object that `obstack_finish` returns. */
  function Finished(o: Obstack): Object
    requires o.chunks != [] && o.base <= o.next
  {
    Object(o.base, Bytes(o.memory, o.base, o.next - o.base), |o.chunks| - 1)
  }

  lemma FinishValid(o: Obstack, log: Log)
    requires Valid(o, log)
    ensures Valid(Finish(o), Log(log.finished + [Finished(o)], []))
  {
    hide AlignUp, Multiple, Read, Bytes, Present, Mask, Wrap;
    var o' := Finish(o);
    var log' := Log(log.finished + [Finished(o)], []);
    AlignUpIsMultiple(o.next, o.mask);
    forall i | 0 <= i < |log'.finished| ensures ObjectOk(o', log'.finished[i]) {
      if i < |log.finished| {
        assert ObjectOk(o, log.finished[i]);
      }
    }
    forall i, j | 0 <= i < j < |log'.finished| ensures Before(log'.finished[i], log'.finished[j]) {
      if j == |log.finished| {
        assert ObjectOk(o, log.finished[i]);
      } else {
        assert Before(log.finished[i], log.finished[j]);
      }
    }
  }

  // ---------------------------------------------------------------- freeing

  /** At most one live chunk holds an address. */
  lemma OneHolder(c: Chunk, d: Chunk, obj: nat)
    requires Apart(c, d) && Holds(c, obj)
    ensures !Holds(d, obj)
  {
  }

  lemma PopChunk(o: Obstack)
    requires ChunksOk(o) && |o.chunks| > 1
    ensures ChunksOk(o.(chunks := o.chunks[..|o.chunks| - 1], memory := Without(o.memory, Last(o)), maybeEmpty := true))
    ensures forall i, x :: 0 <= i < |o.chunks| - 1 && o.chunks[i].addr <= x < o.chunks[i].limit ==>
              x in Without(o.memory, Last(o)) && Read(Without(o.memory, Last(o)), x) == Read(o.memory, x)
  {
    var m := Without(o.memory, Last(o));
    forall i, x | 0 <= i < |o.chunks| - 1 && o.chunks[i].addr <= x < o.chunks[i].limit
      ensures x in m && Read(m, x) == Read(o.memory, x)
    {
      assert Apart(o.chunks[i], Last(o)) && Present(o.memory, o.chunks[i]);
    }
    forall i | 0 <= i < |o.chunks| - 1 ensures ChunkOk(o.chunks[i]) && Present(m, o.chunks[i]) {
      assert ChunkOk(o.chunks[i]);
    }
  }

  /** Unwinding goes back to the chunk that holds the object, and keeps the bytes of the chunks up
      to that one. */
  lemma {:induction false} UnwindTo(o: Obstack, obj: nat, h: nat)
    requires ChunksOk(o) && h < |o.chunks| && Holds(o.chunks[h], obj)
    ensures var o' := Unwind(o, obj);
            && ChunksOk(o')
            && o'.chunks == o.chunks[..h + 1]
            && o'.base == obj == o'.next
            && o'.limit == o.chunks[h].limit
            && o'.mask == o.mask
            && o'.maybeEmpty == (o.maybeEmpty || h < |o.chunks| - 1)
            && forall i, x :: 0 <= i <= h && o.chunks[i].addr <= x < o.chunks[i].limit ==>
                 Read(o'.memory, x) == Read(o.memory, x)
    decreases |o.chunks|
  {
    hide Read, Without;
    var n := |o.chunks| - 1;
    if h == n {
      assert o.chunks[..h + 1] == o.chunks;
      var o' := Unwind(o, obj);
      forall i | 0 <= i < |o'.chunks| ensures ChunkOk(o'.chunks[i]) && Present(o'.memory, o'.chunks[i]) {
        assert ChunkOk(o.chunks[i]) && Present(o.memory, o.chunks[i]);
      }
    } else {
      OneHolder(o.chunks[h], o.chunks[n], obj);
      PopChunk(o);
      var o1 := o.(chunks := o.chunks[..n], memory := Without(o.memory, Last(o)), maybeEmpty := true);
      UnwindTo(o1, obj, h);
      assert o1.chunks[..h + 1] == o.chunks[..h + 1];
    }
  }

  lemma UnwindObject(o: Obstack, g: Object, f: Object)
    requires ChunksOk(o) && ObjectOk(o, f) && ObjectOk(o, g) && Before(f, g)
    ensures Holds(o.chunks[g.home], g.addr)
    ensures ObjectOk(Unwind(o, g.addr), f)
  {
    hide Read, Multiple, Bytes, Present, Apart, Unwind;
    assert ChunkOk(o.chunks[g.home]);
    UnwindTo(o, g.addr, g.home);
    var o' := Unwind(o, g.addr);
    forall x | f.addr <= x < f.addr + |f.bytes| ensures Read(o.memory, x) == Read(o'.memory, x) {
      assert o.chunks[f.home].addr <= x < o.chunks[f.home].limit;
    }
    SameBytes(o.memory, o'.memory, f.addr, |f.bytes|);
  }

  /** Freeing an object, whichever chunk it is in, leaves exactly the objects finished before it. */
  lemma FreeValid(o: Obstack, log: Log, k: nat)
    requires Valid(o, log) && k < |log.finished|
    ensures Holds(o.chunks[log.finished[k].home], log.finished[k].addr)
    ensures Valid(Unwind(o, log.finished[k].addr), Log(log.finished[..k], []))
  {
    hide Read, Multiple, Bytes, Present, Apart, ObjectOk, Unwind, Mask;
    var g := log.finished[k];
    HolderOf(o, g);
    UnwindTo(o, g.addr, g.home);
    var o' := Unwind(o, g.addr);
    forall i | 0 <= i < k ensures ObjectOk(o', log.finished[i]) {
      assert ObjectOk(o, log.finished[i]) && Before(log.finished[i], g);
      UnwindObject(o, g, log.finished[i]);
    }
  }

  lemma HolderOf(o: Obstack, g: Object)
    requires ChunksOk(o) && ObjectOk(o, g)
    ensures g.home < |o.chunks|
    ensures Holds(o.chunks[g.home], g.addr)
    ensures o.chunks[g.home].addr + HEADER <= g.addr
    ensures Multiple(g.addr, o.mask + 1) || g.addr == o.chunks[g.home].limit
  {
    hide Read, Multiple, Bytes, Present, Apart;
    assert ChunkOk(o.chunks[g.home]);
  }
}
