/** An obstack as a value: its chunks, its three pointers and the memory it allocates from, with
    what each macro of `obstack.h` does to them.  `_obstack_newchunk` and `_obstack_free` are not
    in the header; they follow its comments. */
module ObstackModel {
  import opened Basics
  import opened Bits
  import opened ObstackAlign

  /** `struct _obstack_chunk`: two pointers at `addr`, then the contents up to `limit`. */
  datatype Chunk = Chunk(addr: nat, limit: nat)

  const HEADER := 16

  /** `struct obstack`.  The last chunk is the current one, the others hang off it by `prev`;
      `memory` holds the bytes of every chunk that has not been given back. */
  datatype Obstack = Obstack(
    chunks: seq<Chunk>,
    base: nat,
    next: nat,
    limit: nat,
    mask: nat,
    maybeEmpty: bool,
    memory: map<nat, U8>)

  /** What the chunk allocator hands out when it is asked: the place and the bytes already there. */
  datatype Allocation = Allocation(chunk: Chunk, bytes: map<nat, U8>)

  function Last(o: Obstack): Chunk
    requires o.chunks != []
  {
    o.chunks[|o.chunks| - 1]
  }

  function Read(m: map<nat, U8>, x: nat): U8 {
    if x in m then m[x] else 0
  }

  function Bytes(m: map<nat, U8>, a: nat, n: nat): (r: seq<U8>)
    ensures |r| == n
    ensures forall i :: 0 <= i < n ==> r[i] == Read(m, a + i)
  {
    if n == 0 then [] else Bytes(m, a, n - 1) + [Read(m, a + n - 1)]
  }

  /** `memcpy` to address `a`. */
  function Write(m: map<nat, U8>, a: nat, data: seq<U8>): map<nat, U8> {
    map x | x in m :: if a <= x < a + |data| then data[x - a] else m[x]
  }

  /** Where the objects of a chunk begin. */
  function ContentsOf(c: Chunk, mask: nat): nat {
    AlignUp(c.addr + HEADER, mask)
  }

  /** `obstack_room`. */
  function Room(o: Obstack): nat {
    Minus(o.limit, o.next)
  }

  /** `obstack_object_size`. */
  function Size(o: Obstack): nat {
    Minus(o.next, o.base)
  }

  function Without(m: map<nat, U8>, c: Chunk): map<nat, U8> {
    map x | x in m && !(c.addr <= x < c.limit) :: m[x]
  }

  /** The growing object is all that the current chunk can hold of objects. */
  predicate OnlyGrowing(o: Obstack)
    requires o.chunks != []
  {
    !o.maybeEmpty && o.base == ContentsOf(Last(o), o.mask)
  }

  /** `_obstack_newchunk`: the object moves to the start of a new chunk, and the old chunk is given
      back if nothing else can be in it. */
  function NewChunk(o: Obstack, a: Allocation): Obstack
    requires o.chunks != []
  {
    var n := |o.chunks| - 1;
    var base := ContentsOf(a.chunk, o.mask);
    var kept := if OnlyGrowing(o) then Without(o.memory, Last(o)) else o.memory;
    Obstack(
      (if OnlyGrowing(o) then o.chunks[..n] else o.chunks) + [a.chunk],
      base,
      base + Size(o),
      a.chunk.limit,
      o.mask,
      false,
      Write(kept + a.bytes, base, Bytes(o.memory, o.base, Size(o))))
  }

  /** `obstack_make_room`. */
  function MakeRoom(o: Obstack, n: nat, a: Allocation): Obstack
    requires o.chunks != []
  {
    if Room(o) < n then NewChunk(o, a) else o
  }

  /** `obstack_grow`. */
  function Grow(o: Obstack, data: seq<U8>, a: Allocation): Obstack
    requires o.chunks != []
  {
    var o1 := MakeRoom(o, |data|, a);
    o1.(memory := Write(o1.memory, o1.next, data), next := o1.next + |data|)
  }

  /** `obstack_blank`. */
  function Blank(o: Obstack, n: nat, a: Allocation): Obstack
    requires o.chunks != []
  {
    var o1 := MakeRoom(o, n, a);
    o1.(next := o1.next + n)
  }

  /** `obstack_finish`; the object it returns is at the old `base`. */
  function Finish(o: Obstack): Obstack {
    var next := Min(AlignUp(o.next, o.mask), o.limit);
    o.(maybeEmpty := o.maybeEmpty || o.next == o.base, next := next, base := next)
  }

  /** The chunk an address lies in, the newest first; an object that ends a chunk may be empty. */
  predicate Holds(c: Chunk, obj: nat) {
    c.addr < obj <= c.limit
  }

  /** `_obstack_free`: give chunks back until the current one holds `obj`. */
  function Unwind(o: Obstack, obj: nat): Obstack
    requires exists i :: 0 <= i < |o.chunks| && Holds(o.chunks[i], obj)
    decreases |o.chunks|
  {
    var c := Last(o);
    if Holds(c, obj) then o.(base := obj, next := obj, limit := c.limit)
    else
      assert exists i :: 0 <= i < |o.chunks| - 1 && Holds(o.chunks[i], obj);
      Unwind(o.(chunks := o.chunks[..|o.chunks| - 1], memory := Without(o.memory, c), maybeEmpty := true), obj)
  }

  // ---------------------------------------------------------------- what every state keeps

  ghost predicate ChunkOk(c: Chunk) {
    0 < c.addr && c.addr + HEADER <= c.limit < W
  }

  ghost predicate Apart(c: Chunk, d: Chunk) {
    c.limit <= d.addr || d.limit <= c.addr
  }

  ghost predicate Present(m: map<nat, U8>, c: Chunk) {
    forall x :: c.addr <= x < c.limit ==> x in m
  }

  ghost predicate ChunksOk(o: Obstack) {
    && o.chunks != []
    && (forall i :: 0 <= i < |o.chunks| ==> ChunkOk(o.chunks[i]) && Present(o.memory, o.chunks[i]))
    && (forall i, j :: 0 <= i < j < |o.chunks| ==> Apart(o.chunks[i], o.chunks[j]))
  }

  /** The three pointers lie in the current chunk, in order, and the object starts aligned unless
      the chunk is full. */
  ghost predicate PointersOk(o: Obstack) {
    && o.chunks != []
    && o.limit == Last(o).limit
    && Last(o).addr + HEADER <= o.base <= o.next <= o.limit
    && Mask(o.mask)
    && (Multiple(o.base, o.mask + 1) || o.base == o.limit)
  }

  /** A finished object, and which chunk it is in. */
  datatype Object = Object(addr: nat, bytes: seq<U8>, home: nat)

  function End(f: Object): nat {
    f.addr + |f.bytes|
  }

  /** The finished objects, oldest first, and the object being grown; a byte that was skipped by
      `obstack_blank` may be anything. */
  datatype Log = Log(finished: seq<Object>, growing: seq<Option<U8>>)

  ghost predicate ObjectOk(o: Obstack, f: Object) {
    && f.home < |o.chunks|
    && var c := o.chunks[f.home];
       && c.addr + HEADER <= f.addr
       && End(f) <= c.limit
       && (Multiple(f.addr, o.mask + 1) || f.addr == c.limit)
       && Bytes(o.memory, f.addr, |f.bytes|) == f.bytes
       && (f.home == |o.chunks| - 1 ==> End(f) <= o.base && (f.bytes == [] ==> o.maybeEmpty))
  }

  ghost predicate Before(f: Object, g: Object) {
    f.home < g.home || (f.home == g.home && End(f) <= g.addr)
  }

  ghost predicate GrowingOk(o: Obstack, growing: seq<Option<U8>>) {
    && |growing| == o.next - o.base
    && forall i :: 0 <= i < |growing| && growing[i].Some? ==> growing[i].value == Read(o.memory, o.base + i)
  }

  ghost predicate Valid(o: Obstack, log: Log) {
    && ChunksOk(o)
    && PointersOk(o)
    && (forall i :: 0 <= i < |log.finished| ==> ObjectOk(o, log.finished[i]))
    && (forall i, j :: 0 <= i < j < |log.finished| ==> Before(log.finished[i], log.finished[j]))
    && GrowingOk(o, log.growing)
  }

  /** What the header asks of the chunk allocator: a chunk of its own, big enough for the object
      so far and `n` bytes more. */
  ghost predicate Suits(o: Obstack, a: Allocation, n: nat) {
    && ChunkOk(a.chunk)
    && (forall x :: x in a.bytes <==> a.chunk.addr <= x < a.chunk.limit)
    && (forall i :: 0 <= i < |o.chunks| ==> Apart(o.chunks[i], a.chunk))
    && ContentsOf(a.chunk, o.mask) + Size(o) + n <= a.chunk.limit
  }

  ghost predicate SuitsIfNeeded(o: Obstack, a: Allocation, n: nat) {
    Room(o) < n ==> Suits(o, a, n)
  }
}
