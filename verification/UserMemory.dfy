/** User memory that holds still: what each read of it finds. */
module UserMemory {
  import opened Basics
  import opened SyscallRecords
  import opened Capture

  type Memory = map<nat, U8>

  ghost predicate Mapped(m: Memory, a: nat, n: nat) {
    forall x :: a <= x < a + n ==> x in m
  }

  ghost function BytesAt(m: Memory, a: nat, n: nat): (b: seq<U8>)
    requires Mapped(m, a, n)
    ensures |b| == n
  {
    seq(n, i requires 0 <= i < n => m[a + i])
  }

  /** `text` is the C string at address `a`, however long. */
  ghost predicate StringAt(m: Memory, a: nat, text: seq<U8>) {
    && 0 !in text
    && (forall x :: a <= x <= a + |text| ==> x in m)
    && (forall i :: 0 <= i < |text| ==> m[a + i] == text[i])
    && m[a + |text|] == 0
  }

  /** `bpf_probe_read_user_str`: bytes are copied up to a terminator; where there is none in `room`
      bytes, the last byte is replaced by one. */
  ghost function CopyString(m: Memory, a: nat, room: nat): (r: Option<seq<U8>>)
    requires room > 0
    ensures r.Some? ==> a in m && |r.value| < room && 0 !in r.value
    decreases room
  {
    if a !in m then None
    else if m[a] == 0 || room == 1 then Some([])
    else
      var rest := CopyString(m, a + 1, room - 1);
      if rest.None? then None else Some([m[a]] + rest.value)
  }

  /** A C string is copied whole if it and its terminator fit, and cut off at the end if not. */
  lemma {:induction false} StringCopied(m: Memory, a: nat, room: nat, text: seq<U8>)
    requires StringAt(m, a, text) && room > 0
    ensures CopyString(m, a, room) == Some(text[..Min(|text|, room - 1)])
    decreases room
  {
    if text != [] && room > 1 {
      assert m[a] == text[0] && text[0] in text;
      NextByte(m, a, text);
      StringCopied(m, a + 1, room - 1, text[1..]);
      assert text[..Min(|text|, room - 1)] == [text[0]] + text[1..][..Min(|text| - 1, room - 2)];
    }
  }

  lemma NextByte(m: Memory, a: nat, text: seq<U8>)
    requires StringAt(m, a, text) && text != []
    ensures StringAt(m, a + 1, text[1..])
  {
    forall i | 0 <= i < |text[1..]| ensures m[a + 1 + i] == text[1..][i] {
      assert m[a + (1 + i)] == text[1 + i];
    }
  }

  /** All reads see the same memory. */
  ghost predicate Sees(input: EnterInput, m: Memory) {
    && (forall a: U64 :: ReadString(input, a) == match CopyString(m, a, 256)
                                                 case None => StrFault(Zeros(256))
                                                 case Some(text) => StrCopied(text))
    && (forall a: U64 :: a in input.family <==> Mapped(m, a, 2))
    && (forall a: U64 :: a in input.in4 <==> Mapped(m, a, 16))
    && (forall a: U64 :: a in input.in6 <==> Mapped(m, a, 28))
    && (forall a :: a in input.family ==> input.family[a] == BytesAt(m, a, 2))
    && (forall a :: a in input.in4 ==> input.in4[a] == BytesAt(m, a, 16))
    && (forall a :: a in input.in6 ==> input.in6[a] == BytesAt(m, a, 28))
  }

  /** The call `nr (args)` on memory `m`. */
  ghost function CallOn(nr: I32, args: Args, m: Memory): EnterInput {
    EnterInput(nr, args, Zeros(16),
               map a: U64 | a in m && CopyString(m, a, 256).Some? :: StrCopied(CopyString(m, a, 256).value),
               map a: U64 | a in m && Mapped(m, a, 2) :: BytesAt(m, a, 2),
               map a: U64 | a in m && Mapped(m, a, 16) :: BytesAt(m, a, 16),
               map a: U64 | a in m && Mapped(m, a, 28) :: BytesAt(m, a, 28))
  }

  lemma CallSees(nr: I32, args: Args, m: Memory)
    ensures Sees(CallOn(nr, args, m), m)
  {
    forall a: U64 | Mapped(m, a, 2) || Mapped(m, a, 16) || Mapped(m, a, 28) ensures a in m {
    }
  }

  /** Memory with bytes put at address `a`. */
  ghost function Place(m: Memory, a: nat, b: seq<U8>): (r: Memory)
    ensures forall x :: x in r <==> x in m || a <= x < a + |b|
    ensures forall x :: x in r ==> r[x] == if a <= x < a + |b| then b[x - a] else m[x]
  {
    if b == [] then m else Place(m, a, b[..|b| - 1])[a + |b| - 1 := b[|b| - 1]]
  }

  lemma {:induction false} PlacedBytes(m: Memory, a: nat, b: seq<U8>)
    ensures Mapped(Place(m, a, b), a, |b|) && BytesAt(Place(m, a, b), a, |b|) == b
  {
    hide Place;
  }

  lemma {:induction false} PlacedElsewhere(m: Memory, a: nat, b: seq<U8>, c: nat, n: nat)
    requires Mapped(m, c, n) && (c + n <= a || a + |b| <= c)
    ensures Mapped(Place(m, a, b), c, n) && BytesAt(Place(m, a, b), c, n) == BytesAt(m, c, n)
  {
    hide Place;
  }
}
