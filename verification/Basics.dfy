/** What the other modules share: C's integer widths and a few notions about sequences. */
module Basics {

  datatype Option<T> = None | Some(value: T)

  type U8 = x: int | 0 <= x < 0x100
  type U16 = x: int | 0 <= x < 0x1_0000
  type U32 = x: int | 0 <= x < 0x1_0000_0000
  type U64 = x: int | 0 <= x < 0x1_0000_0000_0000_0000
  type I32 = x: int | -0x8000_0000 <= x < 0x8000_0000
  type I64 = x: int | -0x8000_0000_0000_0000 <= x < 0x8000_0000_0000_0000

  /** Cleared memory. */
  function Zeros(n: nat): (r: seq<U8>)
    ensures |r| == n
    ensures forall i :: 0 <= i < n ==> r[i] == 0
  {
    if n == 0 then [] else [0] + Zeros(n - 1)
  }

  /** C's conversion of the low 32 bits of an unsigned word to `int`. */
  function ToI32(x: int): (r: I32)
    ensures (x - r) % 0x1_0000_0000 == 0
  {
    var low := x % 0x1_0000_0000;
    if low < 0x8000_0000 then low else low - 0x1_0000_0000
  }

  /** Only one `int` agrees with a word in its low 32 bits. */
  lemma ToI32Is(x: int, y: I32)
    ensures ToI32(x) == y <==> (x - y) % 0x1_0000_0000 == 0
  {
  }

  function Min(x: nat, y: nat): nat {
    if x <= y then x else y
  }

  /** No element occurs twice. */
  ghost predicate NoRepeats<T>(s: seq<T>) {
    forall i, j :: 0 <= i < j < |s| ==> s[i] != s[j]
  }
}
