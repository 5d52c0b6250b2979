/** Small datatypes and machine-integer helpers shared by the models. */
module Basics {
  datatype Option<+T> = None | Some(value: T)

  const TWO_TO_THE_31 := 0x8000_0000
  const TWO_TO_THE_32 := 0x1_0000_0000

  type uint32 = x: int | 0 <= x < TWO_TO_THE_32

  type byte = x: int | 0 <= x < 0x100

  type int32 = x: int | -TWO_TO_THE_31 <= x < TWO_TO_THE_31

  /** Keeps the low 32 bits, as a store into an unsigned 32-bit variable does. */
  function Wrap32(x: int): uint32 {
    x % TWO_TO_THE_32
  }

  lemma {:induction false} WrapNext(x: int)
    ensures Wrap32(Wrap32(x) + 1) == Wrap32(x + 1)
  {
    var q, r := x / TWO_TO_THE_32, x % TWO_TO_THE_32;
    assert x == q * TWO_TO_THE_32 + r;
    if r + 1 == TWO_TO_THE_32 {
      assert x + 1 == (q + 1) * TWO_TO_THE_32;
    }
  }

  lemma {:induction false} Regroup<T>(a: seq<T>, b: seq<T>, c: seq<T>)
    ensures a + (b + c) == a + b + c
  {}

  /** Reads the low 32 bits as a two's complement number, as a store into a signed 32-bit variable does. */
  function Signed32(x: int): int32 {
    var w := x % TWO_TO_THE_32;
    if w < TWO_TO_THE_31 then w else w - TWO_TO_THE_32
  }
}
