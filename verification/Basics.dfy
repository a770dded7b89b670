/** Declarations that several components share. */
module Basics {
  type byte = b: int | 0 <= b < 256

  datatype Option<+T> = None | Some(value: T)

  const U8 := 0x100
  const U16 := 0x1_0000
  const U24 := 0x100_0000
  const U32 := 0x1_0000_0000

  // ----- little-endian fields -----

  function Le16(x: nat): seq<byte> { [x % U8, x / U8 % U8] }

  function Le24(x: nat): seq<byte> { [x % U8, x / U8 % U8, x / U16 % U8] }

  function Le32(x: nat): seq<byte> { [x % U8, x / U8 % U8, x / U16 % U8, x / U24 % U8] }

  lemma Digits(x: nat)
    ensures x == x / U8 * U8 + x % U8
    ensures x / U8 == x / U16 * U8 + x / U8 % U8
    ensures x / U16 == x / U24 * U8 + x / U16 % U8
    ensures x / U24 == x / U32 * U8 + x / U24 % U8
  {
    assert x / U16 == x / U8 / U8 && x / U24 == x / U16 / U8 && x / U32 == x / U24 / U8;
  }

  // ----- sequences -----

  function Sum(xs: seq<nat>): nat {
    if xs == [] then 0 else xs[0] + Sum(xs[1..])
  }

  lemma {:induction false} SumAppend(a: seq<nat>, b: seq<nat>)
    ensures Sum(a + b) == Sum(a) + Sum(b)
  {
    if a == [] {
      assert a + b == b;
    } else {
      assert (a + b)[0] == a[0] && (a + b)[1..] == a[1..] + b;
      SumAppend(a[1..], b);
    }
  }

  function Concat(parts: seq<seq<byte>>): seq<byte> {
    if parts == [] then [] else parts[0] + Concat(parts[1..])
  }
}
