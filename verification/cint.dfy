/** The C++ scalar types the program uses, on its Windows/MinGW target:
    `int` and `long int` are both 32-bit two's complement, `unsigned char`
    is 8 bits. Dafny integers are unbounded, so ranges and conversions
    are written out here. */
module CInt {

  const Int32Min: int := -0x8000_0000
  const Int32Max: int := 0x7FFF_FFFF

  /** True iff `x` is representable as a 32-bit `int` (or `long int`). */
  predicate IsInt32(x: int) {
    Int32Min <= x <= Int32Max
  }

  newtype int32 = x: int | IsInt32(x)

  /** An `unsigned char`. */
  newtype byte = x: int | 0 <= x < 256

  /** Conversion of an integer value to `unsigned char`: the one byte value
      congruent to `x` modulo 2^8, for negative `x` too. Values already in
      range are kept. */
  function ToUChar(x: int): (b: byte)
    ensures (x - b as int) % 256 == 0
    ensures 0 <= x < 256 ==> b as int == x
  {
    (x % 256) as byte
  }

  /** C++'s `a % 256` on an `int`, which truncates toward zero: the
      remainder differs from `a` by a multiple of 256, has the sign of `a`,
      and is smaller than 256 in magnitude. */
  function Rem256(a: int): (r: int)
    ensures (a - r) % 256 == 0
    ensures a >= 0 ==> 0 <= r < 256
    ensures a <= 0 ==> -256 < r <= 0
  {
    if a >= 0 then a % 256 else -((-a) % 256)
  }

  /** For a non-negative dividend the C++ remainder, converted to `unsigned
      char`, agrees with the mathematical residue modulo 256. */
  lemma NonNegRemToUChar(a: int)
    requires a >= 0
    ensures ToUChar(Rem256(a)) as int == a % 256
  {
  }
}
