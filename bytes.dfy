/** Bytes, byte strings and the fixed-width integer arithmetic the analyzers rely on. */
module Bytes {

  newtype byte = x: int | 0 <= x < 256

  type Bytes = seq<byte>

  const UINT32_LIMIT: nat := 0x1_0000_0000
  const UINT32_MAX: nat := 0xFFFF_FFFF
  const UINT64_LIMIT: nat := 0x1_0000_0000_0000_0000
  /** INT_MAX and INT32_MAX of a 32-bit `int`. */
  const INT32_MAX: nat := 0x7FFF_FFFF

  const QUOTE: byte := 34

  /** A `uint32_t` conversion: truncation modulo 2^32. */
  function U32(n: int): (r: nat)
    ensures r < UINT32_LIMIT
    ensures 0 <= n < UINT32_LIMIT ==> r == n
  {
    n % UINT32_LIMIT
  }

  /** The byte string of a literal written in ASCII. */
  function Ascii(s: string): (r: Bytes)
    ensures |r| == |s|
    ensures forall i :: 0 <= i < |s| && s[i] as int < 256 ==> r[i] as int == s[i] as int
  {
    seq(|s|, i requires 0 <= i < |s| => ((s[i] as int) % 256) as byte)
  }

  /** `std::isspace` in the "C" locale: space, \t, \n, \v, \f and \r. */
  predicate IsSpace(b: byte)
  {
    b == 32 || (9 <= b <= 13)
  }

  function Min(a: int, b: int): (r: int)
    ensures r <= a && r <= b && (r == a || r == b)
  {
    if a < b then a else b
  }

  function Max(a: int, b: int): (r: int)
    ensures r >= a && r >= b && (r == a || r == b)
  {
    if a < b then b else a
  }
}
