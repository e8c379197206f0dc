/** Bytes and the fixed-width integers the file and wire formats are made of. */
module Bytes {
  type Byte = x: int | 0 <= x < 256

  const U16_MAX: nat := 0xFFFF
  const U32_MAX: nat := 0xFFFF_FFFF

  /** Little-endian field reads. */
  function U16(b: seq<Byte>, at: nat): (r: nat)
    requires at + 2 <= |b|
    ensures r <= U16_MAX
  {
    b[at] as int + 0x100 * (b[at + 1] as int)
  }

  function U32(b: seq<Byte>, at: nat): (r: nat)
    requires at + 4 <= |b|
    ensures r <= U32_MAX
  {
    b[at] as int + 0x100 * (b[at + 1] as int) + 0x1_0000 * (b[at + 2] as int) + 0x100_0000 * (b[at + 3] as int)
  }

  /** Little-endian field writes. */
  function Le16(n: nat): (b: seq<Byte>)
    requires n <= U16_MAX
    ensures |b| == 2 && U16(b, 0) == n
  {
    [n % 0x100, n / 0x100]
  }

  function Le32(n: nat): (b: seq<Byte>)
    requires n <= U32_MAX
    ensures |b| == 4 && U32(b, 0) == n
  {
    Le16(n % 0x1_0000) + Le16(n / 0x1_0000)
  }

  /** Whether bit `k` of `n` is set. */
  predicate Bit(n: nat, k: nat) {
    n / Pow2(k) % 2 == 1
  }

  function Pow2(k: nat): (r: nat)
    ensures r >= 1
  {
    if k == 0 then 1 else 2 * Pow2(k - 1)
  }
}
