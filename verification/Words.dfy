/** Machine integers and the saturating additions the size index is built on. */
module Words {

  const TWO_TO_THE_8: int := 0x100
  const TWO_TO_THE_16: int := 0x1_0000
  const TWO_TO_THE_32: int := 0x1_0000_0000
  const TWO_TO_THE_64: int := 0x1_0000_0000_0000_0000
  const MAX_U16: int := 0xffff
  const MAX_U32: int := 0xffff_ffff
  const MAX_U64: int := 0xffff_ffff_ffff_ffff

  type Byte = x: int | 0 <= x < TWO_TO_THE_8
  type U16 = x: int | 0 <= x < TWO_TO_THE_16
  type U32 = x: int | 0 <= x < TWO_TO_THE_32
  type U64 = x: int | 0 <= x < TWO_TO_THE_64

  datatype Option<+T> = None | Some(value: T)

  /** The largest 64-bit value at most x: what a saturating sum of terms adding up to x yields. */
  function Sat(x: nat): (r: U64)
  {
    if x > MAX_U64 then MAX_U64 else x
  }

  function SaturatingAdd(a: U64, b: U64): (r: U64)
  {
    if MAX_U64 - a < b then MAX_U64 else a + b
  }

  function SaturatingSub(a: U64, b: U64): (r: U64)
  {
    if b > a then 0 else a - b
  }

  /** Saturating addition computes the exact sum capped once, in whatever order the terms arrive. */
  lemma SaturatingAddIsCappedSum(x: nat, y: nat)
    ensures SaturatingAdd(Sat(x), Sat(y)) == Sat(x + y)
  {
  }
}
