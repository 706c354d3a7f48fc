/**
 Bytes and the range of a 32-bit word.
 */
module Words {
  type Bytes = seq<bv8>

  const UINT_RANGE: nat := 0x1_0000_0000
}
