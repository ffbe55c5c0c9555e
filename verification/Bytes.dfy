/** Byte strings. */
module ByteStrings {
  type Byte = b: int | 0 <= b < 256
  type Bytes = seq<Byte>

  /** 2 to the power of `k`, the number of values of `k` bits. */
  function Power(k: nat): nat {
    if k == 0 then 1 else 2 * Power(k - 1)
  }
}
