/** Octets, as produced by UTF-8 encoding and consumed by Base64 encoding. */
module Bytes {

  type byte = x: int | 0 <= x < 256

  /**
    Splitting a value into a quotient and a remainder by one of the bit-group
    sizes the codecs use, and joining them again.
   */
  lemma DivModConst(q: int, r: int, k: int)
    requires k in {4, 16, 64, 4096, 262144} && 0 <= r < k && 0 <= q
    ensures (q * k + r) / k == q && (q * k + r) % k == r
  {
  }
}
