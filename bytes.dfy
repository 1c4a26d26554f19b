/** Octets, as produced by `Buffer.from` and consumed by base64. */
module Bytes {
  type byte = b: int | 0 <= b < 256
}
