/** Octets, as Node's `Buffer` and `Uint8Array` hold them. */
module Bytes {
  newtype byte = x: int | 0 <= x < 256
}
