/** Bytes, for the modules that work on raw bodies and signatures. */
module Bytes {
  newtype byte = x: int | 0 <= x < 256
}
