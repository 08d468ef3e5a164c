/** Bytes, as they appear in the input, the window and the output. */
module Bytes {

  type byte = b: int | 0 <= b < 256
}
