/** The 8-bit bytes of maps and streams. */
module Bytes {

  type Byte = bv8
}
