/** What files and sockets are made of. */
module Bytes {

  type Byte = b: int | 0 <= b < 256
}
