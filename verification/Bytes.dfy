// Bytes and IPv4 addresses in network order.
module Bytes {
  type Byte = x: int | 0 <= x < 256

  type Address = a: seq<Byte> | |a| == 4 witness [0, 0, 0, 0]
}
