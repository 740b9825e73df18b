/** The octet, the unsigned char that Base64.cc and IPComm.cc work on. */
module Bytes {
  type octet = x: int | 0 <= x < 256
}
