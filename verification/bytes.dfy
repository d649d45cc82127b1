// Bytes and words of DebugClient/md5.h:63-64.
module Bytes {

  type Byte = bv8
  type Word = bv32

  // A number below 256 survives being narrowed to a byte. The cases keep the solver's search small.
  lemma ByteOfNumber(n: nat)
    requires n < 256
    ensures (n as Byte) as nat == n
  {
    if n < 32 {
    } else if n < 64 {
    } else if n < 96 {
    } else if n < 128 {
    } else if n < 160 {
    } else if n < 192 {
    } else if n < 224 {
    } else {
    }
  }

  lemma ByteInjective(b: Byte, c: Byte)
    requires b as nat == c as nat
    ensures b == c
  {
  }
}
