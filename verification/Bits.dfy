/** Bytes as numbers, and back. */
module Bits {

  lemma {:induction false} ByteOf(n: nat)
    requires n < 256
    ensures (n as bv8) as nat == n
  {}

  lemma {:induction false} SameByte(b: bv8, n: nat)
    requires n < 256 && b as nat == n
    ensures b == n as bv8
  {
    ByteOf(n);
  }

  lemma {:induction false} NextByte(b: bv8)
    ensures b + 1 == 0 <==> b == 255
    ensures b != 255 ==> (b + 1) as nat == b as nat + 1
    ensures b as nat == 255 <==> b == 255
    ensures b as nat < 256
  {}
}
