/** Numbers as bytes. */
module Bytes {

  lemma ThereAndBack(n: nat)
    requires n < 256
    ensures (n as bv8) as nat == n
  {
  }

  lemma ByteOf(n: nat) returns (v: bv8)
    requires n < 256
    ensures v as nat == n
  {
    ThereAndBack(n);
    v := n as bv8;
  }
}
