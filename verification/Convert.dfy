/** Bytes as numbers and back. */
module Convert {

  lemma ByteOfNat(n: nat)
    requires n < 256
    ensures (n as bv8) as nat == n
  {
  }

  lemma NatOfByte(b: bv8)
    ensures (b as nat) as bv8 == b && 0 <= b as nat < 256
  {
  }

  lemma ByteInjective(a: bv8, b: bv8)
    requires a as nat == b as nat
    ensures a == b
  {
  }
}
