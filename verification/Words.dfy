/** The sizes of machine words, and small numbers as bits. */
module Words {

  const TWO_32 := 0x1_0000_0000
  const TWO_64 := 0x1_0000_0000_0000_0000

  lemma SmallIs(m: nat)
    requires m < 64
    ensures (m as bv7) as int == m
  {
  }
}
