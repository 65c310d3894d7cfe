// Rounding up to page boundaries in 32 bits.
module Pages {
  import opened Bytes

  const PAGE: nat := 4096

  // (x + PAGE - 1) & ~(PAGE - 1) on 32-bit values.
  function PageUp(x: nat): (r: nat)
    ensures r % PAGE == 0 && r < U32
  {
    (x + PAGE - 1) % U32 / PAGE * PAGE
  }

  lemma PageUpExact(x: nat)
    requires x < U32
    ensures x + PAGE <= U32 ==> x <= PageUp(x) < x + PAGE
    ensures x + PAGE > U32 ==> PageUp(x) == 0
    ensures x % PAGE == 0 ==> PageUp(x) == x
  {
  }
}
