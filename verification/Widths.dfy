/** The 32-bit variables that hold 64-bit script integers. */
module Widths {

  predicate Fits(n: int) { -0x8000_0000 <= n < 0x8000_0000 }

  /** What a cast to a 32-bit integer makes of a 64-bit one. */
  function Narrow(n: int): (r: int)
    ensures Fits(r) && (r - n) % 0x1_0000_0000 == 0
  {
    (n + 0x8000_0000) % 0x1_0000_0000 - 0x8000_0000
  }

  lemma NarrowExact(n: int)
    ensures Narrow(n) == n <==> Fits(n)
  {
  }

  lemma NarrowNegated(n: int)
    requires Narrow(n) > 0
    ensures Narrow(-n) == -Narrow(n)
  {
    var q := (Narrow(n) - n) / 0x1_0000_0000;
    assert -n + 0x8000_0000 == 0x1_0000_0000 * q + (0x8000_0000 - Narrow(n));
  }
}
