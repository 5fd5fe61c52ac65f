// Unsigned arithmetic of the modelled programs, in 32 and 64 bits.

module Unsigned {

  const WORD := 0x1_0000_0000
  const U64 := 0x1_0000_0000_0000_0000

  function U32(n: int): nat {
    n % WORD
  }

  lemma {:induction false} Fits(n: int)
    ensures 0 <= n < WORD ==> U32(n) == n
    ensures -WORD <= n < 0 ==> U32(n) == n + WORD
    ensures 0 <= U32(n) < WORD
  {
  }

  function Add64(a: nat, b: nat): nat {
    (a + b) % U64
  }

  lemma {:induction false} AddsUp(a: nat, b: nat)
    requires a < U64 && b < U64
    ensures Add64(a, b) == if a + b < U64 then a + b else a + b - U64
  {
  }
}
