/** Arithmetic that several modules share. */
module Arithmetic {
  function Min(a: int, b: int): int { if a <= b then a else b }

  function Max(a: int, b: int): int { if a >= b then a else b }

  /** A product by name, for proofs that use only a few facts about it. */
  function Times(a: nat, b: nat): nat { a * b }

  function Power(r: nat, n: nat): nat { if n == 0 then 1 else r * Power(r, n - 1) }
}
