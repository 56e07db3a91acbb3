/** The three-valued logic n < m < y of scripts/config/expr.h. */
module Tristate {
  type Tri = t: int | 0 <= t <= 2

  const NO: Tri := 0
  const MOD: Tri := 1
  const YES: Tri := 2

  function And(a: Tri, b: Tri): Tri { if a < b then a else b }

  function Or(a: Tri, b: Tri): Tri { if a > b then a else b }

  function Not(a: Tri): Tri { 2 - a }

  function Truth(b: bool): Tri { if b then YES else NO }
}
