/** The three-valued logic of expr.h: n < m < y, with AND as minimum, OR as
    maximum and NOT as the complement to y. */
module Tristates {
  type Tristate = n: int | 0 <= n <= 2

  const NO: Tristate := 0
  const MOD: Tristate := 1
  const YES: Tristate := 2

  function And(a: Tristate, b: Tristate): Tristate {
    if a < b then a else b
  }

  function Or(a: Tristate, b: Tristate): Tristate {
    if a > b then a else b
  }

  function Not(a: Tristate): Tristate {
    2 - a
  }

  function OfBool(b: bool): Tristate {
    if b then YES else NO
  }

  datatype Option<+T> = None | Some(value: T)
}
