/** The three values n < m < y of support/kconfig/expr.h and the operators on them. */
module Tristates {

  /** The enum tristate: no, mod and yes are 0, 1 and 2. */
  type Tri = x: int | 0 <= x <= 2

  const NO: Tri := 0
  const MOD: Tri := 1
  const YES: Tri := 2

  function Min(a: Tri, b: Tri): Tri {
    if a < b then a else b
  }

  function Max(a: Tri, b: Tri): Tri {
    if a > b then a else b
  }

  function Negate(a: Tri): Tri {
    2 - a
  }

  function OfBool(b: bool): Tri {
    if b then YES else NO
  }

  /** What a symbol that cannot be m makes of a value. */
  function Promote(a: Tri): Tri {
    if a == MOD then YES else a
  }

  function Name(a: Tri): string {
    if a == NO then "n" else if a == MOD then "m" else "y"
  }

  /** The information order: m may be sharpened to n or y, n and y stay. */
  predicate Sharpens(before: Tri, after: Tri) {
    before == MOD || before == after
  }
}

module Wrappers {
  datatype Option<+T> = None | Some(value: T)
}
