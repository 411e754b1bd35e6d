/** Small definitions shared by the inventory, shop and battle modules. */
module Wrappers {
  /** The optional value used for JavaScript's `undefined`/`null` and for lookups that may miss. */
  datatype Option<+T> = None | Some(value: T)

  /** JavaScript's `Math.max` on two integers. */
  function Max(a: int, b: int): int { if a >= b then a else b }
}
