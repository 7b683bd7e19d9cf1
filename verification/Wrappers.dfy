/** What the other modules share: Python's `Optional[T]`, and `max`. */
module Wrappers {
  datatype Option<+T> = None | Some(value: T)

  function Max(a: int, b: int): int { if a > b then a else b }
}
