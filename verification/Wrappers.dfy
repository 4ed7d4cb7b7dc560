/** What the other modules share: the optional value of a nullable column or a raised call, and the smaller number. */
module Wrappers {
  datatype Option<+T> = None | Some(value: T)

  function Min(a: int, b: int): int {
    if a <= b then a else b
  }
}
