/** The optional value the rest of the model uses for a field guarded by a `has...` flag. */
module Wrappers {
  datatype Option<+T> = None | Some(value: T)

  function Min(a: int, b: int): int {
    if a < b then a else b
  }
}
