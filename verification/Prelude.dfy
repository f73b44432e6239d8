/** Small shared vocabulary. */
module Prelude {

  /** A value that may be absent: the source's null pointers and "invalid" iterators. */
  datatype Option<+T> = None | Some(value: T)

  function Min(a: int, b: int): int { if a < b then a else b }

  function Max(a: int, b: int): int { if a < b then b else a }
}
