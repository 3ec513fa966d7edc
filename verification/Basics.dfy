/** Types and constants that several components share. */
module Basics {
  datatype Option<T> = None | Some(value: T)

  type byte = x: int | 0 <= x < 256

  const NONE: int := -1                        // a null pointer

  const PGSIZE: nat := 4096

  function Min(a: int, b: int): int { if a <= b then a else b }

  function Max(a: int, b: int): int { if a >= b then a else b }
}
