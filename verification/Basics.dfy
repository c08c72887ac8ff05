/** Types that several components share. */
module Basics {
  datatype Option<T> = None | Some(value: T)

  /** A byte whose bits matter. */
  type byte = bv8

  /** A byte as a number. */
  type octet = x: int | 0 <= x < 256
}
