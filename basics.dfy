/** Small definitions shared by the other modules. */
module Basics {
  /** A value that may be absent, like Rust's `Option`. */
  datatype Option<T> = None | Some(value: T)

  lemma ProductNonnegative(a: real, b: real)
    requires a >= 0.0 && b >= 0.0
    ensures a * b >= 0.0
  {
  }

  lemma QuotientTimesDivisor(a: real, d: real)
    requires d != 0.0
    ensures (a / d) * d == a
  {
  }
}
