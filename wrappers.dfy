/** The `Option` type that the Rust code returns from `hit`, `scatter` and `Iterator::next`. */
module Wrappers {

  datatype Option<+T> = None | Some(value: T)

  /** `a.or(b)`: the first of the two that is present. */
  function OrElse<T>(a: Option<T>, b: Option<T>): Option<T>
  {
    if a.Some? then a else b
  }
}
