module Wrappers {
  datatype Option<+T> = None | Some(value: T)

  datatype Result<+T> = Ok(value: T) | Err

  predicate Positive(n: Option<int>) { n.Some? && 0 < n.value }
}
