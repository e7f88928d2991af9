/** What several modules share: an optional value, and three functions on reals. */
module Basics {
  datatype Option<T> = None | Some(value: T)

  function Max(a: real, b: real): real { if a >= b then a else b }
  function Min(a: real, b: real): real { if a <= b then a else b }
  function Abs(a: real): real { if a >= 0.0 then a else -a }
}
