// Option and Result, shared by every component.
module Common {
  datatype Option<+T> = None | Some(value: T)

  datatype Result<+T, +E> = Ok(value: T) | Err(error: E)

  function Max(a: nat, b: nat): nat {
    if a >= b then a else b
  }

  function SetOf<T(==)>(xs: seq<T>): set<T> {
    set x | x in xs
  }
}
