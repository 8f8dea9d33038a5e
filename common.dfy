/** Small failure-compatible wrappers shared by the scorer modules. */
module Common {

  /** Python's `None` / a present value. */
  datatype Option<+T> = None | Some(value: T)

  /** A computed value, or the exception the scorer raises instead. */
  datatype Result<+T, +E> = Success(value: T) | Failure(error: E)

  function Min(x: real, y: real): (m: real)
    ensures m <= x && m <= y
    ensures m == x || m == y
  {
    if x <= y then x else y
  }

  function Max(x: real, y: real): (m: real)
    ensures x <= m && y <= m
    ensures m == x || m == y
  {
    if x >= y then x else y
  }
}
