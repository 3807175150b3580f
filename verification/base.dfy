/** Small shared vocabulary: an optional value and the distance between two integers. */
module Base {

  /** A value that may be absent (Python's `None`). */
  datatype Option<+T> = None | Some(value: T)

  /** Absolute difference of two integers. */
  function Dist(a: int, b: int): (d: nat)
    ensures d == a - b || d == b - a
  {
    if a >= b then a - b else b - a
  }
}
