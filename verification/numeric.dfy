/** Real and integer helpers shared by the modules: Python's `min`, `max`, `abs`, the length of
    `range(n)`, and the two nearness predicates the movement bounds are stated with. */
module Numeric {

  function Min(a: real, b: real): real {
    if a <= b then a else b
  }

  function Max(a: real, b: real): real {
    if a >= b then a else b
  }

  function Abs(a: real): real {
    if a < 0.0 then -a else a
  }

  function MinInt(a: int, b: int): int {
    if a <= b then a else b
  }

  function AbsInt(a: int): int {
    if a < 0 then -a else a
  }

  /** Length of `range(n)` in Python: negative counts give an empty range. */
  function Max0(n: int): nat {
    if n < 0 then 0 else n
  }

  /** The point `(x1, y1)` differs from `(x0, y0)` by at most `d` along each axis. */
  predicate WithinBox(x0: real, y0: real, x1: real, y1: real, d: real) {
    Abs(x1 - x0) <= d && Abs(y1 - y0) <= d
  }

  /** The point `(x1, y1)` lies within Euclidean distance `|d|` of `(x0, y0)`. */
  predicate WithinDistance(x0: real, y0: real, x1: real, y1: real, d: real) {
    (x1 - x0) * (x1 - x0) + (y1 - y0) * (y1 - y0) <= d * d
  }
}
