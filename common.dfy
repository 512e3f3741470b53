/** Small value types shared by the graph editor and the results views. */
module Common {

  /** A value that may be missing (`undefined` / `null` on the JavaScript side). */
  datatype Option<T> = None | Some(value: T)

  function Min(a: int, b: int): (m: int)
    ensures m <= a && m <= b
    ensures m == a || m == b
  {
    if a <= b then a else b
  }

  function Max(a: int, b: int): (m: int)
    ensures m >= a && m >= b
    ensures m == a || m == b
  {
    if a >= b then a else b
  }

  /** Left-to-right sum, the shape of `xs.reduce((sum, x) => sum + x, 0)`. */
  function Sum(s: seq<real>): real
  {
    if s == [] then 0.0 else Sum(s[..|s| - 1]) + s[|s| - 1]
  }
}
