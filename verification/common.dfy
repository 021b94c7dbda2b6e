/** Small helper types shared by the carousel modules. */
module Common {
  /** A value that may be absent (JavaScript's `null` or `undefined`). */
  datatype Option<T> = None | Some(value: T)

  /** `Math.abs` on integers. */
  function Abs(x: int): nat
  {
    if x < 0 then -x else x
  }
}
