/** Vocabulary shared by every component of the filler. */
module Common {

  datatype Option<+T> = None | Some(value: T)

  /** A call's result, or the error it throws. */
  datatype Result<+T> = Ok(value: T) | Thrown(why: string)

  function Min(a: int, b: int): int {
    if a <= b then a else b
  }

  function Max(a: int, b: int): int {
    if a <= b then b else a
  }

  /** `b` to the power `n`. */
  function Pow(b: nat, n: nat): nat {
    if n == 0 then 1 else b * Pow(b, n - 1)
  }
}
