/** Shared value types and integer arithmetic. */
module Prelude {
  datatype Option<+T> = None | Some(value: T)

  /** What a remote call gives back: a value, or some error. */
  datatype Reply<+T> = Ok(value: T) | Err

  function Max(a: int, b: int): int {
    if a < b then b else a
  }

  /** Go's integer quotient: it truncates toward zero. */
  function GoDiv(a: int, b: int): int
    requires b != 0
  {
    if a >= 0 then a / b else -((-a) / b)
  }

  /** Go's integer remainder: it takes the sign of the dividend. */
  function GoMod(a: int, b: int): int
    requires b != 0
  {
    if a >= 0 then a % b else -((-a) % b)
  }
}
