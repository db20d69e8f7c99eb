/** Types shared by every part of the model. */
module Prelude {
  datatype Option<+T> = None | Some(value: T)

  /** What may go wrong with one call to Postgres or Redis: nothing, the call had no effect, or the
      call took effect but its reply was lost, so the caller sees an error all the same. */
  datatype Fault = NoFault | Lost | Ambiguous

  const NANOS_PER_SECOND: nat := 1_000_000_000

  function Max(a: int, b: int): int {
    if a < b then b else a
  }

  function Min(a: int, b: int): int {
    if a < b then a else b
  }
}
