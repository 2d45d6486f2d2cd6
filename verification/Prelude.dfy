/** Result and option types shared by every module. */
module Prelude {

  datatype Option<+T> = None | Some(value: T)

  datatype Result<+T, +E> = Ok(value: T) | Err(error: E) {
    predicate IsFailure() {
      Err?
    }

    function PropagateFailure<U>(): Result<U, E>
      requires Err?
    {
      Err(error)
    }

    function Extract(): T
      requires Ok?
    {
      value
    }
  }

  /** The largest value of the source's 64-bit unsigned counters. */
  const U64_MAX: nat := 0xFFFF_FFFF_FFFF_FFFF

  /** u64::saturating_add(x, 1). */
  function SatInc(x: nat): nat {
    if x < U64_MAX then x + 1 else U64_MAX
  }

  /** u64::saturating_sub. */
  function SatSub(x: nat, y: nat): nat {
    if x >= y then x - y else 0
  }
}
