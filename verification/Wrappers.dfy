/** Failure-compatible results shared by the modules of this project. */
module Wrappers {
  datatype Option<+T> = None | Some(value: T)

  /** A byte, as `unsigned char` holds it. */
  type byte = x: nat | x < 256

  /** A call that returned, or threw (`std::ios_base::failure`, `std::out_of_range`). */
  datatype Result<+T> = Ok(value: T) | Thrown
  {
    predicate IsFailure() {
      Thrown?
    }

    function PropagateFailure<U>(): Result<U>
      requires Thrown?
    {
      Thrown
    }

    function Extract(): T
      requires Ok?
    {
      value
    }
  }
}
