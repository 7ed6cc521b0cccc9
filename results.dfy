// Failure-compatible wrappers shared by every decoder and probe of the model.

module Results {

  import opened Bytes

  datatype Option<+T> = None | Some(value: T)

  /** Why a read, a box decoder or the format dispatch gave up. */
  datatype Error =
    | ShortRead                                              // an integer, tag or fixed-point read got fewer bytes than it asked for
    | UnexpectedBoxType(expected: seq<byte>, found: seq<byte>) // `assert self.box_type == ...` failed
    | UnsupportedVersion(version: nat)                       // a movie header box whose version is not 0
    | ZeroTimeScale                                          // `duration / time_scale` with a zero time scale
    | NegativeSkip(size: nat, offset: nat)                   // a box whose declared size is smaller than its own header
    | UnrecognizedVideoType                                  // no probe accepted the resource

  datatype Result<+T> = Success(value: T) | Failure(error: Error) {
    predicate IsFailure() {
      Failure?
    }

    function PropagateFailure<U>(): Result<U>
      requires Failure?
    {
      Failure(error)
    }

    function Extract(): T
      requires Success?
    {
      value
    }
  }
}
