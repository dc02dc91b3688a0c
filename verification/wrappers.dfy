/** Failure-carrying result types used throughout the model. */
module Wrappers {

  /** A possibly absent value: `None` plays the part of a Java `null`. */
  datatype Option<+T> = None | Some(value: T)

  /** Either a value or the reason no value was produced. */
  datatype Result<+R, +E> = Success(value: R) | Failure(error: E) {

    /** Forgets the failure reason, as a caller that only sees a value or `null` does. */
    function ToOption(): (o: Option<R>)
      ensures o.Some? <==> Success?
      ensures o.Some? ==> o.value == value
    {
      match this
      case Success(v) => Some(v)
      case Failure(_) => None
    }
  }
}
