/** Option and Result, the shapes the model uses for the source's `null`
    returns and for its error paths (exceptions, alerts, early returns), and
    the record of raised property-changed notifications. */
module Wrappers {

  /** `None` stands for a C# `null`. */
  datatype Option<+T> = None | Some(value: T) {

    /** Returns the value held in `Some`, or `default` for `None`. */
    function GetOr(default: T): T {
      match this
      case Some(v) => v
      case None => default
    }
  }

  /** The result of an operation that either succeeds or reports an error. */
  datatype Result<+R, +E> = Success(value: R) | Failure(error: E)

  /** The names of the properties reported through `PropertyChanged`, in the order raised. */
  type Notifications = seq<string>
}
