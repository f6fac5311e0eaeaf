/** Failure-carrying datatypes shared by every module of the model. */
module Wrappers {

  /** A value that may be absent (Python's `None`). */
  datatype Option<+T> = None | Some(value: T)

  /** The outcome of a Python call that either returns `value` or raises an
      exception whose `str(e)` is `msg`. */
  datatype Attempt<+T> = Done(value: T) | Raised(msg: string)

  /** The outcome of a Python statement sequence that returns nothing useful:
      it either completes or raises an exception whose `str(e)` is `msg`. */
  datatype Outcome = Pass | Fail(msg: string)
}
