/** Option and Result wrappers shared by every module of the model. */
module Wrappers {

  /** A value that may be absent: Python's `None` or a real value. */
  datatype Option<+T> = None | Some(value: T) {
    function GetOr(default: T): T {
      match this
      case Some(v) => v
      case None => default
    }
  }

  /** The outcome of an operation that may raise: `Raised` stands for a raised exception. */
  datatype Result<+T> = Ok(value: T) | Raised

  /** Each element wrapped in `Some`, in order. */
  function Somes<T>(xs: seq<T>): (r: seq<Option<T>>)
    ensures |r| == |xs|
  {
    if xs == [] then [] else [Some(xs[0])] + Somes(xs[1..])
  }
}
