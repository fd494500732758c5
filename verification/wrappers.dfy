/** The optional-value datatype used throughout the model for Python's `None`. */
module Wrappers {

  datatype Option<+T> = None | Some(value: T) {

    /** The wrapped value, or `default` when there is none (Python's `x or default` on a missing key). */
    function GetOr(default: T): T {
      match this
      case Some(v) => v
      case None => default
    }

    /** The value as a list of at most one element. */
    function ToSeq(): (r: seq<T>)
      ensures |r| <= 1 && (r == [] <==> this.None?)
      ensures this.Some? ==> r == [this.value]
    {
      match this
      case Some(v) => [v]
      case None => []
    }
  }
}
