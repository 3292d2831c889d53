/** Option and Result, the two wrappers the model uses for the source's failures. */
module Wrappers {
  datatype Option<T> = None | Some(value: T)
  {
    function GetOr(default: T): (r: T)
      ensures this.Some? ==> r == this.value
      ensures this.None? ==> r == default
    {
      match this
      case None => default
      case Some(v) => v
    }
  }

  datatype Result<T, E> = Success(value: T) | Failure(error: E)
}
