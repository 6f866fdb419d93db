/** The optional value used for Python's `None`-or-value variables. */
module Wrappers {

  datatype Option<+T> = None | Some(value: T) {

    /** The value as a sequence of length zero or one. */
    function ToSeq(): (s: seq<T>)
      ensures |s| == (if Some? then 1 else 0)
      ensures Some? ==> s[0] == value
    {
      match this
      case None => []
      case Some(v) => [v]
    }
  }
}
