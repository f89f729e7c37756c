/** The optional-value type shared by the modules of the bridge model. */
module Wrappers {

  /** A value that may be absent. */
  datatype Option<+T> = None | Some(value: T)
  {
    /** The zero- or one-element sequence holding the value, if any. */
    function ToSeq(): (s: seq<T>)
      ensures |s| <= 1
      ensures Some? <==> |s| == 1
      ensures Some? ==> s[0] == value
    {
      if Some? then [value] else []
    }
  }
}
