/** Optional values: the "may be absent / may fail" outcomes of the model
    (a missing dictionary key, a JSON document that does not decode, an
    OSC argument that does not convert). */
module Wrappers {

  datatype Option<+T> = None | Some(value: T) {

    /** The value, or `default` when there is none (Python's `d.get(k, default)`). */
    function GetOr(default: T): T {
      match this
      case Some(v) => v
      case None => default
    }
  }
}
