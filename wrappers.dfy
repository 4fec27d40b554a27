/** Optional values and the all-or-nothing outcome of the OCR extraction. */
module Wrappers {

  /** A field that a block may or may not carry (Python's `dict.get` returning None). */
  datatype Option<T> = None | Some(value: T) {

    /** The value, or `default` when absent (Python's `d.get(key, default)`). */
    function GetOr(default: T): T {
      match this
      case Some(v) => v
      case None => default
    }
  }

  /** Either a value, or the single opaque processing error into which the
      `/extract` handler turns every exception raised while reconstructing. */
  datatype Result<T> = Ok(value: T) | Failure
}
