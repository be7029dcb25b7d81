/** Small failure-carrying datatypes shared by every module of the model. */
module Wrappers {

  /** Python's `None` or a present value. */
  datatype Option<+T> = None | Some(value: T) {
    function GetOr(default: T): T {
      match this
      case Some(v) => v
      case None => default
    }
  }

  /** The result of a Python computation that may raise an exception the
      caller catches (an IndexError on a short argument list, an
      AttributeError on a comment node, a KeyError on a missing field). */
  datatype Outcome<+T> = Ok(value: T) | Raised

  /** Python truthiness of an optional string: `None` and `""` are false. */
  predicate Truthy(s: Option<string>) {
    s.Some? && s.value != ""
  }
}
