/** Wrappers shared by the whole model: `Option` stands for the TypeScript
    `T | undefined` of optional record fields. */
module Wrappers {

  datatype Option<+T> = None | Some(value: T) {
    /** `x ?? fallback`, the `x || []` of the source for optional lists. */
    function GetOr(fallback: T): T {
      match this
      case Some(v) => v
      case None => fallback
    }
  }
}
