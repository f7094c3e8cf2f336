/** Shared building blocks: an optional value, standing in for JavaScript's
    `null`/`undefined` and for SQL's NULL. */
module Prelude {

  datatype Option<+T> = None | Some(value: T) {

    /** The wrapped value, or `default` when there is none (SQL's COALESCE). */
    function GetOr(default: T): T {
      match this
      case Some(v) => v
      case None => default
    }
  }
}
