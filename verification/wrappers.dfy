/** Rust's `Option`, as used by the record's `status_code` and `error`
    fields. */
module Wrappers {

  datatype Option<T> = Some(value: T) | None
  {
    /** The held value, or `fallback` when there is none. */
    function GetOr(fallback: T): T {
      if Some? then value else fallback
    }
  }
}
