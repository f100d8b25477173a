/** Shared vocabulary of both services: optional values, bytes and
    128-bit identifiers. */
module Prelude {

  /** A value that may be absent: Rust's `Option`, and SQL's nullable column. */
  datatype Option<T> = None | Some(value: T) {

    /** The carried value, or `fallback` when absent. */
    function GetOr(fallback: T): T
    {
      match this
      case Some(v) => v
      case None => fallback
    }

    /** This value when present, otherwise `other` (SQL `COALESCE` of two
        nullable values). */
    function OrElse(other: Option<T>): Option<T>
    {
      if Some? then this else other
    }
  }

  type byte = b: int | 0 <= b < 0x100

  /** A UUID: an opaque 128-bit identifier. */
  type Uuid = x: int | 0 <= x < 0x1_0000_0000_0000_0000_0000_0000_0000_0000
}
