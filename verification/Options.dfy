/** Nullable columns and optional arguments. */
module Options {

  datatype Option<+T> = None | Some(value: T) {
    /** SQL `COALESCE(this, other)`. */
    function Or(other: Option<T>): Option<T> {
      if Some? then this else other
    }

    /** `COALESCE(this, default)` for a default that is never null. */
    function GetOr(default: T): T {
      if Some? then value else default
    }
  }
}
