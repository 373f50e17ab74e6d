/** A value that may be missing: the source's `None`, or a pandas entry that
    was coerced to NaN or NaT. */
module Options {

  datatype Option<T> = None | Some(value: T)

  /** The value held, or `fallback` when nothing is held (how a pandas sum
      treats a NaN term). */
  function ValueOr<T>(o: Option<T>, fallback: T): T {
    if o.Some? then o.value else fallback
  }
}
