/** Optional values: the source's `null` and `undefined`. */
module Options {
  datatype Option<+T> = None | Some(value: T)

  /** The JavaScript `a ?? b`. */
  function Coalesce<T>(a: Option<T>, b: Option<T>): Option<T> {
    if a.Some? then a else b
  }
}
