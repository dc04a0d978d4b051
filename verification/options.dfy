/** Optional values: Python's `None` against a present value. */
module Options {

  datatype Option<+T> = None | Some(value: T)

  /** The gap-filling rule: the first present value wins. */
  function OrElse<T>(a: Option<T>, b: Option<T>): (r: Option<T>)
    ensures r.Some? <==> a.Some? || b.Some?
    ensures a.Some? ==> r == a
    ensures a.None? ==> r == b
  {
    if a.Some? then a else b
  }
}
