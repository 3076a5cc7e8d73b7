// A value that may be missing.
module Options {
  datatype Option<+T> = None | Some(value: T)

  function GetOr<T>(o: Option<T>, default: T): T {
    if o.Some? then o.value else default
  }
}
