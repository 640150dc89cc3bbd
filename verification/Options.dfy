/** The optional values that several modules of this project share. */
module Options {
  datatype Option<+T> = None | Some(value: T)

  /** The first of two optional values that is present. */
  function OrElse<T>(a: Option<T>, b: Option<T>): Option<T> {
    if a.Some? then a else b
  }
}
