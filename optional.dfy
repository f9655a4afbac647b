/** Ruby's `nil` next to a value: `None` is nil, `Some(v)` is v. */
module Optional {

  datatype Option<+T> = None | Some(value: T)

  /** String interpolation `"#{x}"`: nil interpolates as the empty string. */
  function Interpolate(x: Option<string>): (s: string)
    ensures x.Some? ==> s == x.value
    ensures x.None? ==> s == ""
  {
    match x
    case Some(v) => v
    case None => ""
  }
}
