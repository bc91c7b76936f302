/** Option and Result values used for the store's optional lookups and its rejected actions. */
module Common {

  datatype Option<+T> = None | Some(value: T)

  /** An action either yields its new value or is rejected with an error and changes nothing. */
  datatype Result<+T, +E> = Ok(value: T) | Err(error: E)

  function GetOr<T>(o: Option<T>, default: T): (r: T)
    ensures o.Some? ==> r == o.value
    ensures o.None? ==> r == default
  {
    match o
    case Some(v) => v
    case None => default
  }
}
