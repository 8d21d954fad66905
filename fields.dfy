/** Request fields as the handlers read them.
    Every optional field of a request body or query string is a string; a field
    that is missing and a field that is "" are both falsy in JavaScript, and the
    handlers treat them alike, so both are modelled as "". */
module Fields {

  datatype Option<+T> = None | Some(value: T)

  /** JavaScript truthiness of a string field. */
  predicate Given(v: string) {
    v != ""
  }

  /** `v || fallback` on a string field. */
  function OrDefault(v: string, fallback: string): (r: string)
    ensures Given(v) ==> r == v
    ensures !Given(v) ==> r == fallback
  {
    if Given(v) then v else fallback
  }

  /** `saved || current` on an optional snapshot entry. */
  function OrElse<T>(saved: Option<T>, current: T): (r: T)
    ensures saved.Some? ==> r == saved.value
    ensures saved.None? ==> r == current
  {
    match saved
    case Some(v) => v
    case None => current
  }
}
