/** Values read from a request body, and the JSON replies the handlers send. */
module Form {

  /**
   * A request-body field: absent (JavaScript `undefined`) or present. It
   * doubles as the result type of lookups and checks that may find nothing.
   */
  datatype Option<+T> = None | Some(value: T)

  /** JavaScript truthiness of an optional string field: present and not "". */
  predicate Present(o: Option<string>)
  {
    o.Some? && o.value != ""
  }

  /** The string a validator sees: an absent field reads as "". */
  function Text(o: Option<string>): (s: string)
    ensures Present(o) <==> s != ""
    ensures o.Some? ==> s == o.value
  {
    if o.Some? then o.value else ""
  }

  /** `o || fallback` on an optional string field. */
  function OrElse(o: Option<string>, fallback: string): string
  {
    if Present(o) then o.value else fallback
  }
}

module Http {

  /** One entry of express-validator's `errors.array()`: the field and its message. */
  datatype FieldError = FieldError(path: string, msg: string)

  /** A handler's answer: a success body, an error message, or the validator's error list (400). */
  datatype Reply<+T> =
    | Ok(status: nat, value: T)
    | Error(status: nat, message: string)
    | Invalid(errors: seq<FieldError>)
  {
    /** The HTTP status code sent. */
    function Status(): nat
    {
      match this
      case Ok(s, _) => s
      case Error(s, _) => s
      case Invalid(_) => 400
    }
  }
}
