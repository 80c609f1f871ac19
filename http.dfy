/** The parts of an Angular `HttpErrorResponse` that the error mappers read. */
module Http {
  import opened Common

  /** The `error` field of an `HttpErrorResponse`: a client-side
      `ErrorEvent`, a text body, a parsed JSON object whose `message`
      property may be a string, or nothing. */
  datatype Body =
    | ErrorEventBody(eventMessage: string)
    | TextBody(text: string)
    | ObjectBody(messageField: Option<string>)
    | NoBody

  /** `status`, `error` and `message` of an `HttpErrorResponse`. */
  datatype HttpError = HttpError(status: int, error: Body, message: string)

  /** `error.error?.message`: both an `ErrorEvent` and a JSON object may
      carry a message; a text body or no body has none. */
  function BodyMessage(b: Body): (r: Option<string>)
    ensures r.Some? <==> b.ErrorEventBody? || (b.ObjectBody? && b.messageField.Some?)
    ensures r.Some? ==> r.value == if b.ErrorEventBody? then b.eventMessage else b.messageField.value
  {
    match b
    case ErrorEventBody(m) => Some(m)
    case ObjectBody(m) => m
    case _ => None
  }

  /** A JavaScript `a || b || ... || fallback` over optional strings: the
      first candidate that is present and non-empty, else `fallback`. */
  function FirstNonEmpty(candidates: seq<Option<string>>, fallback: string): (r: string)
    ensures (exists i :: 0 <= i < |candidates| && Truthy(candidates[i])) ==>
      exists i :: 0 <= i < |candidates| && Truthy(candidates[i]) && r == candidates[i].value
         && forall j :: 0 <= j < i ==> !Truthy(candidates[j])
    ensures (forall i :: 0 <= i < |candidates| ==> !Truthy(candidates[i])) ==> r == fallback
  {
    if candidates == [] then fallback
    else if Truthy(candidates[0]) then candidates[0].value
    else FirstNonEmpty(candidates[1..], fallback)
  }

  /** A string operand is truthy when it is present and non-empty. */
  predicate Truthy(s: Option<string>) {
    s.Some? && s.value != ""
  }
}
