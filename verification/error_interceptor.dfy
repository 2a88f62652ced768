/** The error interceptor (`ErrorInterceptor`): every failed response is
    rethrown as `{error, status, originalError}`, where `error` is the most
    specific user-facing message available. */
module ErrorInterceptor {
  import opened Results
  import opened Text
  import opened Http

  const DefaultMessage := "An error occurred. Please try again later."

  /** The statuses with a fixed message. */
  const FixedMessages: map<nat, string> := map[
    400 := "Bad request. Please check your input.",
    401 := "Unauthorized. Please login again.",
    403 := "Forbidden. You do not have access to this resource.",
    404 := "Resource not found.",
    409 := "Conflict. The resource already exists.",
    500 := "Server error. Please try again later.",
    503 := "Service unavailable. Please try again later."
  ]

  /** The message for any other status: `Error <status>: <statusText>`. */
  function GenericMessage(status: nat, statusText: string): string
  {
    "Error " + NatToString(status) + ": " + statusText
  }

  /** The `switch` on the status: the fixed message where there is one,
      the generic one otherwise (502 and 504 included). */
  function StatusMessage(status: nat, statusText: string): (m: string)
    ensures status in FixedMessages ==> m == FixedMessages[status]
    ensures status !in FixedMessages ==> m == GenericMessage(status, statusText)
  {
    match status
    case 400 => "Bad request. Please check your input."
    case 401 => "Unauthorized. Please login again."
    case 403 => "Forbidden. You do not have access to this resource."
    case 404 => "Resource not found."
    case 409 => "Conflict. The resource already exists."
    case 500 => "Server error. Please try again later."
    case 503 => "Service unavailable. Please try again later."
    case _ => GenericMessage(status, statusText)
  }

  /** The body carries a usable message of its own (`error.error.message`
      or `error.error.error`, non-empty). */
  predicate HasBodyMessage(body: ErrorBody)
  {
    body.Payload? && (Truthy(body.message) || Truthy(body.error))
  }

  /** Message selection by priority: a client-side event's message; else a
      non-empty body `message`; else a non-empty body `error`; else the
      status table for a non-zero status; else the default message. */
  function SelectMessage(err: HttpError): (m: string)
    ensures err.body.ClientEvent? ==> m == err.body.eventMessage
    ensures err.body.Payload? && Truthy(err.body.message) ==> m == err.body.message.value
    ensures err.body.Payload? && !Truthy(err.body.message) && Truthy(err.body.error) ==> m == err.body.error.value
    ensures !err.body.ClientEvent? && !HasBodyMessage(err.body) && err.status != 0 ==>
      m == StatusMessage(err.status, err.statusText)
    ensures !err.body.ClientEvent? && !HasBodyMessage(err.body) && err.status == 0 ==> m == DefaultMessage
  {
    match err.body
    case ClientEvent(message) => message
    case Payload(message, error) =>
      if Truthy(message) then message.value
      else if Truthy(error) then error.value
      else if err.status != 0 then StatusMessage(err.status, err.statusText)
      else DefaultMessage
    case Opaque =>
      if err.status != 0 then StatusMessage(err.status, err.statusText) else DefaultMessage
  }

  /** The rethrown record. */
  datatype Rethrown = Rethrown(error: string, status: nat, originalError: HttpError)

  /** `catchError`: the failure is never swallowed; the record carries the
      selected message, the original status and the original failure. */
  function Intercept(err: HttpError): (r: Rethrown)
    ensures r.status == err.status && r.originalError == err
    ensures r.error == SelectMessage(err)
  {
    Rethrown(SelectMessage(err), err.status, err)
  }

  // ---------------------------------------------------------------------
  // Properties

  /** Outside a client-side event the user is never shown an empty message. */
  lemma ServerSideMessageNonEmpty(err: HttpError)
    requires !err.body.ClientEvent?
    ensures Intercept(err).error != ""
  {
  }

  /** In a generic message the numeral runs from index 6 up to the ':'. */
  lemma NumeralThenColon(d: string, t: string)
    requires AllDigits(d)
    ensures forall k :: |"Error "| <= k < |"Error "| + |d| ==> IsAsciiDigit(("Error " + d + ": " + t)[k])
    ensures ("Error " + d + ": " + t)[|"Error "| + |d|] == ':'
    ensures ("Error " + d + ": " + t)[|"Error "|..|"Error "| + |d|] == d
  {
    var m := "Error " + d + ": " + t;
    forall k | |"Error "| <= k < |"Error "| + |d| ensures IsAsciiDigit(m[k]) {
      assert m[k] == d[k - |"Error "|];
    }
  }

  /** A numeral is delimited by the ': ' that follows it, so equal generic
      messages carry equal numerals. */
  lemma NumeralDelimited(da: string, ta: string, db: string, tb: string)
    requires AllDigits(da) && AllDigits(db)
    requires "Error " + da + ": " + ta == "Error " + db + ": " + tb
    ensures da == db
  {
    NumeralThenColon(da, ta);
    NumeralThenColon(db, tb);
    assert |da| == |db|;
  }

  /** The generic message names its status unambiguously: two generic
      messages that read the same come from the same status. */
  lemma GenericMessageIdentifiesStatus(a: nat, textA: string, b: nat, textB: string)
    requires GenericMessage(a, textA) == GenericMessage(b, textB)
    ensures a == b
  {
    NumeralDelimited(NatToString(a), textA, NatToString(b), textB);
    NatToStringInjective(a, b);
  }
}
