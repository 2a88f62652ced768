/** The shapes of outgoing requests and failed responses that both
    interceptors work on. Header names are exact keys. */
module Http {
  import opened Results

  /** An outgoing request: its target and its headers. */
  datatype Request = Request(url: string, headers: map<string, string>)

  /** What `HttpErrorResponse.error` carries: a client-side `ErrorEvent`, a
      response body whose `message` and `error` fields may be present, or
      anything else (no body, a plain string, ...). */
  datatype ErrorBody =
    | ClientEvent(eventMessage: string)
    | Payload(message: Option<string>, error: Option<string>)
    | Opaque

  /** A failed response: status (0 for a transport failure), status text and body. */
  datatype HttpError = HttpError(status: nat, statusText: string, body: ErrorBody)
}
