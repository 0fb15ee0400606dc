/** The PSR-7 messages as the client sees them: a request reduced to what the
    client reads from it (the method is `verb`), and the response it constructs. */
module Messages {

  /** One entry of `getHeaders()`: a header name and its `getHeaderLine()`,
      the header's values already joined into one line. */
  datatype HeaderEntry = HeaderEntry(name: string, line: string)

  /** A request: method (`getMethod()`), URI as a string, headers in their order, body contents. */
  datatype Request = Request(
    verb: string,
    uri: string,
    headers: seq<HeaderEntry>,
    body: string)

  /** The arguments the client passes to the Response constructor. */
  datatype Response = Response(
    status: int,
    headers: map<string, string>,
    body: string)

  /** What `curlExec` ends with: a response, or the CurlExecException it throws
      with the transport's message and error code. */
  datatype ExecResult =
    | Completed(response: Response)
    | Failed(message: string, code: int)
}
