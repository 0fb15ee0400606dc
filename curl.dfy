/** The slice of PHP's curl extension the client touches: the option ids it
    reads or sets, the values an option can hold, and what one transfer
    reports back once it has run. */
module Curl {

  // Option ids, as PHP's curl extension numbers them.
  const OptHeader: int := 42            // CURLOPT_HEADER
  const OptPost: int := 47              // CURLOPT_POST
  const OptUrl: int := 10002            // CURLOPT_URL
  const OptPostFields: int := 10015     // CURLOPT_POSTFIELDS
  const OptHttpHeader: int := 10023     // CURLOPT_HTTPHEADER
  const OptCustomRequest: int := 10036  // CURLOPT_CUSTOMREQUEST
  const OptReturnTransfer: int := 19913 // CURLOPT_RETURNTRANSFER

  // HTTP version constants (CURL_HTTP_VERSION_1_0, _1_1, _2_0).
  const HttpVersion10: int := 1
  const HttpVersion11: int := 2
  const HttpVersion20: int := 3

  /** A value stored in the option table; `Null` is PHP's null. */
  datatype OptValue =
    | Null
    | Bool(b: bool)
    | Int(i: int)
    | Str(s: string)
    | StrList(items: seq<string>)

  /** PHP's conversion of a value to bool, as `if ($value)` applies it:
      null, false, 0, "", "0" and the empty array are false. */
  predicate Truthy(v: OptValue) {
    match v
    case Null => false
    case Bool(b) => b
    case Int(i) => i != 0
    case Str(s) => s != "" && s != "0"
    case StrList(items) => items != []
  }

  /** What libcurl reports about one executed transfer: `curl_errno`,
      `curl_error`, the string `curl_exec` returned, and `curl_getinfo` for
      CURLINFO_HEADER_SIZE and CURLINFO_HTTP_CODE. */
  datatype TransportOutcome = TransportOutcome(
    errno: int,
    error: string,
    result: string,
    headerSize: nat,
    httpCode: int)
}
