# curl-psr7 client core in Dafny

This project models the request/response translation core of a small PHP
library that sends PSR-7 requests through PHP's curl extension.

- `CurlClient` (`src/Client/CurlClient.php`) keeps a request and an option
  table keyed by curl option ids.
  - The constructor merges the caller's options over two defaults:
    RETURNTRANSFER and HEADER, both true.
  - `getOption`, `addOption` and `addOptions` read and write the table.
- For one transfer, the client builds the option set from the request.
  - It derives URL, CUSTOMREQUEST and HTTPHEADER, and adds POST and
    POSTFIELDS when the body is not empty.
  - These derived options win over the caller's, through PHP's left-biased
    array `+`.
- After the transfer, `curlExec` does one of two things.
  - A nonzero curl errno becomes a `CurlExecException`.
  - Otherwise, when the HEADER option is truthy (the default), it cuts the
    raw result at the reported header size and parses the first part as the
    header block into a name-to-value mapping; when HEADER is falsy, the
    whole result is the body and there are no headers. It then builds the
    response.
- `MessageFactory::getHttpVersion` (`src/Factory/MessageFactory.php`) maps
  curl's HTTP-version constants to the protocol labels "1.0", "1.1" and "2.0".

The modules:

- `Php`: the PHP built-ins the client uses, on byte strings.
  - `explode("\r\n", …)` is `SplitCrlf`, and its inverse `implode` is `JoinCrlf`.
  - Non-negative-offset `substr` is `Prefix` and `Suffix`, and
    `strpos(…, ':')` is `IndexOfColon`.
  - Also here: PCRE's `\s` class, and PHP 8's loose comparison of a string
    with an int.
- `Curl`: the option ids and version constants, the option values
  (`OptValue`, with PHP truthiness), and the record of what one transfer
  reports (`TransportOutcome`).
- `Messages`: the request as the client reads it, the response it builds,
  and the exception or response that `curlExec` ends with.
- `HeaderCodec`:
  - the serialiser of request headers (`"Name: line"`);
  - the header-block parser;
  - the round trip between the two.
- `OptionTable`: the pure specification of the option table.
  - the default merge;
  - `??` reads;
  - batches of writes;
  - the option set handed to curl.
- `Client`: the `CurlClient` class.
  - `options` and `request` are mutable fields.
  - Each method's loop is proved against the `OptionTable` and `HeaderCodec`
    functions.
- `Factory`: `getHttpVersion`, as written and as evidently intended.
- `Exchanges`: worked exchanges that use only the client's contracts.

Facts about the code that the model makes explicit:

- Storing PHP `null` with `addOption` keeps the key in the table
  (`src/Client/CurlClient.php:53`); `getOption` then returns null, just as
  for a missing key. Nothing in the client removes a key.
- Headers are serialised as one `"Name: line"` entry per header name. The
  name's values are already folded into one line by `getHeaderLine`.
- A parsed header value keeps the space that follows the colon, so
  serialising headers and parsing the block back gives every header name
  with `" "` before its line (`" text/plain"` for `text/plain`).
- The block `"HTTP/1.1 200 OK\r\nContent-Type: text/plain\r\n\r\n"` is 45
  bytes. With a reported header size of 45 and the payload `hello`, the
  response has the body `hello` and the one header Content-Type
  (`Exchanges.TextPlainBlockParses`, `Exchanges.TextPlainExchange`).

## Model

| member | source | states |
|---|---|---|
| Php.SplitCrlf | src/Client/CurlClient.php:117 | `explode` on CR LF gives at least one piece, and the first piece is a prefix of the input |
| Php.JoinSplitCrlf | src/Client/CurlClient.php:117 | joining the pieces of `explode("\r\n", s)` with CR LF gives back `s`, so the split loses no byte |
| Php.SplitCrlfPiecesHaveNoCrlf | src/Client/CurlClient.php:117 | no piece of the split contains CR LF |
| Php.SplitCrlfOfJoin | src/Client/CurlClient.php:117 | splitting the CR LF join of CR LF-free rows gives back exactly those rows |
| Php.Prefix | src/Client/CurlClient.php:141 | `substr(result, 0, n)` is a prefix of the result, whose length is the smaller of `n` and the result's length |
| Php.Suffix | src/Client/CurlClient.php:142 | `substr(result, n)` is what follows `substr(result, 0, n)`: the two concatenate to the result |
| Php.IndexOfColon | src/Client/CurlClient.php:120-121 | `strpos(row, ':')` on a row holding a colon is the index of a colon with no colon before it |
| HeaderCodec.SerializedHeaders | src/Client/CurlClient.php:84-94 | the header list has one entry per request header |
| HeaderCodec.SerializedHeadersAt | src/Client/CurlClient.php:88-91 | entry i of the header list is header i's name, `": "` and its header line |
| HeaderCodec.IsHeaderRow | src/Client/CurlClient.php:119 | a row matched by `^\S+:` holds a colon |
| HeaderCodec.HeaderRowSplit | src/Client/CurlClient.php:119-121 | a kept row is name + `":"` + value; the name holds no colon and no whitespace, and the value is not trimmed |
| HeaderCodec.LastRowFor | src/Client/CurlClient.php:118-123 | the index it returns is a kept row with that name, and no later row is a kept row with that name |
| HeaderCodec.ParseRowsLastWins | src/Client/CurlClient.php:113-127 | a name is in the parsed mapping iff some kept row has that name, and its value is the value of the last such row |
| HeaderCodec.ParseRowsSkipsLeading | src/Client/CurlClient.php:118-119 | a leading row that does not match `^\S+:` (such as the status line) does not change the mapping |
| HeaderCodec.FormatHeaderParses | src/Client/CurlClient.php:90 | a serialised `"Name: line"` entry is a kept row whose name is `Name`, whose value is `" " + line`, and which holds no CR LF |
| HeaderCodec.ParseSerializedHeaders | src/Client/CurlClient.php:113-127 | parsing the serialised list of distinct, sendable headers yields exactly their names, each mapped to `" "` + its line |
| HeaderCodec.ParseSerializedKeys | src/Client/CurlClient.php:113-127 | the parsed serialised list holds exactly the header names |
| HeaderCodec.ParseSerializedValues | src/Client/CurlClient.php:113-127 | in the parsed serialised list of distinct headers, each name maps to `" "` + its line |
| HeaderCodec.ParseOneMoreHeader | src/Client/CurlClient.php:118-123 | one more serialised header adds its name with `" "` + its line to the parsed mapping |
| HeaderCodec.HeaderBlockRoundTrip | src/Client/CurlClient.php:113-127 | a response header block (status line, serialised headers, blank terminator) parses to exactly the header names, each mapped to `" "` + its line |
| HeaderCodec.BlockParsesToRows | src/Client/CurlClient.php:117-119 | such a block parses as its header lines alone: the status line and the terminator are dropped |
| HeaderCodec.ParseRowsIgnoresTerminator | src/Client/CurlClient.php:119 | the two empty rows that end a header block add nothing to the mapping |
| HeaderCodec.StatusLineIsNotHeaderRow | src/Client/CurlClient.php:119 | `HTTP/<version> <rest>` with no colon in the version never matches `^\S+:` |
| OptionTable.Union | src/Client/CurlClient.php:26 | PHP array `a + b`: every key of `a` keeps `a`'s value; keys only in `b` take `b`'s value |
| OptionTable.WithDefaults | src/Client/CurlClient.php:14-26 | the caller's keys keep their values; RETURNTRANSFER and HEADER are present, and true exactly where the caller gave no value |
| OptionTable.LookupAfterWrite | src/Client/CurlClient.php:41-55 | after a write, the key reads as the written value (null included); other keys read as before; writing the same pair twice equals writing it once |
| OptionTable.LastEntryFor | src/Client/CurlClient.php:61-67 | the index it returns is an entry for the key, and no later entry has that key |
| OptionTable.AfterAddOptionsAt | src/Client/CurlClient.php:61-67 | after `addOptions`, a key the batch writes holds its last entry's value; every other key is present and valued exactly as before |
| OptionTable.AfterAddOptionsIdempotent | src/Client/CurlClient.php:61-67 | applying the same batch twice gives the table that applying it once gives |
| OptionTable.AfterAddOptionsAppend | src/Client/CurlClient.php:61-67 | two batches in a row act as their concatenation |
| OptionTable.TransferOptions | src/Client/CurlClient.php:99-110 | the option set's keys are the caller's plus the derived ones; URL, CUSTOMREQUEST and HTTPHEADER are always derived; POST and POSTFIELDS are derived when the body is not empty; every other caller option passes through |
| Client.CurlClient.constructor | src/Client/CurlClient.php:21-27 | the request is stored, and the table is the caller's options merged over the defaults |
| Client.CurlClient.GetOption | src/Client/CurlClient.php:41-44 | a missing key reads as null; a present key reads as its stored value |
| Client.CurlClient.AddOption | src/Client/CurlClient.php:51-55 | the table is the old one with the key set to the value; the key now reads as the value; every other key reads as before; the request is unchanged |
| Client.CurlClient.AddOptions | src/Client/CurlClient.php:61-67 | the table is the old one after `addOption` for each entry in order; the request is unchanged |
| Client.CurlClient.ConvertHeaderToCurlOpt | src/Client/CurlClient.php:84-94 | one entry per request header, in order, each the header's name, `": "` and its line |
| Client.CurlClient.CurlInit | src/Client/CurlClient.php:96-111 | the options applied to the handle are the transfer option set of the request and table |
| Client.CurlClient.ConvertHeaderToArray | src/Client/CurlClient.php:113-127 | the loop's mapping is the parse of the block's CR LF rows |
| Client.CurlClient.CurlExec | src/Client/CurlClient.php:129-150 | nonzero errno iff the exception, which carries the message and code; otherwise the status is the HTTP code; with HEADER truthy, the header part is the first `headerSize` bytes (all of them when the result is shorter), parsed, and the body is the rest; with HEADER falsy, there are no headers and the body is the whole result |
| Factory.GetHttpVersionAsWritten | src/Factory/MessageFactory.php:11-36 | the loose `switch` as written: the three curl constants map to "1.0", "1.1" and "2.0", and so do strings PHP reads as the numbers 1, 2 and 3; any other string passes through; null and any other int map to "1.1" |
| Factory.GetHttpVersion | src/Factory/MessageFactory.php:11-36 | the evidently intended mapping named in "## Findings": the three curl constants map to "1.0", "1.1" and "2.0"; every string passes through, numeric ones included; null and any other int map to "1.1" |
| Factory.GetHttpVersionRange | src/Factory/MessageFactory.php:11-36 | the label is always "1.0", "1.1", "2.0" or the string passed in, both as written and as intended |
| Factory.AsWrittenAgreesOffNumericStrings | src/Factory/MessageFactory.php:13-31 | the loose `switch` as written agrees with the intended mapping on every argument except strings PHP reads as the numbers 1, 2 or 3 |
| Factory.AsWrittenMapsTwoPointZeroToOnePointOne | src/Factory/MessageFactory.php:13-27 | as written, the string "2.0" compares equal to `CURL_HTTP_VERSION_1_1` (2) and yields "1.1"; the intended mapping yields "2.0" |
| Exchanges.TextPlainBlockParses | src/Client/CurlClient.php:113-127 | the block `HTTP/1.1 200 OK`, `Content-Type: text/plain`, blank line is 45 bytes and parses to `{Content-Type: " text/plain"}` |
| Exchanges.SingleHeaderBlock | src/Client/CurlClient.php:113-127 | a status line, one `"Name: line"` row and the blank terminator parse to exactly `{Name: " " + line}` |

## Left out

- The libcurl calls (`curl_init`, `curl_setopt`, `curl_setopt_array`, `curl_exec`, `curl_errno`, `curl_error`, `curl_getinfo`) are foreign I/O. Their outcome is the `TransportOutcome` parameter of `CurlExec`, and the option set they would receive is returned as `applied`.
- The `handle` field and `getHandle` only hold a resource reference; there is no lifecycle to verify.
- RETURNTRANSFER set to false, where `curl_exec` returns a bool instead of a string: the transfer result is always a string.
- PHP array order is not modelled: the option table and the response headers are maps. The order of `addOptions` entries is kept, as a sequence.
- Header names that PHP would turn into integer array keys (numeric strings) are kept as strings.
- The fluent `return $this` of `addOption` and `addOptions` is not modelled; callers use the same object.
- Guzzle/PSR-7 objects are plain records. The URI is its string form, the headers are already joined into one line per name, and the body is its contents. Stream position, an unknown body size (null) and Guzzle's header-name normalisation are not modelled.
- Factory.GetHttpVersionAsWritten: PHP's numeric strings are modelled without exponent forms (`"2e0"`) and without float rounding of very long fractions. Those strings are treated as non-numeric.
- Option values and keys are narrower than PHP's: `OptValue` has no float, nested array, callable or resource values, and `OptionMap` keys are ints only. A non-integer key passed to `addOptions` makes `addOption` throw a TypeError under `strict_types` (`src/Client/CurlClient.php:64`), after the earlier entries have already been written; the model cannot express that partial update.
- The response is the arguments `curlExec` passes to Guzzle's `Response` constructor (`Messages.Response`), not the object the constructor builds. That constructor trims spaces and tabs from header values (so `getHeaderLine('Content-Type')` would give `text/plain`, not ` text/plain`). It throws `InvalidArgumentException` for a status outside 100-599, such as an HTTP code of 0 with errno 0, and for a parsed header name that is not a token, such as the empty name of the row `::`. So `CurlExec`'s "errno 0 gives a response" holds for the constructor's arguments only.
- Bytes are Dafny `char`s, one per byte; no encoding is modelled.
- `RequestFactory`, `CurlFactory`, `ResponseFactory`, `Director`, `RequestBuilderInterface`, `HttpVersion` and `HttpHeader` are not part of this model: they are delegations to Guzzle or constants only. The integration tests are not modelled either, because they need a live server.

## Findings

| source | as written | input that shows it | evidently intended | confidence | as-written member | corrected member |
|---|---|---|---|---|---|---|
| src/Factory/MessageFactory.php:13-27 | `switch` compares loosely, so a numeric string equal to a curl constant takes that constant's branch | `getHttpVersion("2.0")`: `"2.0" == 2` (CURL_HTTP_VERSION_1_1), so it returns "1.1" | a string argument passes through unchanged ("2.0") | not executed | Factory.AsWrittenMapsTwoPointZeroToOnePointOne | Factory.GetHttpVersion |
