/** `CurlClient`: holds a request and an option table, turns them into the
    option set for one curl transfer, and turns what the transfer reports
    into a response or an exception. */
module Client {
  import opened Php
  import opened Curl
  import opened Messages
  import opened HeaderCodec
  import opened OptionTable

  class CurlClient {
    var request: Request
    var options: OptionMap

    /** The caller's options, with the two defaults added where the caller
        gave no value for their keys. */
    constructor (request: Request, options: OptionMap)
      ensures this.request == request
      ensures this.options == WithDefaults(options)
    {
      this.request := request;
      this.options := WithDefaults(options);
    }

    /** `getOption`: a missing key, like a key holding null, reads as null. */
    function GetOption(option: int): (v: OptValue)
      reads this
      ensures option !in options ==> v == Null
      ensures option in options ==> v == options[option]
    {
      Lookup(options, option)
    }

    /** `addOption`: the key now reads as `value`, every other key reads as
        before, and the request is untouched. */
    method AddOption(option: int, value: OptValue)
      modifies this
      ensures options == old(options)[option := value]
      ensures request == old(request)
      ensures GetOption(option) == value
      ensures forall k :: k != option ==> GetOption(k) == old(GetOption(k))
    {
      options := options[option := value];
    }

    /** `addOptions`: `addOption` for each entry in iteration order. */
    method AddOptions(entries: seq<(int, OptValue)>)
      modifies this
      ensures options == AfterAddOptions(old(options), entries)
      ensures request == old(request)
    {
      var i := 0;
      while i < |entries|
        invariant 0 <= i <= |entries|
        invariant options == AfterAddOptions(old(options), entries[..i])
        invariant request == old(request)
      {
        AddOption(entries[i].0, entries[i].1);
        assert entries[..i + 1][..i] == entries[..i];
        i := i + 1;
      }
      assert entries[..|entries|] == entries;
    }

    /** `convertHeaderToCurlOpt`: one `"Name: line"` entry per request header,
        in the request's order. */
    method ConvertHeaderToCurlOpt() returns (result: seq<string>)
      ensures result == SerializedHeaders(request.headers)
      ensures |result| == |request.headers|
      ensures forall i :: 0 <= i < |result| ==> result[i] == request.headers[i].name + ": " + request.headers[i].line
    {
      var headers := request.headers;
      result := [];
      var i := 0;
      while i < |headers|
        invariant 0 <= i <= |headers|
        invariant result == SerializedHeaders(headers[..i])
      {
        var header := headers[i];
        result := result + [header.name + ": " + header.line];
        assert headers[..i + 1][..i] == headers[..i];
        i := i + 1;
      }
      assert headers[..|headers|] == headers;
      forall i | 0 <= i < |result|
        ensures result[i] == headers[i].name + ": " + headers[i].line
      {
        SerializedHeadersAt(headers, i);
      }
    }

    /** The option set `curlInit` applies to the handle: the derived options
        over the caller's table. */
    method CurlInit() returns (applied: OptionMap)
      ensures applied == TransferOptions(request, options)
    {
      var headerLines := ConvertHeaderToCurlOpt();
      var derived := map[
        OptUrl := Str(request.uri),
        OptCustomRequest := Str(request.verb),
        OptHttpHeader := StrList(headerLines)];
      if |request.body| > 0 {
        derived := derived[OptPost := Bool(true)];
        derived := derived[OptPostFields := Str(request.body)];
      }
      applied := Union(derived, options);
    }

    /** `convertHeaderToArray`: the mapping from the header block's rows. */
    method ConvertHeaderToArray(header: string) returns (result: map<string, string>)
      ensures result == ParseHeaderBlock(header)
    {
      result := map[];
      var rows := SplitCrlf(header);
      var i := 0;
      while i < |rows|
        invariant 0 <= i <= |rows|
        invariant result == ParseRows(rows[..i])
      {
        var row := rows[i];
        if IsHeaderRow(row) {
          var colon := IndexOfColon(row);
          result := result[row[..colon] := row[colon + 1..]];
        }
        assert rows[..i + 1][..i] == rows[..i];
        i := i + 1;
      }
      assert rows[..|rows|] == rows;
    }

    /** `curlExec`, given what the transfer reported. It returns the option
        set applied to the handle and either the CurlExecException (nonzero
        errno) or the response: with HEADER truthy, the raw result is cut at
        the reported header size and the first part is parsed as headers;
        otherwise the whole result is the body and there are no headers. */
    method CurlExec(outcome: TransportOutcome) returns (applied: OptionMap, r: ExecResult)
      ensures applied == TransferOptions(request, options)
      ensures outcome.errno != 0 <==> r.Failed?
      ensures outcome.errno != 0 ==> r == Failed(outcome.error, outcome.errno)
      ensures r.Completed? ==> r.response.status == outcome.httpCode
      ensures r.Completed? && Truthy(GetOption(OptHeader)) ==>
        var cut := Min(outcome.headerSize, |outcome.result|);
        && r.response.body == outcome.result[cut..]
        && r.response.headers == ParseHeaderBlock(outcome.result[..cut])
      ensures r.Completed? && !Truthy(GetOption(OptHeader)) ==>
        r.response.headers == map[] && r.response.body == outcome.result
    {
      applied := CurlInit();
      var result := outcome.result;
      var header, body := result, result;
      if outcome.errno != 0 {
        return applied, Failed(outcome.error, outcome.errno);
      }
      if Truthy(GetOption(OptHeader)) {
        header := Prefix(result, outcome.headerSize);
        body := Suffix(result, outcome.headerSize);
      }
      var headers: map<string, string> := map[];
      if Truthy(GetOption(OptHeader)) {
        headers := ConvertHeaderToArray(header);
      }
      r := Completed(Response(outcome.httpCode, headers, body));
    }
  }
}
