/** Worked exchanges: what callers can conclude from the client's contracts
    alone, for a transfer that succeeds, one that fails, and one without the
    header block. */
module Exchanges {
  import opened Php
  import opened Curl
  import opened Messages
  import opened HeaderCodec
  import opened OptionTable
  import opened Client

  lemma JoinFramedRow(status: string, row: string)
    ensures JoinCrlf([status, row, "", ""]) == status + Crlf + row + Crlf + Crlf
  {
    var rows := [status, row, "", ""];
    assert rows[1..] == [row, "", ""];
    assert rows[1..][1..] == ["", ""];
    assert rows[1..][1..][1..] == [""];
    assert JoinCrlf(rows[1..][1..]) == "" + Crlf + "" == Crlf;
    assert JoinCrlf(rows[1..]) == row + Crlf + Crlf;
  }

  /** A status line, one header and the blank terminator parse to exactly that
      header, its value keeping the space after the colon. */
  lemma SingleHeaderBlock(status: string, h: HeaderEntry)
    requires !IsHeaderRow(status) && !HasCrlf(status)
    requires IsTokenName(h.name) && !HasCrlf(h.line)
    ensures ParseHeaderBlock(status + Crlf + h.name + ": " + h.line + Crlf + Crlf) == map[h.name := " " + h.line]
  {
    var block := status + Crlf + h.name + ": " + h.line + Crlf + Crlf;
    var hs := [h];
    assert hs[..0] == [];
    assert SerializedHeaders(hs) == [FormatHeader(h)];
    assert [status] + SerializedHeaders(hs) + ["", ""] == [status, FormatHeader(h), "", ""];
    JoinFramedRow(status, FormatHeader(h));
    assert block == JoinCrlf([status] + SerializedHeaders(hs) + ["", ""]);
    HeaderBlockRoundTrip(status, hs);
    assert Names(hs) == {h.name};
    var m := ParseHeaderBlock(block);
    assert m.Keys == {h.name} && m[h.name] == " " + h.line;
  }

  /** A GET whose transfer returns a status line, one header and a payload,
      with the header size curl reports for that block. */
  method SuccessfulExchange(status: string, h: HeaderEntry, payload: string)
    requires !IsHeaderRow(status) && !HasCrlf(status)
    requires IsTokenName(h.name) && !HasCrlf(h.line)
  {
    var get := Request("GET", "https://api.example.com/users", [], "");
    var client := new CurlClient(get, map[]);
    var block := status + Crlf + h.name + ": " + h.line + Crlf + Crlf;
    var raw := block + payload;
    assert raw[..|block|] == block && raw[|block|..] == payload;
    SingleHeaderBlock(status, h);
    var applied, r := client.CurlExec(TransportOutcome(0, "", raw, |block|, 200));
    assert r == Completed(Response(200, map[h.name := " " + h.line], payload));
    assert applied[OptUrl] == Str("https://api.example.com/users");
  }

  /** The header block of a plain-text response. */
  const TextPlainBlock: string := "HTTP/1.1 200 OK" + Crlf + "Content-Type" + ": " + "text/plain" + Crlf + Crlf

  /** The plain-text block is 45 bytes long and parses to its one header,
      whose value keeps the space after the colon. */
  lemma TextPlainBlockParses(block: string)
    requires block == TextPlainBlock
    ensures |block| == 45
    ensures ParseHeaderBlock(block) == map["Content-Type" := " text/plain"]
  {
    var status := "HTTP/1.1 200 OK";
    var h := HeaderEntry("Content-Type", "text/plain");
    TextPlainPartsAreSendable();
    SingleHeaderBlock(status, h);
    assert " " + h.line == " text/plain";
  }

  /** The status line and the header of the plain-text block hold no CR LF,
      and the header name is a token. */
  lemma TextPlainPartsAreSendable()
    ensures !IsHeaderRow("HTTP/1.1 200 OK")
    ensures !HasCrlf("HTTP/1.1 200 OK")
    ensures IsTokenName("Content-Type")
    ensures !HasCrlf("text/plain")
  {
    StatusLineIsNotHeaderRow("1.1", "200 OK");
    assert "HTTP/" + "1.1" + " " + "200 OK" == "HTTP/1.1 200 OK";
    NoCrlfInStatusLine();
    ContentTypeIsToken();
    NoCrlfInTextPlain();
  }

  lemma NoCrlfInStatusLine() ensures !HasCrlf("HTTP/1.1 200 OK") { }

  lemma ContentTypeIsToken() ensures IsTokenName("Content-Type") { }

  lemma NoCrlfInTextPlain() ensures !HasCrlf("text/plain") { }

  /** The plain-text response followed by `hello`: with curl's header size of
      45, the body is `hello` and the only header is Content-Type. */
  method TextPlainExchange() {
    var block := TextPlainBlock;
    TextPlainBlockParses(block);
    var raw := block + "hello";
    assert raw[..|block|] == block && raw[|block|..] == "hello";
    var get := Request("GET", "https://api.example.com/users", [], "");
    var client := new CurlClient(get, map[]);
    var applied, r := client.CurlExec(TransportOutcome(0, "", raw, |block|, 200));
    assert r == Completed(Response(200, map["Content-Type" := " text/plain"], "hello"));
  }

  /** A transfer that fails with error 6 ends in the exception, never a response. */
  method FailedExchange() {
    var get := Request("GET", "exception", [], "");
    var client := new CurlClient(get, map[]);
    var applied, r := client.CurlExec(TransportOutcome(6, "Could not resolve host", "", 0, 0));
    assert r == Failed("Could not resolve host", 6);
  }

  /** With HEADER switched off, the raw result is the body and there are no headers. */
  method HeaderlessExchange() {
    var post := Request("POST", "https://api.example.com/users", [], "name=a");
    var client := new CurlClient(post, map[]);
    client.AddOption(OptHeader, Bool(false));
    var applied, r := client.CurlExec(TransportOutcome(0, "", "hello", 0, 201));
    assert r == Completed(Response(201, map[], "hello"));
    assert applied[OptPostFields] == Str("name=a");
  }
}
