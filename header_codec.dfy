/** The two header conversions of the client: request headers to the lines
    curl sends (`"Name: line"`), and a raw response header block back to a
    name-to-value mapping. */
module HeaderCodec {
  import opened Php
  import opened Messages

  // ---------------------------------------------------------------------------
  // Request headers to curl's header list
  // ---------------------------------------------------------------------------

  function FormatHeader(h: HeaderEntry): string {
    h.name + ": " + h.line
  }

  /** The header list curl is given: one formatted line per header, in order. */
  function SerializedHeaders(hs: seq<HeaderEntry>): (lines: seq<string>)
    ensures |lines| == |hs|
  {
    if hs == [] then []
    else SerializedHeaders(hs[..|hs| - 1]) + [FormatHeader(hs[|hs| - 1])]
  }

  /** Line i of the list is header i's name, a colon, a space and its line. */
  lemma {:induction false} SerializedHeadersAt(hs: seq<HeaderEntry>, i: int)
    requires 0 <= i < |hs|
    ensures SerializedHeaders(hs)[i] == hs[i].name + ": " + hs[i].line
    decreases |hs|
  {
    if i < |hs| - 1 {
      SerializedHeadersAt(hs[..|hs| - 1], i);
    }
  }

  // ---------------------------------------------------------------------------
  // A raw header block to a mapping
  // ---------------------------------------------------------------------------

  /** `preg_match('/^\S+:/', row) === 1`: a colon is preceded by a non-empty
      run of non-whitespace characters starting at the beginning of the row. */
  predicate IsHeaderRow(row: string)
    ensures IsHeaderRow(row) ==> ':' in row
  {
    exists k :: 1 <= k < |row| && row[k] == ':' && forall j :: 0 <= j < k ==> !IsSpace(row[j])
  }

  /** `substr($row, 0, strpos($row, ':'))` */
  function RowName(row: string): string
    requires ':' in row
  {
    row[..IndexOfColon(row)]
  }

  /** `substr($row, strpos($row, ':') + 1)` */
  function RowValue(row: string): string
    requires ':' in row
  {
    row[IndexOfColon(row) + 1..]
  }

  /** A kept row splits at its first colon: name, colon and value give back the
      row, the name holds neither a colon nor whitespace, and the value keeps
      whatever whitespace follows the colon. */
  lemma HeaderRowSplit(row: string)
    requires IsHeaderRow(row)
    ensures RowName(row) + ":" + RowValue(row) == row
    ensures ':' !in RowName(row)
    ensures forall j :: 0 <= j < |RowName(row)| ==> !IsSpace(RowName(row)[j])
  {
    var c := IndexOfColon(row);
    var k :| 1 <= k < |row| && row[k] == ':' && forall j :: 0 <= j < k ==> !IsSpace(row[j]);
    assert row == row[..c] + [row[c]] + row[c + 1..];
  }

  /** `RowName(row) == name` for a kept row. */
  predicate IsHeaderRowFor(row: string, name: string) {
    IsHeaderRow(row) && RowName(row) == name
  }

  /** The mapping built by the loop over the rows: every kept row assigns its
      value to its name, so a later row overwrites an earlier one. */
  function ParseRows(rows: seq<string>): map<string, string> {
    if rows == [] then map[]
    else
      var before := ParseRows(rows[..|rows| - 1]);
      var row := rows[|rows| - 1];
      if IsHeaderRow(row) then before[RowName(row) := RowValue(row)] else before
  }

  /** `convertHeaderToArray`: split the block at CR LF, then parse the rows. */
  function ParseHeaderBlock(header: string): map<string, string> {
    ParseRows(SplitCrlf(header))
  }

  /** The index of the last kept row named `name`, or -1 if there is none. */
  function LastRowFor(rows: seq<string>, name: string): (i: int)
    ensures -1 <= i < |rows|
    ensures i >= 0 ==> IsHeaderRowFor(rows[i], name)
    ensures forall j :: i < j < |rows| ==> !IsHeaderRowFor(rows[j], name)
  {
    if rows == [] then -1
    else if IsHeaderRowFor(rows[|rows| - 1], name) then |rows| - 1
    else LastRowFor(rows[..|rows| - 1], name)
  }

  /** A name is in the parsed mapping iff some kept row has that name, and its
      value is the value of the LAST such row. */
  lemma {:induction false} ParseRowsLastWins(rows: seq<string>, name: string)
    ensures name in ParseRows(rows) <==> LastRowFor(rows, name) >= 0
    ensures name in ParseRows(rows) ==> ParseRows(rows)[name] == RowValue(rows[LastRowFor(rows, name)])
    decreases |rows|
  {
    if rows != [] {
      var init := rows[..|rows| - 1];
      ParseRowsLastWins(init, name);
      var i := LastRowFor(init, name);
      if i >= 0 {
        assert init[i] == rows[i];
      }
    }
  }

  /** Rows that are not header rows are ignored wherever they stand. */
  lemma {:induction false} ParseRowsSkipsLeading(row: string, rows: seq<string>)
    requires !IsHeaderRow(row)
    ensures ParseRows([row] + rows) == ParseRows(rows)
    decreases |rows|
  {
    if rows != [] {
      ParseRowsSkipsLeading(row, rows[..|rows| - 1]);
      assert ([row] + rows)[..|rows|] == [row] + rows[..|rows| - 1];
    } else {
      assert ParseRows([row]) == ParseRows([]);
    }
  }

  // ---------------------------------------------------------------------------
  // Round trip: serialised headers parse back to their own names
  // ---------------------------------------------------------------------------

  /** A header name that can stand before the colon: non-empty, no colon, no
      whitespace (every HTTP token qualifies). */
  predicate IsTokenName(name: string) {
    name != [] && forall j :: 0 <= j < |name| ==> name[j] != ':' && !IsSpace(name[j])
  }

  /** The set of header names. */
  function Names(hs: seq<HeaderEntry>): set<string> {
    set i | 0 <= i < |hs| :: hs[i].name
  }

  /** Header names that appear once each, as a PSR-7 message keeps them. */
  predicate DistinctNames(hs: seq<HeaderEntry>) {
    forall i, j :: 0 <= i < j < |hs| ==> hs[i].name != hs[j].name
  }

  /** Header lines as they can be sent: token names, no CR LF in a line. */
  predicate Sendable(hs: seq<HeaderEntry>) {
    forall i :: 0 <= i < |hs| ==> IsTokenName(hs[i].name) && !HasCrlf(hs[i].line)
  }

  /** One formatted line is a header row that splits back into its name and
      its line with a leading space, and it holds no CR LF. */
  lemma FormatHeaderParses(h: HeaderEntry)
    requires IsTokenName(h.name) && !HasCrlf(h.line)
    ensures IsHeaderRow(FormatHeader(h))
    ensures RowName(FormatHeader(h)) == h.name
    ensures RowValue(FormatHeader(h)) == " " + h.line
    ensures !HasCrlf(FormatHeader(h))
  {
    var row := FormatHeader(h);
    var n := |h.name|;
    assert row[n] == ':';
    assert forall j :: 0 <= j < n ==> row[j] == h.name[j];
    assert IsHeaderRow(row);
    var c := IndexOfColon(row);
    assert row[n + 1..] == " " + h.line;
    forall i | 0 <= i < |row| - 1 ensures !(row[i] == '\r' && row[i + 1] == '\n') {
      if i >= n + 2 {
        assert row[i] == h.line[i - n - 2] && row[i + 1] == h.line[i - n - 1];
      }
    }
  }

  /** Parsing the serialised list yields every header name with its line,
      prefixed by the space the serialiser put after the colon, and nothing else. */
  lemma ParseSerializedHeaders(hs: seq<HeaderEntry>)
    requires Sendable(hs) && DistinctNames(hs)
    ensures ParseRows(SerializedHeaders(hs)).Keys == Names(hs)
    ensures forall i :: 0 <= i < |hs| ==> ParseRows(SerializedHeaders(hs))[hs[i].name] == " " + hs[i].line
  {
    ParseSerializedKeys(hs);
    ParseSerializedValues(hs);
  }

  /** The parsed serialised list holds exactly the header names. */
  lemma {:induction false} ParseSerializedKeys(hs: seq<HeaderEntry>)
    requires Sendable(hs)
    ensures ParseRows(SerializedHeaders(hs)).Keys == Names(hs)
    decreases |hs|
  {
    if hs != [] {
      var init := hs[..|hs| - 1];
      assert Sendable(init) by {
        forall i | 0 <= i < |init| ensures IsTokenName(init[i].name) && !HasCrlf(init[i].line) {
          assert init[i] == hs[i];
        }
      }
      ParseSerializedKeys(init);
      ParseOneMoreHeader(hs);
      NamesOfInit(hs);
    }
  }

  /** Each header name maps to `" "` followed by its line. */
  lemma {:induction false} ParseSerializedValues(hs: seq<HeaderEntry>)
    requires Sendable(hs) && DistinctNames(hs)
    ensures forall i :: 0 <= i < |hs| ==>
      hs[i].name in ParseRows(SerializedHeaders(hs)) && ParseRows(SerializedHeaders(hs))[hs[i].name] == " " + hs[i].line
    decreases |hs|
  {
    if hs != [] {
      var init := hs[..|hs| - 1];
      var last := hs[|hs| - 1];
      assert hs == init + [last];
      assert Sendable(init) && DistinctNames(init) by {
        forall i | 0 <= i < |init| ensures init[i] == hs[i] { }
      }
      ParseSerializedValues(init);
      ParseOneMoreHeader(hs);
      var before := ParseRows(SerializedHeaders(init));
      forall i | 0 <= i < |init| ensures init[i].name != last.name {
        assert init[i] == hs[i];
      }
      ValuesAfterOneMore(init, last, before);
    }
  }

  /** Values recorded for earlier, distinct names survive the entry for one
      more name. */
  lemma ValuesAfterOneMore(init: seq<HeaderEntry>, last: HeaderEntry, before: map<string, string>)
    requires forall i :: 0 <= i < |init| ==> init[i].name != last.name
    requires forall i :: 0 <= i < |init| ==> init[i].name in before && before[init[i].name] == " " + init[i].line
    ensures forall i :: 0 <= i < |init + [last]| ==>
      (init + [last])[i].name in before[last.name := " " + last.line]
      && before[last.name := " " + last.line][(init + [last])[i].name] == " " + (init + [last])[i].line
  {
    var hs := init + [last];
    forall i | 0 <= i < |hs|
      ensures hs[i].name in before[last.name := " " + last.line]
      ensures before[last.name := " " + last.line][hs[i].name] == " " + hs[i].line
    {
      if i < |init| {
        assert hs[i] == init[i];
      }
    }
  }

  /** One more header adds one more entry to the parsed mapping. */
  lemma ParseOneMoreHeader(hs: seq<HeaderEntry>)
    requires hs != [] && Sendable(hs)
    ensures ParseRows(SerializedHeaders(hs))
      == ParseRows(SerializedHeaders(hs[..|hs| - 1]))[hs[|hs| - 1].name := " " + hs[|hs| - 1].line]
  {
    var last := hs[|hs| - 1];
    FormatHeaderParses(last);
    var rows := SerializedHeaders(hs);
    assert rows[..|rows| - 1] == SerializedHeaders(hs[..|hs| - 1]);
  }

  /** The names of all headers are those of all but the last, and the last. */
  lemma NamesOfInit(hs: seq<HeaderEntry>)
    requires hs != []
    ensures Names(hs) == Names(hs[..|hs| - 1]) + {hs[|hs| - 1].name}
  {
    var init := hs[..|hs| - 1];
    forall x | x in Names(hs) ensures x in Names(init) + {hs[|hs| - 1].name} {
      var i :| 0 <= i < |hs| && hs[i].name == x;
      if i < |init| { assert init[i].name == x; }
    }
    forall x | x in Names(init) ensures x in Names(hs) {
      var i :| 0 <= i < |init| && init[i].name == x;
      assert hs[i].name == x;
    }
  }

  /** The header block a server would send for these headers, after a status
      line that is not itself a header row: the status line and the blank
      terminator are dropped, and every header comes back under its own name. */
  lemma HeaderBlockRoundTrip(statusLine: string, hs: seq<HeaderEntry>)
    requires !IsHeaderRow(statusLine) && !HasCrlf(statusLine)
    requires Sendable(hs) && DistinctNames(hs)
    ensures var m := ParseHeaderBlock(JoinCrlf([statusLine] + SerializedHeaders(hs) + ["", ""]));
      && m.Keys == Names(hs)
      && forall i :: 0 <= i < |hs| ==> m[hs[i].name] == " " + hs[i].line
  {
    var lines := SerializedHeaders(hs);
    BlockParsesToRows(statusLine, lines, hs);
    ParseSerializedHeaders(hs);
  }

  /** The framed block parses as the header lines alone. */
  lemma BlockParsesToRows(statusLine: string, lines: seq<string>, hs: seq<HeaderEntry>)
    requires !IsHeaderRow(statusLine) && !HasCrlf(statusLine)
    requires Sendable(hs) && lines == SerializedHeaders(hs)
    ensures ParseHeaderBlock(JoinCrlf([statusLine] + lines + ["", ""])) == ParseRows(lines)
  {
    var rows := [statusLine] + lines + ["", ""];
    SerializedHeadersHaveNoCrlf(hs);
    FramedRowsHaveNoCrlf(statusLine, lines);
    SplitCrlfOfJoin(rows);
    ParseRowsIgnoresTerminator([statusLine] + lines);
    ParseRowsSkipsLeading(statusLine, lines);
  }

  lemma FramedRowsHaveNoCrlf(statusLine: string, lines: seq<string>)
    requires !HasCrlf(statusLine)
    requires forall i :: 0 <= i < |lines| ==> !HasCrlf(lines[i])
    ensures forall i :: 0 <= i < |[statusLine] + lines + ["", ""]| ==> !HasCrlf(([statusLine] + lines + ["", ""])[i])
  {
    var rows := [statusLine] + lines + ["", ""];
    assert !HasCrlf("");
    forall i | 0 <= i < |rows| ensures !HasCrlf(rows[i]) {
      if 1 <= i <= |lines| { assert rows[i] == lines[i - 1]; }
    }
  }

  lemma SerializedHeadersHaveNoCrlf(hs: seq<HeaderEntry>)
    requires Sendable(hs)
    ensures forall i :: 0 <= i < |hs| ==> !HasCrlf(SerializedHeaders(hs)[i])
  {
    forall i | 0 <= i < |hs| ensures !HasCrlf(SerializedHeaders(hs)[i]) {
      SerializedHeadersAt(hs, i);
      FormatHeaderParses(hs[i]);
    }
  }

  /** The two empty rows that end a header block add nothing. */
  lemma ParseRowsIgnoresTerminator(rows: seq<string>)
    ensures ParseRows(rows + ["", ""]) == ParseRows(rows)
  {
    var all := rows + ["", ""];
    assert !IsHeaderRow("");
    assert all[..|all| - 1] == rows + [""];
    assert (rows + [""])[..|rows|] == rows;
  }

  /** The status line of an HTTP/1.1 response is not mistaken for a header:
      its first space comes before any colon. */
  lemma StatusLineIsNotHeaderRow(version: string, rest: string)
    requires forall j :: 0 <= j < |version| ==> version[j] != ':'
    ensures !IsHeaderRow("HTTP/" + version + " " + rest)
  {
    var row := "HTTP/" + version + " " + rest;
    var sp := 5 + |version|;
    assert IsSpace(row[sp]);
    forall k | 1 <= k < |row| && row[k] == ':'
      ensures exists j :: 0 <= j < k && IsSpace(row[j])
    {
      assert k > sp;
    }
  }
}
