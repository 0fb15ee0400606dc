/** The PHP built-ins the client relies on, on byte strings (one `char` per byte):
    `explode("\r\n", ...)`, `substr`, `strpos(..., ':')`, and the notion of a
    numeric string that PHP 8's loose `==` uses when it compares a string with an int. */
module Php {

  const Crlf: string := "\r\n"

  /** True iff `s` contains the two-byte sequence CR LF somewhere. */
  predicate HasCrlf(s: string) {
    exists i :: 0 <= i < |s| - 1 && s[i] == '\r' && s[i + 1] == '\n'
  }

  // ---------------------------------------------------------------------------
  // explode("\r\n", $s) and its inverse implode("\r\n", $rows)
  // ---------------------------------------------------------------------------

  /** `explode("\r\n", s)`: the pieces between non-overlapping CR LF separators,
      found left to right. The first piece is always a prefix of `s`. */
  function SplitCrlf(s: string): (rows: seq<string>)
    ensures |rows| >= 1
    ensures rows[0] <= s
    decreases |s|
  {
    if |s| == 0 then [""]
    else if |s| >= 2 && s[0] == '\r' && s[1] == '\n' then [""] + SplitCrlf(s[2..])
    else
      var rest := SplitCrlf(s[1..]);
      [[s[0]] + rest[0]] + rest[1..]
  }

  /** `implode("\r\n", rows)`. */
  function JoinCrlf(rows: seq<string>): string {
    if |rows| == 0 then ""
    else if |rows| == 1 then rows[0]
    else rows[0] + Crlf + JoinCrlf(rows[1..])
  }

  /** What follows the first row in the joined string. */
  function JoinAfter(others: seq<string>): string {
    if others == [] then "" else Crlf + JoinCrlf(others)
  }

  /** Joining a first row and further rows: the row, then the rest. */
  lemma JoinCons(first: string, others: seq<string>)
    ensures JoinCrlf([first] + others) == first + JoinAfter(others)
  {
    var rows := [first] + others;
    if others != [] {
      assert rows[1..] == others;
    }
  }

  /** Putting one more character in front of the first row puts it in front
      of the joined string. */
  lemma JoinFirstPiece(c: char, first: string, others: seq<string>)
    ensures JoinCrlf([[c] + first] + others) == [c] + JoinCrlf([first] + others)
  {
    JoinCons([c] + first, others);
    JoinCons(first, others);
  }

  /** The split of a string that starts with the separator. */
  lemma SplitCrlfAtSeparator(t: string)
    ensures SplitCrlf(Crlf + t) == [""] + SplitCrlf(t)
  {
    assert (Crlf + t)[2..] == t;
  }

  /** The split of a string that does not start with the separator: its first
      character joins the first piece of the rest. */
  lemma SplitCrlfAtChar(c: char, t: string)
    requires !(c == '\r' && |t| >= 1 && t[0] == '\n')
    ensures SplitCrlf([c] + t) == [[c] + SplitCrlf(t)[0]] + SplitCrlf(t)[1..]
  {
    assert ([c] + t)[1..] == t;
  }

  /** A non-empty sequence is its head followed by its tail. */
  lemma HeadTail(rows: seq<string>)
    requires |rows| >= 1
    ensures rows == [rows[0]] + rows[1..]
  {
  }

  /** Splitting loses nothing: joining the pieces again gives back the input. */
  lemma {:induction false} JoinSplitCrlf(s: string)
    ensures JoinCrlf(SplitCrlf(s)) == s
    decreases |s|
  {
    if |s| == 0 {
    } else if |s| >= 2 && s[0] == '\r' && s[1] == '\n' {
      var t := s[2..];
      assert s == Crlf + t;
      JoinSplitCrlf(t);
      JoinSplitAtSeparator(t);
    } else {
      var t := s[1..];
      assert s == [s[0]] + t;
      JoinSplitCrlf(t);
      JoinSplitAtChar(s[0], t);
    }
  }

  /** The inductive step of `JoinSplitCrlf` for a leading separator. */
  lemma JoinSplitAtSeparator(t: string)
    requires JoinCrlf(SplitCrlf(t)) == t
    ensures JoinCrlf(SplitCrlf(Crlf + t)) == Crlf + t
  {
    var rows := SplitCrlf(t);
    SplitCrlfAtSeparator(t);
    JoinCons("", rows);
    assert JoinAfter(rows) == Crlf + t;
    assert "" + (Crlf + t) == Crlf + t;
  }

  /** The inductive step of `JoinSplitCrlf` for a leading ordinary character. */
  lemma JoinSplitAtChar(c: char, t: string)
    requires !(c == '\r' && |t| >= 1 && t[0] == '\n')
    requires JoinCrlf(SplitCrlf(t)) == t
    ensures JoinCrlf(SplitCrlf([c] + t)) == [c] + t
  {
    SplitCrlfAtChar(c, t);
    var rest := SplitCrlf(t);
    JoinFirstPiece(c, rest[0], rest[1..]);
    HeadTail(rest);
  }

  /** No piece produced by the split contains a CR LF separator. */
  lemma {:induction false} SplitCrlfPiecesHaveNoCrlf(s: string)
    ensures forall i :: 0 <= i < |SplitCrlf(s)| ==> !HasCrlf(SplitCrlf(s)[i])
    decreases |s|
  {
    if |s| == 0 {
      assert !HasCrlf("");
    } else if |s| >= 2 && s[0] == '\r' && s[1] == '\n' {
      SplitCrlfPiecesHaveNoCrlf(s[2..]);
      assert !HasCrlf("");
      assert SplitCrlf(s)[1..] == SplitCrlf(s[2..]);
    } else {
      var rest := SplitCrlf(s[1..]);
      SplitCrlfPiecesHaveNoCrlf(s[1..]);
      var first := [s[0]] + rest[0];
      forall j | 0 <= j < |first| - 1
        ensures !(first[j] == '\r' && first[j + 1] == '\n')
      {
        if j == 0 {
          assert rest[0] <= s[1..];
          assert first[1] == s[1];
        } else {
          assert first[j] == rest[0][j - 1] && first[j + 1] == rest[0][j];
        }
      }
      assert SplitCrlf(s) == [first] + rest[1..];
    }
  }

  /** A string without CR LF is not split at all. */
  lemma {:induction false} SplitCrlfOfPlain(a: string)
    requires !HasCrlf(a)
    ensures SplitCrlf(a) == [a]
    decreases |a|
  {
    if |a| > 0 {
      assert !(a[0] == '\r' && |a| >= 2 && a[1] == '\n');
      assert !HasCrlf(a[1..]) by {
        forall i | 0 <= i < |a[1..]| - 1 ensures !(a[1..][i] == '\r' && a[1..][i + 1] == '\n') {
          assert a[1..][i] == a[i + 1] && a[1..][i + 1] == a[i + 2];
        }
      }
      SplitCrlfOfPlain(a[1..]);
      assert a == [a[0]] + a[1..];
    }
  }

  /** A CR LF-free piece followed by the separator splits off as one row. */
  lemma {:induction false} SplitCrlfAfterPiece(a: string, rest: string)
    requires !HasCrlf(a)
    ensures SplitCrlf(a + Crlf + rest) == [a] + SplitCrlf(rest)
    decreases |a|
  {
    if |a| == 0 {
      assert a + Crlf + rest == Crlf + rest;
      SplitCrlfAtSeparator(rest);
    } else {
      var t := a[1..] + Crlf + rest;
      assert a + Crlf + rest == [a[0]] + t;
      assert t[0] == (if |a| >= 2 then a[1] else '\r');
      NoCrlfInTail(a);
      SplitCrlfAfterPiece(a[1..], rest);
      SplitCrlfAtChar(a[0], t);
      assert a == [a[0]] + a[1..];
    }
  }

  /** Dropping the first character of a CR LF-free string keeps it CR LF-free. */
  lemma NoCrlfInTail(a: string)
    requires |a| > 0 && !HasCrlf(a)
    ensures !HasCrlf(a[1..])
  {
    forall i | 0 <= i < |a[1..]| - 1 ensures !(a[1..][i] == '\r' && a[1..][i + 1] == '\n') {
      assert a[1..][i] == a[i + 1] && a[1..][i + 1] == a[i + 2];
    }
  }

  /** Joining CR LF-free rows and splitting again gives back exactly those rows. */
  lemma {:induction false} SplitCrlfOfJoin(rows: seq<string>)
    requires |rows| >= 1
    requires forall i :: 0 <= i < |rows| ==> !HasCrlf(rows[i])
    ensures SplitCrlf(JoinCrlf(rows)) == rows
    decreases |rows|
  {
    if |rows| == 1 {
      SplitCrlfOfPlain(rows[0]);
    } else {
      SplitCrlfOfJoin(rows[1..]);
      SplitCrlfAfterPiece(rows[0], JoinCrlf(rows[1..]));
      assert rows == [rows[0]] + rows[1..];
    }
  }

  // ---------------------------------------------------------------------------
  // substr and strpos
  // ---------------------------------------------------------------------------

  function Min(a: int, b: int): int { if a < b then a else b }

  /** `substr(s, 0, n)` for a non-negative length (PHP 8): at most the first `n` bytes. */
  function Prefix(s: string, n: nat): (r: string)
    ensures r <= s
    ensures |r| == Min(n, |s|)
  {
    if n < |s| then s[..n] else s
  }

  /** `substr(s, n)` for a non-negative offset (PHP 8): what follows the first `n`
      bytes, the empty string when `n` is past the end. */
  function Suffix(s: string, n: nat): (r: string)
    ensures Prefix(s, n) + r == s
  {
    if n < |s| then s[n..] else ""
  }

  /** `strpos(row, ':')` when the row holds a colon: the index of its first colon. */
  function IndexOfColon(row: string): (i: nat)
    requires ':' in row
    ensures i < |row| && row[i] == ':'
    ensures ':' !in row[..i]
  {
    if row[0] == ':' then 0
    else
      assert ':' in row[1..] by {
        var k :| 0 <= k < |row| && row[k] == ':';
        assert row[1..][k - 1] == ':';
      }
      var j := IndexOfColon(row[1..]);
      assert row[..j + 1] == [row[0]] + row[1..][..j];
      j + 1
  }

  // ---------------------------------------------------------------------------
  // Character classes
  // ---------------------------------------------------------------------------

  /** The characters PCRE's `\s` matches in a byte-mode pattern: space, TAB, LF,
      VT, FF and CR. PHP 8 accepts the same set around numeric strings. */
  predicate IsSpace(c: char) {
    c == ' ' || c == '\t' || c == '\n' || c == '\U{000B}' || c == '\U{000C}' || c == '\r'
  }

  predicate IsDigit(c: char) { '0' <= c <= '9' }

  predicate AllDigits(s: string) { forall i :: 0 <= i < |s| ==> IsDigit(s[i]) }

  // ---------------------------------------------------------------------------
  // Numeric strings (PHP 8) compared loosely with an int
  // ---------------------------------------------------------------------------

  function DigitsValue(ds: string): nat
    requires AllDigits(ds)
  {
    if ds == [] then 0
    else DigitsValue(ds[..|ds| - 1]) * 10 + (ds[|ds| - 1] as int - '0' as int)
  }

  function TrimLeadingSpace(s: string): string {
    if |s| > 0 && IsSpace(s[0]) then TrimLeadingSpace(s[1..]) else s
  }

  function TrimTrailingSpace(s: string): string {
    if |s| > 0 && IsSpace(s[|s| - 1]) then TrimTrailingSpace(s[..|s| - 1]) else s
  }

  /** Index of the first '.', or |s| if there is none. */
  function IndexOfDot(s: string): (i: nat)
    ensures i <= |s|
  {
    if s == [] then 0 else if s[0] == '.' then 0 else 1 + IndexOfDot(s[1..])
  }

  /** `s == n` under PHP 8's loose comparison of a string with an int: `s` is a
      numeric string (surrounding whitespace, an optional sign, digits with an
      optional decimal point and at least one digit) whose value is `n`.
      Otherwise PHP 8 compares `s` with the decimal text of `n`; for the
      non-numeric strings that never holds. */
  predicate LooselyEqualsInt(s: string, n: int) {
    var t := TrimTrailingSpace(TrimLeadingSpace(s));
    var negative := |t| > 0 && t[0] == '-';
    var unsigned := if |t| > 0 && (t[0] == '+' || t[0] == '-') then t[1..] else t;
    var dot := IndexOfDot(unsigned);
    var whole := unsigned[..dot];
    var fraction := if dot < |unsigned| then unsigned[dot + 1..] else "";
    && AllDigits(whole) && AllDigits(fraction)
    && |whole| + |fraction| > 0
    && DigitsValue(fraction) == 0
    && (if negative then 0 - DigitsValue(whole) as int else DigitsValue(whole) as int) == n
  }
}
