/** `MessageFactory::getHttpVersion`: the protocol-version label for what the
    caller passes as version, which may be one of curl's HTTP version
    constants, a label already, or null. */
module Factory {
  import opened Php
  import opened Curl

  // HttpVersion labels.
  const Version10: string := "1.0"
  const Version11: string := "1.1"
  const Version20: string := "2.0"

  /** The `string|int|null` argument. */
  datatype VersionArg = NoVersion | IntVersion(n: int) | StrVersion(s: string)

  /** PHP 8's `version == n` for an int constant `n`, as `switch` compares:
      null is compared as a boolean, an int numerically, a string numerically
      when it is a numeric string. */
  predicate LooselyEquals(version: VersionArg, n: int) {
    match version
    case NoVersion => n == 0
    case IntVersion(i) => i == n
    case StrVersion(s) => LooselyEqualsInt(s, n)
  }

  /** The method as written: a loose `switch`, so a numeric string such as
      "2.0" matches the int constant 2 (CURL_HTTP_VERSION_1_1). */
  function GetHttpVersionAsWritten(version: VersionArg): (result: string)
    ensures version == IntVersion(HttpVersion10) ==> result == "1.0"
    ensures version == IntVersion(HttpVersion11) ==> result == "1.1"
    ensures version == IntVersion(HttpVersion20) ==> result == "2.0"
    ensures version == NoVersion ==> result == "1.1"
    ensures version.IntVersion? && version.n !in {HttpVersion10, HttpVersion11, HttpVersion20} ==> result == "1.1"
    ensures version.StrVersion? && LooselyEqualsInt(version.s, HttpVersion10) ==> result == "1.0"
    ensures version.StrVersion? && LooselyEqualsInt(version.s, HttpVersion11) ==> result == "1.1"
    ensures version.StrVersion? && LooselyEqualsInt(version.s, HttpVersion20) ==> result == "2.0"
    ensures version.StrVersion? && (forall n | n in {HttpVersion10, HttpVersion11, HttpVersion20} :: !LooselyEqualsInt(version.s, n))
      ==> result == version.s
  {
    if LooselyEquals(version, HttpVersion10) then Version10
    else if LooselyEquals(version, HttpVersion11) then Version11
    else if LooselyEquals(version, HttpVersion20) then Version20
    else if version.StrVersion? then version.s
    else Version11
  }

  /** The evidently intended mapping: curl's three constants to their labels,
      a string unchanged, anything else (null, another int) to "1.1". */
  function GetHttpVersion(version: VersionArg): (result: string)
    ensures version == IntVersion(HttpVersion10) ==> result == "1.0"
    ensures version == IntVersion(HttpVersion11) ==> result == "1.1"
    ensures version == IntVersion(HttpVersion20) ==> result == "2.0"
    ensures version.StrVersion? ==> result == version.s
    ensures version == NoVersion ==> result == "1.1"
    ensures version.IntVersion? && version.n !in {HttpVersion10, HttpVersion11, HttpVersion20} ==> result == "1.1"
  {
    match version
    case IntVersion(n) =>
      if n == HttpVersion10 then Version10
      else if n == HttpVersion11 then Version11
      else if n == HttpVersion20 then Version20
      else Version11
    case StrVersion(s) => s
    case NoVersion => Version11
  }

  /** Every label is one of the three versions, or the string passed in. */
  lemma GetHttpVersionRange(version: VersionArg)
    ensures GetHttpVersion(version) in {"1.0", "1.1", "2.0"}
      || (version.StrVersion? && GetHttpVersion(version) == version.s)
    ensures GetHttpVersionAsWritten(version) in {"1.0", "1.1", "2.0"}
      || (version.StrVersion? && GetHttpVersionAsWritten(version) == version.s)
  {
  }

  /** The two agree except on strings PHP reads as the numbers 1, 2 or 3. */
  lemma AsWrittenAgreesOffNumericStrings(version: VersionArg)
    requires !(version.StrVersion? && exists n | n in {HttpVersion10, HttpVersion11, HttpVersion20} :: LooselyEqualsInt(version.s, n))
    ensures GetHttpVersionAsWritten(version) == GetHttpVersion(version)
  {
  }

  /** The version string "2.0" comes back as "1.1" from the method as written,
      while the intended mapping passes it through. */
  lemma AsWrittenMapsTwoPointZeroToOnePointOne()
    ensures GetHttpVersionAsWritten(StrVersion("2.0")) == "1.1"
    ensures GetHttpVersion(StrVersion("2.0")) == "2.0"
  {
    var s := "2.0";
    assert TrimLeadingSpace(s) == s;
    assert TrimTrailingSpace(s) == s;
    assert IndexOfDot(s) == 1 by {
      assert s[1..] == ".0";
      assert IndexOfDot(".0") == 0;
    }
    assert s[..1] == "2" && s[2..] == "0";
    assert DigitsValue("2") == 2 by { assert "2"[..0] == ""; }
    assert DigitsValue("0") == 0 by { assert "0"[..0] == ""; }
    assert !LooselyEqualsInt(s, HttpVersion10);
    assert LooselyEqualsInt(s, HttpVersion11);
  }
}
