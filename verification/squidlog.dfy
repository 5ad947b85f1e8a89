/**
 * `LogEntry::parse`: one line of squid's access log, split on runs of
 * whitespace, with the first eleven tokens filling the entry's fields in a
 * fixed order. The date format `%Y-%m-%dT%H:%M:%S%.3f%z` is read by
 * `parseDate`, an uninterpreted partial function to UTC milliseconds.
 */
module SquidLog {
  import opened Wrappers
  import opened Text

  const U64_MAX: int := 0xFFFF_FFFF_FFFF_FFFF

  datatype LogEntry = LogEntry(
    date: int,
    responseTimeMillis: nat,
    clientIp: string,
    clientFqdn: string,
    statusCode: string,
    requestSizeBytes: nat,
    requestMethod: string,
    requestUrl: string,
    username: string,
    peerFqdn: string,
    mimeType: string)

  /** Why a line was refused: a missing field, an unreadable date or an unreadable integer. */
  datatype LogError = Missing(field: string) | BadDate(token: string) | BadInteger(token: string)

  /** The names the "Missing …" errors use, field by field ("client_up" is the source's spelling). */
  const Labels: seq<string> := [
    "date", "response_time_millis", "client_up", "client_fqdn", "status_code",
    "request_size_bytes", "request_method", "request_url", "username", "peer_fqdn", "mime_type"]

  function Message(e: LogError): string
    requires e.Missing?
  {
    "Missing " + e.field
  }

  /** Rust's `str::parse::<u64>`: an optional '+', then at least one decimal digit, within range. */
  function ParseU64(s: string): (r: Option<nat>)
    ensures r.Some? ==> r.value <= U64_MAX
    ensures |s| == 0 || s[0] == '-' ==> r.None?
    ensures r.Some? <==> (|s| > 0 && AllDigits(s) && DigitsValue(s) <= U64_MAX)
                         || (|s| > 1 && s[0] == '+' && AllDigits(s[1..]) && DigitsValue(s[1..]) <= U64_MAX)
    ensures r.Some? && s[0] != '+' ==> r.value == DigitsValue(s)
    ensures r.Some? && s[0] == '+' ==> r.value == DigitsValue(s[1..])
  {
    var digits := if |s| > 1 && s[0] == '+' then s[1..] else s;
    if |digits| > 0 && AllDigits(digits) && DigitsValue(digits) <= U64_MAX then Some(DigitsValue(digits)) else None
  }

  /** Every u64 printed in decimal, with or without a '+', parses back to itself. */
  lemma ParseU64RoundTrip(n: nat)
    requires n <= U64_MAX
    ensures ParseU64(Decimal(n)) == Some(n)
    ensures ParseU64("+" + Decimal(n)) == Some(n)
  {
    DecimalRoundTrip(n);
    assert ("+" + Decimal(n))[1..] == Decimal(n);
  }

  /** Leading zeros are accepted: "007" reads as 7. */
  lemma ParseU64LeadingZeros(z: nat, n: nat)
    requires n <= U64_MAX
    ensures ParseU64(Repeat('0', z) + Decimal(n)) == Some(n)
  {
    DecimalRoundTrip(n);
    LeadingZeros(z, Decimal(n));
    assert |Repeat('0', z) + Decimal(n)| > 0;
    assert (Repeat('0', z) + Decimal(n))[0] != '+';
  }

  /** Any character that is not a digit, other than a '+' in front, makes the text unreadable. */
  lemma ParseU64RejectsNonDigit(s: string, i: nat)
    requires i < |s| && !IsDigit(s[i]) && !(i == 0 && s[i] == '+')
    ensures ParseU64(s) == None
  {
    if |s| > 1 && s[0] == '+' {
      assert s[1..][i - 1] == s[i];
    }
  }

  /** `LogEntry::parse`; the checks happen in field order, so the first failure is reported. */
  function Parse(line: string, parseDate: string -> Option<int>): Result<LogEntry, LogError>
  {
    var t := SplitWhitespace(line);
    if |t| < 1 then Err(Missing(Labels[0]))
    else if parseDate(t[0]).None? then Err(BadDate(t[0]))
    else if |t| < 2 then Err(Missing(Labels[1]))
    else if ParseU64(t[1]).None? then Err(BadInteger(t[1]))
    else if |t| < 6 then Err(Missing(Labels[|t|]))
    else if ParseU64(t[5]).None? then Err(BadInteger(t[5]))
    else if |t| < 11 then Err(Missing(Labels[|t|]))
    else Ok(LogEntry(parseDate(t[0]).value, ParseU64(t[1]).value, t[2], t[3], t[4],
                     ParseU64(t[5]).value, t[6], t[7], t[8], t[9], t[10]))
  }

  /**
   * A line parses iff it has at least eleven tokens, the first is a date and
   * the second and sixth are u64s.
   */
  lemma ParseOkIff(line: string, parseDate: string -> Option<int>)
    ensures var t := SplitWhitespace(line);
      Parse(line, parseDate).Ok? <==>
        |t| >= 11 && parseDate(t[0]).Some? && ParseU64(t[1]).Some? && ParseU64(t[5]).Some?
  {
  }

  /** The fields of a parsed entry are the first eleven tokens, in order, the three numbers read. */
  lemma ParseFields(line: string, parseDate: string -> Option<int>)
    requires Parse(line, parseDate).Ok?
    ensures var t := SplitWhitespace(line);
      var e := Parse(line, parseDate).value;
      && |t| >= 11
      && Some(e.date) == parseDate(t[0])
      && Some(e.responseTimeMillis) == ParseU64(t[1])
      && e.clientIp == t[2] && e.clientFqdn == t[3] && e.statusCode == t[4]
      && Some(e.requestSizeBytes) == ParseU64(t[5])
      && e.requestMethod == t[6] && e.requestUrl == t[7] && e.username == t[8]
      && e.peerFqdn == t[9] && e.mimeType == t[10]
  {
  }

  /**
   * With fewer than eleven tokens, all of which read correctly, the error
   * names the first missing field.
   */
  lemma ShortLineNamesMissingField(line: string, parseDate: string -> Option<int>)
    requires var t := SplitWhitespace(line);
      && |t| < 11
      && (|t| > 0 ==> parseDate(t[0]).Some?)
      && (|t| > 1 ==> ParseU64(t[1]).Some?)
      && (|t| > 5 ==> ParseU64(t[5]).Some?)
    ensures Parse(line, parseDate) == Err(Missing(Labels[|SplitWhitespace(line)|]))
    ensures Message(Parse(line, parseDate).error) == "Missing " + Labels[|SplitWhitespace(line)|]
  {
  }

  /** Tokens after the eleventh are ignored. */
  lemma ExtraTokensIgnored(line: string, sep: char, extra: string, parseDate: string -> Option<int>)
    requires IsWhitespace(sep) && |SplitWhitespace(line)| >= 11
    ensures Parse(line + [sep] + extra, parseDate) == Parse(line, parseDate)
  {
    SplitAppend(line, sep, extra);
    var t := SplitWhitespace(line);
    var t' := SplitWhitespace(line + [sep] + extra);
    assert t'[..11] == t[..11];
    assert forall i :: 0 <= i < 11 ==> t'[i] == t[i];
  }

  const SampleDate: string := "2023-10-04T00:14:09.000-0700"

  const SampleRest: seq<string> := [
    "1374", "192.168.1.224", "192.168.1.224", "TCP_TUNNEL/200", "10630", "CONNECT",
    "weather-data.apple.com:443", "-", "HIER_DIRECT/weather-data.apple.com", "-"]

  /** The log line of the source's unit test: the date, three spaces, then ten single-spaced fields. */
  const SampleLine: string := SampleDate + ("   " + Join(SampleRest, " "))

  /** A token, some whitespace, then whitespace-free tokens joined by one whitespace character. */
  lemma SplitPadded(first: string, pad: string, rest: seq<string>, sep: char)
    requires IsToken(first) && |pad| > 0 && IsWhitespace(sep)
    requires forall i :: 0 <= i < |pad| ==> IsWhitespace(pad[i])
    requires forall k :: 0 <= k < |rest| ==> IsToken(rest[k])
    ensures SplitWhitespace(first + (pad + Join(rest, [sep]))) == [first] + rest
  {
    var tail := Join(rest, [sep]);
    assert (pad + tail)[0] == pad[0];
    SplitTokenBefore(first, pad + tail);
    SplitSkipsWhitespace(pad, tail);
    SplitJoinRoundTrip(rest, sep);
  }

  lemma SampleDateIsToken()
    ensures IsToken(SampleDate)
  {
    VisibleIsToken(SampleDate);
  }

  lemma SampleRestAreTokens()
    ensures forall k :: 0 <= k < |SampleRest| ==> IsToken(SampleRest[k])
  {
    forall k | 0 <= k < |SampleRest|
      ensures IsToken(SampleRest[k])
    {
      VisibleIsToken(SampleRest[k]);
    }
  }

  lemma SampleTokens()
    ensures SplitWhitespace(SampleLine) == [SampleDate] + SampleRest
  {
    SampleDateIsToken();
    SampleRestAreTokens();
    SplitPadded(SampleDate, "   ", SampleRest, ' ');
  }

  lemma SampleNumbers()
    ensures ParseU64(SampleRest[0]) == Some(1374)
    ensures ParseU64(SampleRest[4]) == Some(10630)
  {
    assert Decimal(1374) == SampleRest[0];
    assert Decimal(10630) == SampleRest[4];
    ParseU64RoundTrip(1374);
    ParseU64RoundTrip(10630);
  }

  /**
   * The sample line from the source's test parses to the expected entry
   * (2023-10-04T07:14:09Z is 1696403649000 ms), including the "-" username
   * and mime type.
   */
  lemma SampleLineParses(parseDate: string -> Option<int>)
    requires parseDate(SampleDate) == Some(1696403649000)
    ensures Parse(SampleLine, parseDate) == Ok(LogEntry(
      1696403649000, 1374, "192.168.1.224", "192.168.1.224", "TCP_TUNNEL/200",
      10630, "CONNECT", "weather-data.apple.com:443", "-", "HIER_DIRECT/weather-data.apple.com", "-"))
  {
    SampleTokens();
    SampleNumbers();
    ParseElevenTokens(SampleLine, parseDate, SampleDate, SampleRest);
  }

  /** A line of a date and ten more tokens, the numbers readable, parses to those tokens. */
  lemma ParseElevenTokens(line: string, parseDate: string -> Option<int>, date: string, rest: seq<string>)
    requires SplitWhitespace(line) == [date] + rest && |rest| == 10
    requires parseDate(date).Some? && ParseU64(rest[0]).Some? && ParseU64(rest[4]).Some?
    ensures Parse(line, parseDate) == Ok(LogEntry(parseDate(date).value, ParseU64(rest[0]).value,
      rest[1], rest[2], rest[3], ParseU64(rest[4]).value, rest[5], rest[6], rest[7], rest[8], rest[9]))
  {
  }
}
