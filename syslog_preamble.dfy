/**
 * The text the converter puts in front of each access-log line: the PRI part, the
 * TIMESTAMP and the HOSTNAME of a BSD syslog message (section 4.1 of RFC 3164),
 * written as "<" PRI ">" TIMESTAMP " " HOSTNAME " ".
 */
module SyslogPreamble {
  import opened Wrappers
  import opened JavaLang
  import opened SyslogTimestamp

  /** `SyslogConstants.ERROR_SEVERITY`: severity 3, "Error", in Table 2 of RFC 3164. */
  const ERROR_SEVERITY: Int32 := 3
  /** Access events carry no severity, so every preamble uses the error severity. */
  const SYSLOG_ACCESS_SEVERITY: Int32 := ERROR_SEVERITY

  /** `int pri = facility + SYSLOG_ACCESS_SEVERITY`, with Java's `int` wrap-around. */
  function Pri(facility: Int32): (pri: Int32)
    ensures facility <= MAX_INT - SYSLOG_ACCESS_SEVERITY ==> pri - SYSLOG_ACCESS_SEVERITY == facility
  {
    AddInt32(facility, SYSLOG_ACCESS_SEVERITY)
  }

  /**
   * For the codes of the 24 facilities of RFC 3164 (facility number times 8), PRI is
   * Facility * 8 + Severity as section 4.1.1 of RFC 3164 asks: a value of at most 191,
   * written in one to three digits, that decodes back to the facility and to severity 3.
   */
  lemma PriOfStandardFacility(k: nat)
    requires k <= 23
    ensures var pri := Pri(8 * k);
      && pri == 8 * k + 3
      && 0 <= pri <= 191
      && pri / 8 == k && pri % 8 == ERROR_SEVERITY
      && 1 <= |IntToString(pri)| <= 3
  {
    var pri := Pri(8 * k);
    assert pri == 8 * k + 3;
    var n := pri;
    if n >= 10 {
      assert NatToString(n) == NatToString(n / 10) + [DigitChar(n % 10)];
      if n / 10 >= 10 {
        assert NatToString(n / 10) == NatToString(n / 100) + [DigitChar(n / 10 % 10)];
        assert n / 100 < 10;
      }
    }
  }

  /** The preamble: `"<" + pri + ">" + timestamp + ' ' + host + ' '` in Java. */
  function Preamble(pri: int, timestamp: string, host: string): (r: string)
    ensures |r| == |IntToString(pri)| + |timestamp| + |host| + 4
    ensures r[0] == '<' && r[|IntToString(pri)| + 1] == '>' && r[|r| - 1] == ' '
  {
    "<" + IntToString(pri) + ">" + timestamp + " " + host + " "
  }

  /** The three fields of a preamble, as `ParsePreamble` reads them. */
  datatype Parts = Parts(pri: int, timestamp: DateFields, host: string)

  /** The position of the first `c` in `s`, if `c` occurs. */
  function IndexOf(s: string, c: char): (r: Option<nat>)
    ensures r.Some? ==> r.value < |s| && s[r.value] == c && c !in s[..r.value]
    ensures r.None? ==> c !in s
  {
    if |s| == 0 then None
    else if s[0] == c then Some(0)
    else match IndexOf(s[1..], c)
      case Some(i) => assert s[1..][..i] == s[1..i + 1]; Some(i + 1)
      case None => None
  }

  /** Reads what follows ">": a 15-character timestamp, a space, then the host up to a final space. */
  function ParseTimestampAndHost(rest: string): Option<(DateFields, string)> {
    if |rest| < 17 || rest[15] != ' ' || rest[|rest| - 1] != ' ' then None
    else match ParseTimestamp(rest[..15])
      case None => None
      case Some(f) => Some((f, rest[16..|rest| - 1]))
  }

  /** Reads a preamble: "<", a decimal PRI up to the first ">", then the timestamp and host. */
  function ParsePreamble(s: string): Option<Parts> {
    if |s| == 0 || s[0] != '<' then None
    else match IndexOf(s, '>')
      case None => None
      case Some(k) =>
        match ParseInt(s[1..k])
        case None => None
        case Some(pri) =>
          match ParseTimestampAndHost(s[k + 1..])
          case None => None
          case Some((f, host)) => Some(Parts(pri, f, host))
  }

  lemma NoBracketInIntToString(i: int)
    ensures '>' !in IntToString(i)
  {
  }

  lemma ParseTimestampAndHostOfText(f: DateFields, host: string)
    ensures ParseTimestampAndHost(FormatTimestamp(f) + " " + host + " ") == Some((f, host))
  {
    var ts := FormatTimestamp(f);
    var rest := ts + " " + host + " ";
    FormatTimestampShape(f);
    assert rest[..15] == ts;
    ParseFormattedTimestamp(f);
    assert rest[16..|rest| - 1] == host;
  }

  lemma TextOfParseTimestampAndHost(rest: string, f: DateFields, host: string)
    requires ParseTimestampAndHost(rest) == Some((f, host))
    ensures rest == FormatTimestamp(f) + " " + host + " "
  {
    FormatParsedTimestamp(rest[..15], f);
    assert rest == rest[..15] + " " + host + " ";
  }

  /** `IndexOf` finds the first occurrence and no other. */
  lemma IndexOfIsFirst(s: string, c: char, k: nat)
    requires k < |s| && s[k] == c && c !in s[..k]
    ensures IndexOf(s, c) == Some(k)
  {
  }

  /** The first ">" of a preamble is the one that closes the PRI part. */
  lemma IndexOfClosingBracket(pri: int, rest: string)
    ensures var s := "<" + IntToString(pri) + ">" + rest;
      IndexOf(s, '>') == Some(|IntToString(pri)| + 1)
  {
    var p := IntToString(pri);
    var s := "<" + p + ">" + rest;
    var k := |p| + 1;
    NoBracketInIntToString(pri);
    assert s[..k] == "<" + p;
    assert '>' !in s[..k];
    IndexOfIsFirst(s, '>', k);
  }

  /** The pieces of "<" + p + ">" + rest at their positions. */
  lemma SplitAtBracket(p: string, rest: string)
    ensures var s := "<" + p + ">" + rest;
      && |s| == |p| + 2 + |rest| && s[0] == '<' && s[|p| + 1] == '>'
      && s[1..|p| + 1] == p && s[|p| + 2..] == rest
  {
    var s := "<" + p + ">" + rest;
    assert s == "<" + (p + (">" + rest));
    forall i | 0 <= i < |p| ensures s[1 + i] == p[i] {}
    forall i | 0 <= i < |rest| ensures s[|p| + 2 + i] == rest[i] {}
  }

  /** How `ParsePreamble` reads a text of the form "<" + IntToString(pri) + ">" + rest. */
  lemma ParsePreambleOfSplit(pri: int, rest: string)
    ensures ParsePreamble("<" + IntToString(pri) + ">" + rest) ==
      match ParseTimestampAndHost(rest)
      case None => None
      case Some((f, host)) => Some(Parts(pri, f, host))
  {
    var p := IntToString(pri);
    SplitAtBracket(p, rest);
    IndexOfClosingBracket(pri, rest);
    ParseIntOfIntToString(pri);
  }

  /** A preamble built from a formatted timestamp reads back as the PRI, fields and host it was built from. */
  lemma ParsePreambleOfPreamble(pri: int, f: DateFields, host: string)
    ensures ParsePreamble(Preamble(pri, FormatTimestamp(f), host)) == Some(Parts(pri, f, host))
  {
    var rest := FormatTimestamp(f) + " " + host + " ";
    PreambleGrouped(pri, FormatTimestamp(f), host);
    ParsePreambleOfSplit(pri, rest);
    ParseTimestampAndHostOfText(f, host);
  }

  /**
   * The preamble of a call that returned a null timestamp, `<pri>null host `, is not
   * a preamble in the RFC 3164 layout: "null" is no timestamp.
   */
  lemma NullTimestampPreambleRejected(pri: int, host: string)
    ensures ParsePreamble(Preamble(pri, JavaStr(None), host)).None?
  {
    var rest := "null" + " " + host + " ";
    PreambleGrouped(pri, "null", host);
    ParsePreambleOfSplit(pri, rest);
    if |rest| >= 17 {
      assert rest[..15][3] == 'l';
    }
  }

  /** What `ParsePreamble` checked of a text it accepts. */
  lemma ParsedPreambleFacts(s: string, parts: Parts) returns (k: nat)
    requires ParsePreamble(s) == Some(parts)
    ensures 1 <= k < |s| && s[0] == '<' && s[k] == '>'
    ensures ParseInt(s[1..k]) == Some(parts.pri)
    ensures ParseTimestampAndHost(s[k + 1..]) == Some((parts.timestamp, parts.host))
  {
    k := IndexOf(s, '>').value;
  }

  lemma PreambleGrouped(pri: int, timestamp: string, host: string)
    ensures Preamble(pri, timestamp, host) == "<" + IntToString(pri) + ">" + (timestamp + " " + host + " ")
  {
  }

  lemma Reassemble(s: string, k: nat)
    requires 1 <= k < |s| && s[0] == '<' && s[k] == '>'
    ensures s == "<" + s[1..k] + ">" + s[k + 1..]
  {
  }

  /** Whatever `ParsePreamble` accepts is exactly the preamble of the parts it reads. */
  lemma PreambleOfParsePreamble(s: string, parts: Parts)
    requires ParsePreamble(s) == Some(parts)
    ensures Preamble(parts.pri, FormatTimestamp(parts.timestamp), parts.host) == s
  {
    var k := ParsedPreambleFacts(s, parts);
    var p, rest := s[1..k], s[k + 1..];
    var ts := FormatTimestamp(parts.timestamp);
    assert IntToString(parts.pri) == p by { IntToStringOfParseInt(p, parts.pri); }
    assert ts + " " + parts.host + " " == rest by {
      TextOfParseTimestampAndHost(rest, parts.timestamp, parts.host);
    }
    assert s == "<" + p + ">" + rest by { Reassemble(s, k); }
    PreambleGrouped(parts.pri, ts, parts.host);
  }

  /** A preamble ends in a space, right after the host name. */
  lemma PreambleEndsInSpace(pri: int, timestamp: string, host: string)
    ensures var s := Preamble(pri, timestamp, host);
      |s| >= 4 && s[0] == '<' && s[|s| - 1] == ' ' && s[|s| - 1 - |host|..|s| - 1] == host
  {
  }
}
