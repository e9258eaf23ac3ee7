/**
 * The TIMESTAMP field of a BSD syslog message (section 4.1.2 of RFC 3164), as the
 * converter writes it with `String.format("%s %2d %s", month, day, time)`: the English
 * month abbreviation (`SimpleDateFormat("MMM", Locale.US)`), the day of the month
 * space-padded to width 2 (`%2d`), and the time as `HH:mm:ss` on the 24-hour clock.
 * The conversion of milliseconds to calendar fields is not modelled here; it arrives
 * as a `DateFields` value.
 */
module SyslogTimestamp {
  import opened Wrappers
  import opened JavaLang

  datatype Month = Jan | Feb | Mar | Apr | May | Jun | Jul | Aug | Sep | Oct | Nov | Dec

  type DayOfMonth = d: int | 1 <= d <= 31 witness 1
  type Hour = h: int | 0 <= h <= 23
  type Sixty = m: int | 0 <= m <= 59

  /** The local-time fields the formatters read for one instant. */
  datatype DateFields = DateFields(month: Month, day: DayOfMonth, hour: Hour, minute: Sixty, second: Sixty)

  /** `SimpleDateFormat("MMM", Locale.US)`: the three-letter English month name. */
  function MonthAbbrev(m: Month): (s: string)
    ensures |s| == 3
  {
    match m
    case Jan => "Jan" case Feb => "Feb" case Mar => "Mar" case Apr => "Apr"
    case May => "May" case Jun => "Jun" case Jul => "Jul" case Aug => "Aug"
    case Sep => "Sep" case Oct => "Oct" case Nov => "Nov" case Dec => "Dec"
  }

  /** The month whose abbreviation is `s`, if there is one. */
  function MonthOfAbbrev(s: string): (r: Option<Month>)
    ensures r.Some? ==> MonthAbbrev(r.value) == s
  {
    if s == "Jan" then Some(Jan) else if s == "Feb" then Some(Feb)
    else if s == "Mar" then Some(Mar) else if s == "Apr" then Some(Apr)
    else if s == "May" then Some(May) else if s == "Jun" then Some(Jun)
    else if s == "Jul" then Some(Jul) else if s == "Aug" then Some(Aug)
    else if s == "Sep" then Some(Sep) else if s == "Oct" then Some(Oct)
    else if s == "Nov" then Some(Nov) else if s == "Dec" then Some(Dec)
    else None
  }

  lemma MonthOfAbbrevRoundTrip(m: Month)
    ensures MonthOfAbbrev(MonthAbbrev(m)) == Some(m)
  {
  }

  /** `s` preceded by as many copies of `c` as it takes to reach `width` characters. */
  function PadLeft(s: string, width: nat, c: char): (r: string)
    ensures |r| == if |s| >= width then |s| else width
    ensures r[|r| - |s|..] == s
    ensures forall i :: 0 <= i < |r| - |s| ==> r[i] == c
  {
    if |s| >= width then s else seq(width - |s|, _ => c) + s
  }

  /** The decimal numeral of a number below 100 as digit characters. */
  lemma NatToStringBelow100(n: nat)
    requires n < 100
    ensures n < 10 ==> NatToString(n) == [DigitChar(n)]
    ensures n >= 10 ==> NatToString(n) == [DigitChar(n / 10), DigitChar(n % 10)]
  {
    if n >= 10 {
      assert NatToString(n) == NatToString(n / 10) + [DigitChar(n % 10)];
      assert NatToString(n / 10) == [DigitChar(n / 10)];
    }
  }

  /** `%2d` on a day of the month: one digit is preceded by a space, two digits stand alone. */
  function SpacePad2(d: DayOfMonth): (r: string)
    ensures |r| == 2
  {
    if d < 10 then [' ', DigitChar(d)] else [DigitChar(d / 10), DigitChar(d % 10)]
  }

  /** A two-digit field of `HH:mm:ss`, zero-padded. */
  function ZeroPad2(n: nat): (r: string)
    requires n < 100
    ensures |r| == 2
  {
    [DigitChar(n / 10), DigitChar(n % 10)]
  }

  /** `%2d` is the decimal numeral padded on the left with spaces to width 2. */
  lemma SpacePad2IsPaddedNumeral(d: DayOfMonth)
    ensures SpacePad2(d) == PadLeft(NatToString(d), 2, ' ')
    ensures |NatToString(d)| <= 2
  {
    NatToStringBelow100(d);
    if d >= 10 {
      assert NatToString(d) == [DigitChar(d / 10), DigitChar(d % 10)];
      assert PadLeft(NatToString(d), 2, ' ') == NatToString(d);
    } else {
      assert NatToString(d) == [DigitChar(d)];
    }
  }

  /** The two-digit `HH`, `mm` and `ss` fields are the numeral padded on the left with zeros to width 2. */
  lemma ZeroPad2IsPaddedNumeral(n: nat)
    requires n < 100
    ensures ZeroPad2(n) == PadLeft(NatToString(n), 2, '0')
    ensures |NatToString(n)| <= 2
  {
    NatToStringBelow100(n);
    if n >= 10 {
      assert NatToString(n) == [DigitChar(n / 10), DigitChar(n % 10)];
      assert PadLeft(NatToString(n), 2, '0') == NatToString(n);
    } else {
      assert NatToString(n) == [DigitChar(n)];
    }
  }

  /** `SimpleDateFormat("HH:mm:ss", Locale.US)`. */
  function TimeOfDay(f: DateFields): (r: string)
    ensures |r| == 8 && r[2] == ':' && r[5] == ':'
  {
    ZeroPad2(f.hour) + ":" + ZeroPad2(f.minute) + ":" + ZeroPad2(f.second)
  }

  /** The text the converter writes for one instant: `"%s %2d %s"` of month, day and time. */
  function FormatTimestamp(f: DateFields): (r: string)
    ensures |r| == 15 && r[3] == ' ' && r[6] == ' ' && r[9] == ':' && r[12] == ':'
  {
    MonthAbbrev(f.month) + " " + SpacePad2(f.day) + " " + TimeOfDay(f)
  }

  /** The value of two digit characters read as a decimal number. */
  function TwoDigits(a: char, b: char): Option<nat> {
    if IsDigit(a) && IsDigit(b) then Some(DigitValue(a) * 10 + DigitValue(b)) else None
  }

  /** Reads the day field: a space and a digit 1-9, or two digits making 10-31. */
  function ParseDay(a: char, b: char): Option<DayOfMonth> {
    if a == ' ' then
      if IsDigit(b) && DigitValue(b) >= 1 then Some(DigitValue(b)) else None
    else
      match TwoDigits(a, b)
      case Some(v) => if 10 <= v <= 31 then Some(v) else None
      case None => None
  }

  /** Reads a two-digit field no larger than `max`. */
  function ParseField(a: char, b: char, max: nat): (r: Option<nat>)
    ensures r.Some? ==> r.value <= max
  {
    match TwoDigits(a, b)
    case Some(v) => if v <= max then Some(v) else None
    case None => None
  }

  /** Reads a timestamp in exactly the shape `FormatTimestamp` writes, and rejects anything else. */
  function ParseTimestamp(s: string): Option<DateFields> {
    if |s| != 15 || s[3] != ' ' || s[6] != ' ' || s[9] != ':' || s[12] != ':' then None
    else
      var month := MonthOfAbbrev(s[..3]);
      var day := ParseDay(s[4], s[5]);
      var hour := ParseField(s[7], s[8], 23);
      var minute := ParseField(s[10], s[11], 59);
      var second := ParseField(s[13], s[14], 59);
      if month.Some? && day.Some? && hour.Some? && minute.Some? && second.Some? then
        Some(DateFields(month.value, day.value, hour.value, minute.value, second.value))
      else None
  }

  /** Every formatted timestamp is 15 characters in the fixed `Mmm dd HH:mm:ss` layout. */
  lemma FormatTimestampShape(f: DateFields)
    ensures var s := FormatTimestamp(f);
      && |s| == 15
      && s[..3] == MonthAbbrev(f.month)
      && s[3] == ' ' && s[6] == ' ' && s[9] == ':' && s[12] == ':'
      && s[4..6] == SpacePad2(f.day)
      && s[7..9] == ZeroPad2(f.hour) && s[10..12] == ZeroPad2(f.minute) && s[13..] == ZeroPad2(f.second)
  {
  }

  lemma TwoDigitsOfZeroPad2(n: nat)
    requires n < 100
    ensures var r := ZeroPad2(n); TwoDigits(r[0], r[1]) == Some(n)
  {
  }

  lemma ParseDayOfSpacePad2(d: DayOfMonth)
    ensures var r := SpacePad2(d); ParseDay(r[0], r[1]) == Some(d)
  {
  }

  /** Reading a formatted timestamp gives back the fields it was written from. */
  lemma ParseFormattedTimestamp(f: DateFields)
    ensures ParseTimestamp(FormatTimestamp(f)) == Some(f)
  {
    var s := FormatTimestamp(f);
    FormatTimestampShape(f);
    MonthOfAbbrevRoundTrip(f.month);
    ParseDayOfSpacePad2(f.day);
    TwoDigitsOfZeroPad2(f.hour);
    TwoDigitsOfZeroPad2(f.minute);
    TwoDigitsOfZeroPad2(f.second);
    assert s[4] == SpacePad2(f.day)[0] && s[5] == SpacePad2(f.day)[1];
    assert s[7] == ZeroPad2(f.hour)[0] && s[8] == ZeroPad2(f.hour)[1];
    assert s[10] == ZeroPad2(f.minute)[0] && s[11] == ZeroPad2(f.minute)[1];
    assert s[13] == ZeroPad2(f.second)[0] && s[14] == ZeroPad2(f.second)[1];
  }

  lemma ZeroPad2OfTwoDigits(a: char, b: char)
    requires TwoDigits(a, b).Some?
    ensures TwoDigits(a, b).value < 100 && ZeroPad2(TwoDigits(a, b).value) == [a, b]
  {
  }

  lemma SpacePad2OfParseDay(a: char, b: char)
    requires ParseDay(a, b).Some?
    ensures SpacePad2(ParseDay(a, b).value) == [a, b]
  {
  }

  /** Whatever `ParseTimestamp` accepts is exactly the text written for the fields it reads. */
  lemma FormatParsedTimestamp(s: string, f: DateFields)
    requires ParseTimestamp(s) == Some(f)
    ensures FormatTimestamp(f) == s
  {
    SpacePad2OfParseDay(s[4], s[5]);
    ZeroPad2OfTwoDigits(s[7], s[8]);
    ZeroPad2OfTwoDigits(s[10], s[11]);
    ZeroPad2OfTwoDigits(s[13], s[14]);
    var t := FormatTimestamp(f);
    FormatTimestampShape(f);
    assert MonthAbbrev(f.month) == s[..3];
    forall i | 0 <= i < 15 ensures t[i] == s[i] {
      if i < 3 {
        assert t[i] == t[..3][i];
      } else if 4 <= i < 6 {
        assert t[i] == t[4..6][i - 4];
      } else if 7 <= i < 9 {
        assert t[i] == t[7..9][i - 7];
      } else if 10 <= i < 12 {
        assert t[i] == t[10..12][i - 10];
      } else if 13 <= i {
        assert t[i] == t[13..][i - 13];
      }
    }
  }

  /** Distinct fields are never written as the same text. */
  lemma FormatTimestampInjective(f: DateFields, g: DateFields)
    requires FormatTimestamp(f) == FormatTimestamp(g)
    ensures f == g
  {
    ParseFormattedTimestamp(f);
    ParseFormattedTimestamp(g);
  }

  /** Day 3 is written " 3" and day 23 "23". */
  lemma DayPaddingExamples()
    ensures SpacePad2(3) == " 3"
    ensures SpacePad2(23) == "23"
  {
  }

  /** Hours use the 24-hour clock: midnight is "00" and the last hour "23". */
  lemma HourExamples()
    ensures ZeroPad2(0) == "00"
    ensures ZeroPad2(23) == "23"
  {
  }
}
