# Syslog preamble converter of logback-access-to-syslog

This project models `SyslogStartConverter`, the logback-access converter that writes
the BSD syslog preamble `<PRI>Mmm dd HH:mm:ss host ` in front of every access-log
line. The layout is the PRI part, TIMESTAMP and HOSTNAME of section 4.1 of RFC 3164.
The model covers three parts of the class:

- **Startup (`start`).** The facility option is read and the facility code looked up.
  The host name is resolved, with `"UNKNOWN_LOCALHOST"` as the fallback, and the two
  date formatters are built. The component is started only when an option was given
  and the formatters were built. A failed host lookup is reported but never stops
  the start.
- **Timestamp cache (`computeTimeStampString`).** The fields `lastTimestamp` and
  `timestampStr` hold the last second and its text. The text is formatted again only
  when `now / 1000` differs from the stored second. Java's `/` truncates toward zero,
  and the model reproduces that. The initial state is `lastTimestamp = -1` and
  `timestampStr = null`. So a first call with `now` in [-1999, -1000] is a false hit
  and returns null (`FirstCallReturnsNull`). Truncation also puts -500 ms and 500 ms
  in the same cached second (`AcrossEpochSharesText`). From 1000 ms after the epoch
  on, the cache returns exactly the text of `now` itself (`LookupExactAfterEpoch`),
  unless an early `NullPointerException` left a second with no text (see "Left out").
- **Assembly (`convert`).** It computes `pri = facility + SYSLOG_ACCESS_SEVERITY` with
  Java `int` wrap-around. It then concatenates `"<"`, the decimal PRI, `">"`, the
  timestamp, a space, the host name and a trailing space. A null reference in this
  concatenation is written as `"null"`, as in Java.

Modules:

- `Wrappers`: `Option`.
- `JavaLang`: the `int` and `long` ranges, truncating division by 1000, `int` addition,
  `Integer.toString` and a parser for it, null-to-"null" string conversion, and the
  `Outcome` of a call that may throw `NullPointerException`.
- `SyslogTimestamp`: the `"%s %2d %s"` timestamp of month, day and `HH:mm:ss`, and a
  strict parser for it.
- `SyslogPreamble`: PRI and the preamble, with a parser.
- `TimestampCache`: one cache call as a function on values (`Lookup`).
- `AccessPattern`: the class `SyslogStartConverter` with the fields of the Java class.
  Its methods are specified against `Lookup`, `Preamble` and `FormatTimestamp`.

Three behaviours of the code that are easy to miss, all modelled as written:

- The cache key is the truncated quotient, not the floor.
- `convert` has no "started" check. Calling it before the formatters exist throws
  `NullPointerException` on a cache miss, after `lastTimestamp` has already been
  updated. The model returns `NullPointer` there.
- An unknown facility name is whatever the facility lookup does. The model takes that
  lookup as a parameter, and an exception from it leaves `start` at once.

## Model

| member | source | states |
|---|---|---|
| JavaLang.JavaDiv1000 | src/main/java/ch/qos/logback/access/pattern/SyslogStartConverter.java:82 | `now / 1000` rounds toward zero: floor for a non-negative dividend, ceiling for a negative one, and never larger in magnitude than the dividend |
| JavaLang.JavaDiv1000OfNegative | src/main/java/ch/qos/logback/access/pattern/SyslogStartConverter.java:82-83 | on a negative `now` that is not a multiple of 1000 the cache key is one above the Euclidean quotient |
| JavaLang.AddInt32 | src/main/java/ch/qos/logback/access/pattern/SyslogStartConverter.java:56 | Java `int` addition: equal to the exact sum modulo 2^32, and equal to the exact sum when that is in range |
| JavaLang.NatToString | src/main/java/ch/qos/logback/access/pattern/SyslogStartConverter.java:59 | the decimal numeral of a natural number is canonical (digits only, no leading zero) and has one digit exactly below 10 |
| JavaLang.IntToString | src/main/java/ch/qos/logback/access/pattern/SyslogStartConverter.java:58-59 | the text `"<" + pri` appends: a canonical numeral, preceded by "-" exactly for negative values |
| JavaLang.ParseIntOfIntToString | src/main/java/ch/qos/logback/access/pattern/SyslogStartConverter.java:58-59 | the PRI text reads back as the PRI value |
| JavaLang.IntToStringOfParseInt | src/main/java/ch/qos/logback/access/pattern/SyslogStartConverter.java:58-59 | every text the parser accepts is exactly the PRI text of its value, so the PRI rendering is a bijection onto canonical numerals |
| SyslogTimestamp.MonthAbbrev | src/main/java/ch/qos/logback/access/pattern/SyslogStartConverter.java:42 | `SimpleDateFormat("MMM", Locale.US)` writes three letters |
| SyslogTimestamp.MonthOfAbbrev | src/main/java/ch/qos/logback/access/pattern/SyslogStartConverter.java:42 | an accepted abbreviation is the English abbreviation of the month returned |
| SyslogTimestamp.MonthOfAbbrevRoundTrip | src/main/java/ch/qos/logback/access/pattern/SyslogStartConverter.java:42 | every month abbreviation reads back as its month |
| SyslogTimestamp.NatToStringBelow100 | src/main/java/ch/qos/logback/access/pattern/SyslogStartConverter.java:87 | the decimal numeral of a number below 100 is one digit below 10 and two digits from 10 on |
| SyslogTimestamp.PadLeft | src/main/java/ch/qos/logback/access/pattern/SyslogStartConverter.java:87 | left padding reaches the width, keeps the text as its suffix and fills with the pad character |
| SyslogTimestamp.SpacePad2IsPaddedNumeral | src/main/java/ch/qos/logback/access/pattern/SyslogStartConverter.java:86-87 | `%2d` of the day is its decimal numeral space-padded on the left to width 2 |
| SyslogTimestamp.ZeroPad2IsPaddedNumeral | src/main/java/ch/qos/logback/access/pattern/SyslogStartConverter.java:43 | the `HH`, `mm` and `ss` fields are the numeral zero-padded on the left to width 2 |
| SyslogTimestamp.DayPaddingExamples | src/main/java/ch/qos/logback/access/pattern/SyslogStartConverter.java:87 | day 3 is written " 3" and day 23 "23" |
| SyslogTimestamp.HourExamples | src/main/java/ch/qos/logback/access/pattern/SyslogStartConverter.java:41-43 | 24-hour clock: hour 0 is "00" and hour 23 is "23" |
| SyslogTimestamp.SpacePad2 | src/main/java/ch/qos/logback/access/pattern/SyslogStartConverter.java:86-87 | `%2d` of a day of the month is two characters |
| SyslogTimestamp.ZeroPad2 | src/main/java/ch/qos/logback/access/pattern/SyslogStartConverter.java:43 | each of the `HH`, `mm` and `ss` fields is two characters |
| SyslogTimestamp.TimeOfDay | src/main/java/ch/qos/logback/access/pattern/SyslogStartConverter.java:43 | `HH:mm:ss` is eight characters with the colons at columns 2 and 5 |
| SyslogTimestamp.FormatTimestamp | src/main/java/ch/qos/logback/access/pattern/SyslogStartConverter.java:86-88 | the `"%s %2d %s"` text is 15 characters, with spaces at columns 3 and 6 and colons at 9 and 12 |
| SyslogTimestamp.FormatTimestampShape | src/main/java/ch/qos/logback/access/pattern/SyslogStartConverter.java:86-88 | every timestamp is 15 characters: month, space, padded day, space, `HH:mm:ss` at fixed columns |
| SyslogTimestamp.ParseFormattedTimestamp | src/main/java/ch/qos/logback/access/pattern/SyslogStartConverter.java:86-88 | a formatted timestamp parses back to the month, day, hour, minute and second it was written from |
| SyslogTimestamp.FormatParsedTimestamp | src/main/java/ch/qos/logback/access/pattern/SyslogStartConverter.java:86-88 | every text the timestamp parser accepts is exactly the formatted text of the fields it reads |
| SyslogTimestamp.FormatTimestampInjective | src/main/java/ch/qos/logback/access/pattern/SyslogStartConverter.java:86-88 | different calendar fields never give the same timestamp text |
| SyslogPreamble.Pri | src/main/java/ch/qos/logback/access/pattern/SyslogStartConverter.java:56 | PRI exceeds the facility by exactly the severity whenever the sum fits in an `int` |
| SyslogPreamble.PriOfStandardFacility | src/main/java/ch/qos/logback/access/pattern/SyslogStartConverter.java:17 | for the 24 RFC 3164 facility codes, PRI is facility*8 + 3 in 0..191, written in 1 to 3 digits, and decodes back to the facility and severity 3 |
| JavaLang.JavaStr | src/main/java/ch/qos/logback/access/pattern/SyslogStartConverter.java:61-63 | concatenation writes "null" exactly for a null reference or the text "null", so the two cannot be told apart; any other string keeps its length |
| SyslogPreamble.Preamble | src/main/java/ch/qos/logback/access/pattern/SyslogStartConverter.java:58-64 | the preamble is "<", the PRI text, ">", the timestamp, a space, the host and one trailing space; its length is the sum of the parts plus four |
| SyslogPreamble.ParsePreambleOfPreamble | src/main/java/ch/qos/logback/access/pattern/SyslogStartConverter.java:58-64 | a preamble reads back as its PRI, calendar fields and host name |
| SyslogPreamble.PreambleOfParsePreamble | src/main/java/ch/qos/logback/access/pattern/SyslogStartConverter.java:58-64 | every text the preamble parser accepts is exactly the preamble of what it reads |
| SyslogPreamble.PreambleEndsInSpace | src/main/java/ch/qos/logback/access/pattern/SyslogStartConverter.java:62-64 | a preamble starts with "<" and ends with the host name followed by one space |
| SyslogPreamble.NullTimestampPreambleRejected | src/main/java/ch/qos/logback/access/pattern/SyslogStartConverter.java:58-64 | the preamble written after a call that returned a null timestamp, `<pri>null host `, is rejected by the preamble parser |
| TimestampCache.SecondOf | src/main/java/ch/qos/logback/access/pattern/SyslogStartConverter.java:82-83 | the cache key agrees with the Euclidean quotient for non-negative instants |
| TimestampCache.Lookup | src/main/java/ch/qos/logback/access/pattern/SyslogStartConverter.java:82-90 | after a call the stored second is `now / 1000` and the returned text is the stored text; a null result only comes from a hit on a cache that holds no text |
| TimestampCache.LookupResult | src/main/java/ch/qos/logback/access/pattern/SyslogStartConverter.java:82-90 | after any call, the stored second is `now / 1000` and the returned text is the stored one; a hit changes nothing and a miss stores the new text |
| TimestampCache.HitFormatsNothing | src/main/java/ch/qos/logback/access/pattern/SyslogStartConverter.java:82-90 | on a hit the result does not depend on the text that would have been formatted |
| TimestampCache.SameSecondSameText | src/main/java/ch/qos/logback/access/pattern/SyslogStartConverter.java:79-90 | two calls in the same truncated second return identical text, and the second call leaves the cache unchanged |
| TimestampCache.NewSecondNewText | src/main/java/ch/qos/logback/access/pattern/SyslogStartConverter.java:82-88 | a call in another second stores that second and returns its new text |
| TimestampCache.SecondMinusOne | src/main/java/ch/qos/logback/access/pattern/SyslogStartConverter.java:82 | the truncated second is -1 exactly for `now` in [-1999, -1000] |
| TimestampCache.FirstCallReturnsNull | src/main/java/ch/qos/logback/access/pattern/SyslogStartConverter.java:19-20 | from the initial state a call returns null exactly when `now` is in [-1999, -1000] |
| TimestampCache.AcrossEpochSharesText | src/main/java/ch/qos/logback/access/pattern/SyslogStartConverter.java:82 | after a call at 500 ms, a call at -500 ms returns the text of 500 ms |
| TimestampCache.LookupKeepsTextMatching | src/main/java/ch/qos/logback/access/pattern/SyslogStartConverter.java:82-88 | the stored text is always the formatted text of some instant in the stored second |
| TimestampCache.LookupExactAfterEpoch | src/main/java/ch/qos/logback/access/pattern/SyslogStartConverter.java:79-90 | from 1000 ms after the epoch on, on a hit or a miss, the call returns the text of `now` itself, provided the text depends only on the wall-clock second |
| AccessPattern.FormatAt | src/main/java/ch/qos/logback/access/pattern/SyslogStartConverter.java:84-88 | the text formatted for an instant parses back to that instant's calendar fields |
| AccessPattern.SyslogStartConverter.constructor | src/main/java/ch/qos/logback/access/pattern/SyslogStartConverter.java:19-26 | initial state: `lastTimestamp = -1`, `timestampStr = null`, no host name, facility 0, formatters not built, not started |
| AccessPattern.SyslogStartConverter.Start | src/main/java/ch/qos/logback/access/pattern/SyslogStartConverter.java:28-52 | with no option: one error, nothing else changes. If the lookup throws: nothing changes. Otherwise the facility and host name (or sentinel) are stored and the errors are appended in order. Started exactly when an option was present, the lookup returned and the formatters were built |
| AccessPattern.SyslogStartConverter.GetLocalHostname | src/main/java/ch/qos/logback/access/pattern/SyslogStartConverter.java:67-75 | the resolved name, or "UNKNOWN_LOCALHOST" with one error reported |
| AccessPattern.SyslogStartConverter.ComputeTimeStampString | src/main/java/ch/qos/logback/access/pattern/SyslogStartConverter.java:77-92 | a hit returns the stored text and changes no field and formats nothing. A miss stores the second and the new text and formats once, or throws after storing the second when the formatters are missing. The fields follow `Lookup` |
| AccessPattern.SyslogStartConverter.Convert | src/main/java/ch/qos/logback/access/pattern/SyslogStartConverter.java:54-65 | the result is `Preamble(Pri(facility), timestamp, host)` with null written "null". Afterwards the stored second is `now / 1000`; a hit leaves the cache as it was. It throws only on a miss before the formatters exist, and then the stored text is unchanged; it never throws once started. Once started with a stored text, the result parses back to PRI, that timestamp and the host name |

## Left out

- The `synchronized (this)` block: the model is sequential. The body of
  `ComputeTimeStampString` stands for the critical section.
- Calendar conversion: `Date`, `Calendar`, `SimpleDateFormat` and the process time zone
  are replaced by the function `localTime` from milliseconds to month, day, hour,
  minute and second. It is given to the constructor. Only padding and concatenation
  are modelled.
- `String.format` uses the default locale. The model writes `%2d` with ASCII digits.
  A default locale with other digits is not modelled.
- The two formatter fields are one flag, `formattersBuilt`, which means both are
  non-null. A failed build leaves it unchanged. The time formatter is built second,
  so a formatter that is null after a failure behaves the same way.
- `InetAddress.getLocalHost().getHostName()` is network I/O. It is the input
  `hostLookup`.
- `SyslogAppenderBase.facilityStringToint` is not part of this model. It is the
  parameter `facilityOf`, where None means the lookup threw. The name table and its
  case-insensitive matching are therefore not modelled.
- `SyslogConstants.ERROR_SEVERITY` is not part of this model. It is the constant 3,
  the RFC 3164 "Error" severity. The comment at line 16 says INFO, but the code uses
  the error severity, and so does the model.
- `getFirstOption`, `addError` and `super.start()` are modelled only as an input
  option, a list of error messages and a `started` flag. The exception object passed
  to `addError` is not recorded, and the rest of the converter lifecycle is left out.
- An exception thrown by the facility lookup is only the `raised` result of `Start`.
  The exception object is not modelled.
- `IAccessEvent` is only its `getTimeStamp()` value (`AccessEvent`).
- JavaLang.JavaDiv1000: models only division by 1000, because that is the only
  division the converter performs.
- TimestampCache.LookupExactAfterEpoch: assumes the cache holds no null text outside
  the initial state. In the class, an early `NullPointerException` can store a second
  with no text. The lemma does not cover that state.
- The host name is any string. RFC 3164 says a HOSTNAME has no spaces, but the
  converter does not enforce that, and neither does the model.
