/**
 * `SyslogStartConverter`: the access-log converter that writes the syslog preamble
 * `<PRI>Mmm dd HH:mm:ss host ` in front of each access-log line.
 *
 * What the model takes as inputs instead of calling out:
 * - `localTime` (fixed at construction) stands for the `Calendar` and the two
 *   `SimpleDateFormat`s, which read an instant in the process's default time zone;
 * - `firstOption` is what `getFirstOption()` returns (None for null);
 * - `facilityOf` is `SyslogAppenderBase.facilityStringToint`, None when it throws;
 * - `hostLookup` is `InetAddress.getLocalHost().getHostName()`, None when it throws
 *   `UnknownHostException`;
 * - `formatterInitFails` says whether constructing a `SimpleDateFormat` throws
 *   `IllegalArgumentException`.
 */
module AccessPattern {
  import opened Wrappers
  import opened JavaLang
  import opened SyslogTimestamp
  import opened SyslogPreamble
  import opened TimestampCache

  const MISSING_FACILITY_ERROR := "was expecting a facility string as an option"
  const FORMATTER_ERROR := "Could not instantiate SimpleDateFormat"
  const UNKNOWN_HOST_ERROR := "Could not determine local host name"
  /** The host name used when the local host cannot be resolved. */
  const UNKNOWN_LOCALHOST := "UNKNOWN_LOCALHOST"

  /** The one part of an access event the converter reads: `getTimeStamp()`, in milliseconds. */
  datatype AccessEvent = AccessEvent(timeStamp: Long)

  /** The text the formatters write for the instant `now`. */
  function FormatAt(localTime: Long -> DateFields, now: Long): (r: string)
    ensures ParseTimestamp(r) == Some(localTime(now))
  {
    ParseFormattedTimestamp(localTime(now));
    FormatTimestamp(localTime(now))
  }

  class SyslogStartConverter {
    var lastTimestamp: Long
    var timestampStr: Option<string>
    /** Both `simpleMonthFormat` and `simpleTimeFormat` have been built (are non-null). */
    var formattersBuilt: bool
    const localTime: Long -> DateFields
    var localHostName: Option<string>
    var facility: Int32
    /** Set by `super.start()`. */
    var started: bool
    /** The messages passed to `addError`, in order. */
    var errors: seq<string>
    /** How many times a timestamp has been formatted. */
    ghost var formatCount: nat

    /** The timestamp cache as a value. */
    function CacheState(): Cache
      reads this
    {
      Cache(lastTimestamp, timestampStr)
    }

    ghost predicate Valid()
      reads this
    {
      && (!formattersBuilt ==> timestampStr.None?)
      && TextMatches(CacheState(), (t: Long) => FormatAt(localTime, t))
      && (started ==> formattersBuilt && localHostName.Some?)
    }

    /** The field initialisers of the Java class. */
    constructor (localTime: Long -> DateFields)
      ensures Valid()
      ensures this.localTime == localTime
      ensures CacheState() == INITIAL
      ensures !formattersBuilt && !started && localHostName.None? && facility == 0
      ensures errors == [] && formatCount == 0
    {
      this.localTime := localTime;
      lastTimestamp := -1;
      timestampStr := None;
      formattersBuilt := false;
      localHostName := None;
      facility := 0;
      started := false;
      errors := [];
      formatCount := 0;
    }

    /**
     * `start()`. A missing option is reported and ends the call at once; a facility
     * lookup that throws ends it by propagating. Otherwise the facility and host name
     * are stored, the formatters are built, and the component is started unless
     * building the formatters failed. A failed host lookup is reported but does not
     * count as an error.
     */
    method Start(firstOption: Option<string>, facilityOf: string -> Option<Int32>,
                 hostLookup: Option<string>, formatterInitFails: bool) returns (raised: bool)
      requires Valid()
      modifies this`facility, this`localHostName, this`formattersBuilt, this`started, this`errors
      ensures Valid()
      ensures raised <==> firstOption.Some? && facilityOf(firstOption.value).None?
      ensures firstOption.None? ==>
        && errors == old(errors) + [MISSING_FACILITY_ERROR]
        && facility == old(facility) && localHostName == old(localHostName)
        && formattersBuilt == old(formattersBuilt) && started == old(started)
      ensures raised ==>
        && errors == old(errors)
        && facility == old(facility) && localHostName == old(localHostName)
        && formattersBuilt == old(formattersBuilt) && started == old(started)
      ensures firstOption.Some? && facilityOf(firstOption.value).Some? ==>
        && facility == facilityOf(firstOption.value).value
        && localHostName == Some(if hostLookup.Some? then hostLookup.value else UNKNOWN_LOCALHOST)
        && formattersBuilt == (old(formattersBuilt) || !formatterInitFails)
        && errors == old(errors) + (if hostLookup.None? then [UNKNOWN_HOST_ERROR] else [])
                                 + (if formatterInitFails then [FORMATTER_ERROR] else [])
      ensures started == (old(started) ||
        (firstOption.Some? && facilityOf(firstOption.value).Some? && !formatterInitFails))
    {
      raised := false;
      var errorCount := 0;

      if firstOption.None? {
        errors := errors + [MISSING_FACILITY_ERROR];
        return;
      }

      var code := facilityOf(firstOption.value);
      if code.None? {
        raised := true;
        return;
      }
      facility := code.value;

      var name := GetLocalHostname(hostLookup);
      localHostName := Some(name);
      if formatterInitFails {
        errors := errors + [FORMATTER_ERROR];
        errorCount := errorCount + 1;
      } else {
        formattersBuilt := true;
      }

      if errorCount == 0 {
        started := true;
      }
    }

    /** `getLocalHostname()`: the resolved name, or the sentinel after reporting the failure. */
    method GetLocalHostname(hostLookup: Option<string>) returns (name: string)
      modifies this`errors
      ensures hostLookup.Some? ==> name == hostLookup.value && errors == old(errors)
      ensures hostLookup.None? ==> name == UNKNOWN_LOCALHOST && errors == old(errors) + [UNKNOWN_HOST_ERROR]
    {
      match hostLookup
      case Some(n) =>
        name := n;
      case None =>
        errors := errors + [UNKNOWN_HOST_ERROR];
        name := UNKNOWN_LOCALHOST;
    }

    /**
     * `computeTimeStampString(now)`, the body of its `synchronized` block. On a hit the
     * stored text is returned and nothing changes; on a miss the second is stored first,
     * then the text is formatted, which throws if the formatters were never built.
     */
    method ComputeTimeStampString(now: Long) returns (r: Outcome<Option<string>>)
      requires Valid()
      modifies this`lastTimestamp, this`timestampStr, this`formatCount
      ensures Valid()
      ensures Hit(old(CacheState()), now) ==>
        r == Normal(old(timestampStr)) && CacheState() == old(CacheState()) && formatCount == old(formatCount)
      ensures !Hit(old(CacheState()), now) && formattersBuilt ==>
        && lastTimestamp == SecondOf(now)
        && timestampStr == Some(FormatAt(localTime, now))
        && r == Normal(timestampStr)
        && formatCount == old(formatCount) + 1
      ensures !Hit(old(CacheState()), now) && !formattersBuilt ==>
        && r == NullPointer && lastTimestamp == SecondOf(now) && timestampStr == old(timestampStr)
        && formatCount == old(formatCount)
      ensures formattersBuilt ==>
        (CacheState(), r.value) == Lookup(old(CacheState()), now, FormatAt(localTime, now))
      ensures lastTimestamp == SecondOf(now)
      ensures r.Normal? ==> r.value == timestampStr
    {
      LookupKeepsTextMatching(CacheState(), now, (t: Long) => FormatAt(localTime, t));
      if SecondOf(now) != lastTimestamp {
        lastTimestamp := SecondOf(now);
        if !formattersBuilt {
          r := NullPointer;
          return;
        }
        timestampStr := Some(FormatAt(localTime, now));
        formatCount := formatCount + 1;
      }
      r := Normal(timestampStr);
    }

    /**
     * `convert(event)`: PRI from the facility, then the timestamp text, then the host,
     * concatenated as Java does, where a null reference is written "null".
     */
    method Convert(event: AccessEvent) returns (r: Outcome<string>)
      requires Valid()
      modifies this`lastTimestamp, this`timestampStr, this`formatCount
      ensures Valid()
      ensures formattersBuilt ==>
        (CacheState(), if r.Normal? then Some(r.value) else None)
          == (var (c, out) := Lookup(old(CacheState()), event.timeStamp, FormatAt(localTime, event.timeStamp));
              (c, Some(Preamble(Pri(facility), JavaStr(out), JavaStr(localHostName)))))
      ensures r.Normal? ==> r.value == Preamble(Pri(facility), JavaStr(timestampStr), JavaStr(localHostName))
      ensures r.NullPointer? <==> !formattersBuilt && !Hit(old(CacheState()), event.timeStamp)
      ensures lastTimestamp == SecondOf(event.timeStamp)
      ensures Hit(old(CacheState()), event.timeStamp) ==> CacheState() == old(CacheState())
      ensures r.NullPointer? ==> timestampStr == old(timestampStr)
      ensures started ==> r.Normal?
      ensures started && timestampStr.Some? ==>
        && ParsePreamble(r.value).Some?
        && ParsePreamble(r.value).value.pri == Pri(facility)
        && ParsePreamble(r.value).value.host == localHostName.value
        && FormatTimestamp(ParsePreamble(r.value).value.timestamp) == timestampStr.value
    {
      var pri := Pri(facility);
      var ts := ComputeTimeStampString(event.timeStamp);
      match ts
      case NullPointer =>
        r := NullPointer;
      case Normal(text) =>
        r := Normal(Preamble(pri, JavaStr(text), JavaStr(localHostName)));
        if started && text.Some? {
          ghost var t: Long :| SecondOf(t) == lastTimestamp && text.value == FormatAt(localTime, t);
          ParsePreambleOfPreamble(pri, localTime(t), localHostName.value);
        }
    }
  }
}
