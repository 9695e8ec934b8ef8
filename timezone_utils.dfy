/** lib/timezone-utils.js: the "IST storage string" serialiser and parser, the
    dispatch that decides how a string argument becomes a Date, and the
    formatters built on top of it. Everything the module takes from its host
    (the default time zone, the clock, generic date-string parsing and the
    locale formatter) is gathered in a `Host` value passed in explicitly. */
module TimezoneUtils {
  import opened JsText
  import opened JsDate

  /** An IANA time-zone identifier such as "Asia/Kolkata". */
  type Zone = string

  /** `DEFAULT_TIMEZONE`: the application's reference zone, India Standard Time. */
  const DEFAULT_TIMEZONE: Zone := "Asia/Kolkata"

  datatype Option<+T> = None | Some(value: T)

  datatype Result<+T, +E> = Ok(value: T) | Err(error: E)

  /** The exceptions the module can raise: `split` called on `undefined` in the
      parser, and `Intl.DateTimeFormat.prototype.format` given the Invalid Date. */
  datatype JsError = TypeError | RangeError

  /** The four option sets handed to `Intl.DateTimeFormat('en-US', ...)`:
      hour and 2-digit minute on a 12-hour clock (formatTime, formatTimeIST);
      month name, day, year, hour and minute (formatDateTime);
      weekday, month name, day and year (formatDate, formatDateIST);
      weekday, month name and day (formatDateShort). */
  datatype Style = TimeOfDay | DateAndTime | LongDate | ShortDate

  /** The host environment: the zone `getUserTimezone()` resolves to, the
      current time `new Date()` reads, `new Date(string)` generic parsing, which
      zone identifiers the `Intl.DateTimeFormat` constructor accepts, and
      `Intl.DateTimeFormat('en-US', options).format(date)` in a given zone. */
  datatype Host = Host(
    zone: Zone,
    now: Date,
    parseGeneric: string -> Date,
    isZone: Zone -> bool,
    format: (Style, Zone, DateObject) -> string)

  /** The argument of a formatter: a Date object or a string. */
  datatype DateOrString = ADate(date: Date) | AString(text: string)

  /** The argument of `safeParseDate`, which also accepts any other value. */
  datatype AnyValue = DateArg(date: Date) | StringArg(text: string) | OtherArg

  /** `toISTStorageString`: the Date's local fields written as
      `YYYY-MM-DDTHH:mm:ss`, the month 1-based and every field after the year
      padded to two digits. */
  function ToStorageString(d: Date): (r: string)
    ensures 'T' in r
  {
    var datePart := NumToString(GetFullYear(d))
      + "-" + PadStart(NumToString(Plus(GetMonth(d), 1)), 2, '0')
      + "-" + PadStart(NumToString(GetDate(d)), 2, '0');
    var timePart := PadStart(NumToString(GetHours(d)), 2, '0')
      + ":" + PadStart(NumToString(GetMinutes(d)), 2, '0')
      + ":" + PadStart(NumToString(GetSeconds(d)), 2, '0');
    assert (datePart + "T" + timePart)[|datePart|] == 'T';
    datePart + "T" + timePart
  }

  /** `parseISTStorageString`: split on 'T', then the date part on '-' and the
      time part on ':', and build the Date from the numbers with the month
      shifted back by one and `seconds || 0`. A string without 'T' has no time
      part, and `split` on `undefined` throws. */
  function ParseStorageString(s: string): (r: Result<DateObject, JsError>)
    ensures r.Err? <==> 'T' !in s
  {
    var halves := Split(s, 'T');
    if |halves| < 2 then Err(TypeError)
    else
      var dateParts := Split(halves[0], '-');
      var timeParts := Split(halves[1], ':');
      Ok(NewDate(NumberAt(dateParts, 0), Plus(NumberAt(dateParts, 1), -1), NumberAt(dateParts, 2),
                 NumberAt(timeParts, 0), NumberAt(timeParts, 1), OrZero(NumberAt(timeParts, 2))))
  }

  /** The two ways a string argument becomes a Date. */
  datatype Route = NaiveStorage | GenericParse

  /** The dispatch rule: a string containing 'T' and no 'Z' is a storage
      string. */
  function RouteOf(s: string): (r: Route)
    ensures r == NaiveStorage <==> 'T' in s && 'Z' !in s
    ensures r == NaiveStorage ==> ParseStorageString(s).Ok?
  {
    if 'T' in s && 'Z' !in s then NaiveStorage else GenericParse
  }

  /** The `dateObj` the formatters hand to `Intl`: a Date is used as it is, a
      string with 'T' and no 'Z' is read by the storage-string parser, and any
      other string goes to the host's generic parsing. */
  function ToDateObject(x: DateOrString, host: Host): (r: DateObject)
    ensures x.ADate? ==> r == Known(x.date)
    ensures x.AString? && 'T' in x.text && 'Z' !in x.text ==> ParseStorageString(x.text) == Ok(r)
    ensures x.AString? && ('T' !in x.text || 'Z' in x.text) ==> r == Known(host.parseGeneric(x.text))
  {
    match x
    case ADate(d) => Known(d)
    case AString(s) =>
      if RouteOf(s) == NaiveStorage then ParseStorageString(s).value
      else Known(host.parseGeneric(s))
  }

  /** The zone a formatter uses: the one given, else `getUserTimezone()`. */
  function ZoneOrDefault(tz: Option<Zone>, host: Host): Zone {
    if tz.Some? then tz.value else host.zone
  }

  /** `new Intl.DateTimeFormat('en-US', {timeZone: zone, ...}).format(dateObj)`:
      the constructor throws a RangeError for a zone it does not know, `format`
      throws one for the Invalid Date, and any other Date is rendered by the
      host. */
  function Render(style: Style, zone: Zone, dateObj: DateObject, host: Host): Result<string, JsError> {
    if !host.isZone(zone) then Err(RangeError)
    else if dateObj == Known(InvalidDate) then Err(RangeError)
    else Ok(host.format(style, zone, dateObj))
  }

  /** `formatTime`, `formatDateTime`, `formatDate` and `formatDateShort`: the
      argument is turned into a Date by the dispatch rule and rendered by `Intl`
      in the requested zone. The parser's TypeError never escapes, since only a
      string containing 'T' reaches it; the one exception left is `Intl`'s
      RangeError, raised exactly when the zone is unknown or the argument
      denotes the Invalid Date. */
  function Format(style: Style, x: DateOrString, tz: Option<Zone>, host: Host): (r: Result<string, JsError>)
    ensures x.ADate? ==> r == Render(style, ZoneOrDefault(tz, host), Known(x.date), host)
    ensures x.AString? && 'T' in x.text && 'Z' !in x.text ==>
      ParseStorageString(x.text).Ok? && r == Render(style, ZoneOrDefault(tz, host), ParseStorageString(x.text).value, host)
    ensures x.AString? && ('T' !in x.text || 'Z' in x.text) ==>
      r == Render(style, ZoneOrDefault(tz, host), Known(host.parseGeneric(x.text)), host)
    ensures r.Err? <==> !host.isZone(ZoneOrDefault(tz, host)) || ToDateObject(x, host) == Known(InvalidDate)
    ensures r.Err? ==> r.error == RangeError
    ensures r.Ok? ==> r.value == host.format(style, ZoneOrDefault(tz, host), ToDateObject(x, host))
  {
    Render(style, ZoneOrDefault(tz, host), ToDateObject(x, host), host)
  }

  /** `formatTimeRange`: both ends formatted as times in the one zone resolved
      for the call, joined by " - ". An exception from the start time comes
      first, then one from the end time. */
  function FormatTimeRange(start: DateOrString, end: DateOrString, tz: Option<Zone>, host: Host): (r: Result<string, JsError>)
    ensures r.Ok? <==> Format(TimeOfDay, start, tz, host).Ok? && Format(TimeOfDay, end, tz, host).Ok?
    ensures r.Ok? ==> r.value == Format(TimeOfDay, start, tz, host).value + " - " + Format(TimeOfDay, end, tz, host).value
    ensures Format(TimeOfDay, start, tz, host).Err? ==> r == Format(TimeOfDay, start, tz, host)
    ensures Format(TimeOfDay, start, tz, host).Ok? && Format(TimeOfDay, end, tz, host).Err? ==> r == Format(TimeOfDay, end, tz, host)
  {
    var zone := ZoneOrDefault(tz, host);
    var startTime := Format(TimeOfDay, start, Some(zone), host);
    if startTime.Err? then startTime
    else
      var endTime := Format(TimeOfDay, end, Some(zone), host);
      if endTime.Err? then endTime else Ok(startTime.value + " - " + endTime.value)
  }

  /** `formatTimeIST`: a Date's time of day, always in `DEFAULT_TIMEZONE`,
      whatever zone the host is in. */
  function FormatTimeIST(d: Date, host: Host): (r: Result<string, JsError>)
    ensures r == Format(TimeOfDay, ADate(d), Some(DEFAULT_TIMEZONE), host)
    ensures r == Format(TimeOfDay, ADate(d), None, host.(zone := DEFAULT_TIMEZONE))
    ensures r.Err? <==> !host.isZone(DEFAULT_TIMEZONE) || d.InvalidDate?
  {
    Render(TimeOfDay, DEFAULT_TIMEZONE, Known(d), host)
  }

  /** `formatDateIST`: a Date's long date, always in `DEFAULT_TIMEZONE`,
      whatever zone the host is in. */
  function FormatDateIST(d: Date, host: Host): (r: Result<string, JsError>)
    ensures r == Format(LongDate, ADate(d), Some(DEFAULT_TIMEZONE), host)
    ensures r == Format(LongDate, ADate(d), None, host.(zone := DEFAULT_TIMEZONE))
    ensures r.Err? <==> !host.isZone(DEFAULT_TIMEZONE) || d.InvalidDate?
  {
    Render(LongDate, DEFAULT_TIMEZONE, Known(d), host)
  }

  /** `safeParseDate`: a Date is returned unchanged, a string goes through the
      same dispatch as the formatters, and any other value becomes the current
      time. */
  function SafeParseDate(x: AnyValue, host: Host): (r: DateObject)
    ensures x.DateArg? ==> r == Known(x.date)
    ensures x.StringArg? ==> r == ToDateObject(AString(x.text), host)
    ensures x.OtherArg? ==> r == Known(host.now)
  {
    match x
    case DateArg(d) => Known(d)
    case StringArg(s) => ToDateObject(AString(s), host)
    case OtherArg => Known(host.now)
  }

  /** `getCurrentTimeInTimezone`: the current time; the zone argument is not
      used. */
  function CurrentTimeInTimezone(tz: Option<Zone>, host: Host): (r: Date)
    ensures r == host.now
  {
    host.now
  }
}
