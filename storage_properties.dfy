/** What the storage-string pair in lib/timezone-utils.js guarantees: round
    trips in both directions, the fixed `YYYY-MM-DDTHH:mm:ss` layout, the
    default for a missing seconds segment, and that every storage string is
    routed to the naive parser by the formatters and by `safeParseDate`. */
module StorageProperties {
  import opened JsText
  import opened JsDate
  import opened TimezoneUtils
  import opened StorageLayout

  // ---------------------------------------------------------------------------
  // Fields to string to fields

  /** Parsing what `toISTStorageString` wrote for a Date with a year from 0 on
      builds the Date with the same fields, the year read as the Date
      constructor reads it. */
  lemma ParseOwnOutput(f: LocalFields)
    requires ValidFields(f) && f.year >= 0
    requires ValidFields(f.(year := FullYear(f.year)))
    ensures ParseStorageString(ToStorageString(At(f))) == Ok(Known(At(f.(year := FullYear(f.year)))))
  {
    var year, month, day := NumToString(Value(f.year)), Padded(Value(f.monthIndex + 1)), Padded(Value(f.day));
    var hour, minute, second := Padded(Value(f.hour)), Padded(Value(f.minute)), Padded(Value(f.second));
    FieldsLayout(f);
    YearField(f.year);
    PaddedField(f.monthIndex + 1);
    PaddedField(f.day);
    PaddedField(f.hour);
    PaddedField(f.minute);
    PaddedField(f.second);
    ConstructFields(f.(year := FullYear(f.year)), ToNumber(year), Plus(ToNumber(month), -1), ToNumber(day),
                    ToNumber(hour), ToNumber(minute), OrZero(ToNumber(second)));
    ParseSixSegments(year, month, day, hour, minute, second);
  }

  lemma InvalidDateRoundTrip()
    ensures ParseStorageString(ToStorageString(InvalidDate)) == Ok(Known(InvalidDate))
  {
    StorageStringLayout(InvalidDate);
    NaNField();
    ParseSixSegments("NaN", "NaN", "NaN", "NaN", "NaN", "NaN");
  }

  /** Fields to string to fields: parsing what `toISTStorageString` writes gives
      back the same Date, the month's `+1` and `-1` cancelling. This holds for
      every year from 100 on and for the Invalid Date, whose string is all NaN. */
  lemma FieldsRoundTrip(d: Date)
    requires d.InvalidDate? || d.fields.year >= 100
    ensures ParseStorageString(ToStorageString(d)) == Ok(Known(d))
  {
    if d.InvalidDate? {
      InvalidDateRoundTrip();
    } else {
      assert d.fields.(year := FullYear(d.fields.year)) == d.fields;
      ParseOwnOutput(d.fields);
    }
  }

  /** A year from 0 to 99 does not survive the round trip: the Date constructor
      reads it as 1900 plus the year, which is why `FieldsRoundTrip` starts at
      100. */
  lemma TwoDigitYearsShiftTo1900s(d: Date)
    requires d.At? && 0 <= d.fields.year <= 99
    requires ValidFields(d.fields.(year := 1900 + d.fields.year))
    ensures ParseStorageString(ToStorageString(d)) == Ok(Known(At(d.fields.(year := 1900 + d.fields.year))))
  {
    var f, g := d.fields, d.fields.(year := 1900 + d.fields.year);
    assert f.(year := FullYear(f.year)) == g;
    assert ParseStorageString(ToStorageString(At(f))) == Ok(Known(At(g))) by {
      ParseOwnOutput(f);
    }
  }

  /** The 1900 shift happens at most once: the Date read back from the stored
      string of any valid Date with a year from 0 on is stored and read back
      again unchanged. */
  lemma {:induction false} RoundTripSettles(f: LocalFields)
    requires ValidFields(f) && f.year >= 0
    requires ValidFields(f.(year := FullYear(f.year)))
    ensures var g := At(f.(year := FullYear(f.year)));
      ParseStorageString(ToStorageString(g)) == Ok(Known(g))
  {
    FieldsRoundTrip(At(f.(year := FullYear(f.year))));
  }

  // ---------------------------------------------------------------------------
  // String to fields to string

  lemma CanonicalParses(s: string)
    requires IsCanonicalStorageString(s)
    ensures ParseStorageString(s) == Ok(Known(At(FieldsOf(s))))
  {
    var f := FieldsOf(s);
    var year, month, day := s[0..4], s[5..7], s[8..10];
    var hour, minute, second := s[11..13], s[14..16], s[17..19];
    ShapeDecomposes(s);
    assert year[0] == s[0];
    CanonicalDigitsRoundTrip(year);
    assert f.year >= 100;
    DigitsExclude(year, 'T');
    DigitsExclude(month, 'T');
    DigitsExclude(day, 'T');
    DigitsExclude(hour, 'T');
    DigitsExclude(minute, 'T');
    DigitsExclude(second, 'T');
    DigitsExclude(year, '-');
    DigitsExclude(month, '-');
    DigitsExclude(day, '-');
    DigitsExclude(hour, ':');
    DigitsExclude(minute, ':');
    DigitsExclude(second, ':');
    ConstructFields(f, ToNumber(year), Plus(ToNumber(month), -1), ToNumber(day),
                    ToNumber(hour), ToNumber(minute), OrZero(ToNumber(second)));
    ParseSixSegments(year, month, day, hour, minute, second);
  }

  lemma CanonicalReserialises(s: string)
    requires IsCanonicalStorageString(s)
    ensures ToStorageString(At(FieldsOf(s))) == s
  {
    var y := s[0..4];
    assert y[0] == s[0];
    PiecesWrittenBack(FieldsOf(s), y, s[5..7], s[8..10], s[11..13], s[14..16], s[17..19]);
    ShapeDecomposes(s);
  }

  /** String to fields to string: a canonical storage string is parsed to the
      Date its digits spell, and serialising that Date gives the string back
      character for character. */
  lemma StringRoundTrip(s: string)
    requires IsCanonicalStorageString(s)
    ensures ParseStorageString(s) == Ok(Known(At(FieldsOf(s))))
    ensures ToStorageString(At(FieldsOf(s))) == s
  {
    CanonicalParses(s);
    CanonicalReserialises(s);
  }

  /** For a year from 1000 to 9999, `toISTStorageString` writes exactly 19
      characters: '-' at 4 and 7, 'T' at 10, ':' at 13 and 16, a four-digit year
      without a leading zero, and month, day, hour, minute and second as two
      digits each that spell the Date's fields. */
  lemma StorageStringShape(d: Date)
    requires d.At? && 1000 <= d.fields.year <= 9999
    ensures IsCanonicalStorageString(ToStorageString(d))
    ensures FieldsOf(ToStorageString(d)) == d.fields
  {
    var f := d.fields;
    var y, mo, dd := NumToString(Value(f.year)), Padded(Value(f.monthIndex + 1)), Padded(Value(f.day));
    var h, mi, sec := Padded(Value(f.hour)), Padded(Value(f.minute)), Padded(Value(f.second));
    FieldsLayout(f);
    FourDigitYear(f.year);
    PaddedDigits(f.monthIndex + 1);
    PaddedDigits(f.day);
    PaddedDigits(f.hour);
    PaddedDigits(f.minute);
    PaddedDigits(f.second);
    PiecesShape(f, y, mo, dd, h, mi, sec);
  }

  // ---------------------------------------------------------------------------
  // Worked examples

  /** The example of the field layout: (2025, January, 5, 09:05:03). */
  lemma StorageStringExample()
    ensures ToStorageString(At(LocalFields(2025, 0, 5, 9, 5, 3))) == "2025-01-05T09:05:03"
  {
    ExampleFieldsLaidOut();
    ExampleStamp();
  }

  // ---------------------------------------------------------------------------
  // The seconds default

  /** `seconds || 0`: a time part with only hours and minutes is read exactly as
      the same time with ":00" seconds. */
  lemma MissingSecondsReadAsZero(datePart: string, hour: string, minute: string)
    requires 'T' !in datePart && 'T' !in hour && 'T' !in minute
    requires ':' !in hour && ':' !in minute
    ensures ParseStorageString(Stamp(datePart, hour + ":" + minute)) ==
            ParseStorageString(Stamp(datePart, Triple(hour, ':', minute, "00")))
  {
    var short, full := hour + ":" + minute, Triple(hour, ':', minute, "00");
    assert short == hour + [':'] + minute;
    SplitAtFirst(hour, ':', minute);
    SplitWithout(minute, ':');
    assert Split(short, ':') == [hour, minute];
    SplitTriple(hour, ':', minute, "00");
    assert ToNumber("00") == Value(0) by {
      assert "00"[..1] == "0";
      assert DigitsValue("00") == 0;
    }
    assert OrZero(NumberAt(Split(short, ':'), 2)) == OrZero(NumberAt(Split(full, ':'), 2));
    ParseStamp(datePart, short);
    ParseStamp(datePart, full);
  }

  /** `seconds || 0` also turns a seconds segment that is not a number (NaN)
      into 0 instead of an Invalid Date. The segment holds a character that no
      number literal contains, so `Number` reads it as NaN. */
  lemma NonNumericSecondsReadAsZero(datePart: string, hour: string, minute: string, junk: string)
    requires 'T' !in datePart && 'T' !in hour && 'T' !in minute && 'T' !in junk
    requires ':' !in hour && ':' !in minute && ':' !in junk
    requires exists i :: 0 <= i < |junk| && !NumberChar(junk[i])
    ensures ParseStorageString(Stamp(datePart, Triple(hour, ':', minute, junk))) ==
            ParseStorageString(Stamp(datePart, hour + ":" + minute))
  {
    SplitTriple(hour, ':', minute, junk);
    ParseStamp(datePart, Triple(hour, ':', minute, junk));
    assert hour + ":" + minute == hour + [':'] + minute;
    SplitAtFirst(hour, ':', minute);
    SplitWithout(minute, ':');
    ParseStamp(datePart, hour + ":" + minute);
  }

  /** The example of the seconds default: "2025-07-21T14:30" is 21 July 2025,
      14:30:00. */
  lemma MissingSecondsExample()
    ensures ParseStorageString("2025-07-21T14:30") == Ok(Known(At(LocalFields(2025, 6, 21, 14, 30, 0))))
  {
    ExampleNumbers();
    ConstructFields(LocalFields(2025, 6, 21, 14, 30, 0), Value(2025), Value(6), Value(21), Value(14), Value(30), Value(0));
    ParseSixSegments("2025", "07", "21", "14", "30", "00");
    assert "2025-07-21" == Triple("2025", '-', "07", "21");
    assert "2025-07-21T14:30" == Stamp("2025-07-21", "14" + ":" + "30");
    MissingSecondsReadAsZero("2025-07-21", "14", "30");
  }

  // ---------------------------------------------------------------------------
  // Routing

  /** Every string `toISTStorageString` produces, the Invalid Date's included,
      contains 'T' and no 'Z', so the dispatch always sends it to the naive
      parser and never to generic parsing. */
  lemma StorageStringsTakeNaiveRoute(d: Date)
    ensures 'T' in ToStorageString(d) && 'Z' !in ToStorageString(d)
    ensures RouteOf(ToStorageString(d)) == NaiveStorage
  {
    StorageStringLayout(d);
    PieceExcludes(GetFullYear(d), 'Z');
    PieceExcludes(Plus(GetMonth(d), 1), 'Z');
    PieceExcludes(GetDate(d), 'Z');
    PieceExcludes(GetHours(d), 'Z');
    PieceExcludes(GetMinutes(d), 'Z');
    PieceExcludes(GetSeconds(d), 'Z');
    StampExcludes(NumToString(GetFullYear(d)), Padded(Plus(GetMonth(d), 1)), Padded(GetDate(d)),
                  Padded(GetHours(d)), Padded(GetMinutes(d)), Padded(GetSeconds(d)), 'Z');
  }

  /** Formatting or safely parsing a stored string is the same as formatting or
      returning the Date it was written from: the naive parser reconstructs the
      fields and the host's generic parsing plays no part. */
  lemma StoredStringReadsAsItsDate(style: Style, d: Date, tz: Option<Zone>, host: Host)
    requires d.InvalidDate? || d.fields.year >= 100
    ensures Format(style, AString(ToStorageString(d)), tz, host) == Format(style, ADate(d), tz, host)
    ensures SafeParseDate(StringArg(ToStorageString(d)), host) == Known(d)
  {
    StorageStringsTakeNaiveRoute(d);
    FieldsRoundTrip(d);
    NaiveRouteReadsAs(ToStorageString(d), d, style, tz, host);
  }

  /** A string on the storage route that parses to a Date is formatted and
      safely parsed as that Date. */
  lemma NaiveRouteReadsAs(s: string, d: Date, style: Style, tz: Option<Zone>, host: Host)
    requires RouteOf(s) == NaiveStorage && ParseStorageString(s) == Ok(Known(d))
    ensures Format(style, AString(s), tz, host) == Format(style, ADate(d), tz, host)
    ensures SafeParseDate(StringArg(s), host) == Known(d)
  {
    assert ToDateObject(AString(s), host) == Known(d);
  }

  /** The dispatch is one rule: `safeParseDate` turns a string into the very
      Date object the four formatters render, whatever the string. */
  lemma SameDispatchEverywhere(s: string, style: Style, tz: Option<Zone>, host: Host)
    ensures Format(style, AString(s), tz, host) == Render(style, ZoneOrDefault(tz, host), SafeParseDate(StringArg(s), host), host)
    ensures RouteOf(s) == NaiveStorage <==> ('T' in s && 'Z' !in s)
    ensures 'T' in s && 'Z' !in s ==> ParseStorageString(s).Ok? && SafeParseDate(StringArg(s), host) == ParseStorageString(s).value
    ensures !('T' in s && 'Z' !in s) ==> SafeParseDate(StringArg(s), host) == Known(host.parseGeneric(s))
  {
  }

  /** `getUserTimezone()` reports the zone `Intl` itself resolved, which `Intl`
      knows. So a formatter called without a zone argument can fail only on
      the Invalid Date. */
  lemma DefaultZoneFailsOnlyOnInvalidDate(style: Style, x: DateOrString, host: Host)
    requires host.isZone(host.zone)
    ensures Format(style, x, None, host).Err? <==> ToDateObject(x, host) == Known(InvalidDate)
    ensures Format(style, x, None, host).Ok? ==>
      Format(style, x, None, host).value == host.format(style, host.zone, ToDateObject(x, host))
  {
  }

  /** `getCurrentTimeInTimezone` gives the same instant whatever zone it is asked
      for. */
  lemma CurrentTimeIgnoresZone(tz1: Option<Zone>, tz2: Option<Zone>, host: Host)
    ensures CurrentTimeInTimezone(tz1, host) == CurrentTimeInTimezone(tz2, host)
  {
  }
}
