# Timezone utilities of the MediMeet doctors app, modelled in Dafny

`lib/timezone-utils.js` keeps appointment times as *IST storage strings*. These
are local wall-clock readings written `YYYY-MM-DDTHH:mm:ss`, with no zone suffix.
The file has a serialiser, `toISTStorageString`, and a naive parser,
`parseISTStorageString`, which splits on `T`, `-` and `:` and calls the
six-argument `Date` constructor. It also has a dispatch rule shared by four
formatters and by `safeParseDate`: a string containing `T` and no `Z` goes to the
naive parser, and any other string goes to the host's generic parser.
`formatTimeRange`, `formatTimeIST`, `formatDateIST` and `getCurrentTimeInTimezone`
are built on these.

The model is pure, like the source. It is written as datatypes, functions and
lemmas in five modules:

- `JsText` (`js_text.dfy`) models the JavaScript that the pair relies on:
  - numbers that may be NaN;
  - `toString()` on integers;
  - `padStart(2, '0')`;
  - `split` on one character;
  - `Number(...)` on a segment;
  - `|| 0`.
- `JsDate` (`js_date.dfy`) models a `Date` seen through its six local getters.
  `getMonth` is 0-based. It also has the Invalid Date and the six-argument
  constructor, including its rule that years 0 to 99 mean 1900 to 1999.
- `TimezoneUtils` (`timezone_utils.dfy`) models the functions of the file.
  Everything they take from the environment is gathered in a `Host` value:
  - the zone `getUserTimezone()` returns;
  - the clock read by `new Date()`;
  - the generic parsing done by `new Date(string)`;
  - which zone identifiers the `Intl.DateTimeFormat` constructor accepts;
  - `Intl.DateTimeFormat(...).format`.
- `StorageLayout` (`storage_layout.dfy`) has the layout of a storage string
  piece by piece. These are the steps the properties are built from.
- `StorageProperties` (`storage_properties.dfy`) has the properties of the
  whole. The main ones:
  - Round trips in both directions. Fields to string to fields holds for every
    year from 100 on and for the Invalid Date. String to fields to string holds
    for every canonical storage string. Both assume a host zone in which every
    local wall-clock time exists exactly once, as in present-day India Standard Time (see
    `JsDate.NewDate` under "Left out").
  - The exact 19-character layout.
  - A missing seconds segment, or one holding a character no number literal
    contains,
    reads as 0.
  - Every storage string is routed to the naive parser.
  - Formatting a stored string is formatting the Date it was written from, for
    every year from 100 on and for the Invalid Date, on such a host.

Points of behaviour that the code's own comments and names do not suggest,
and that the model follows:

- **`safeParseDate` on a string.** It never falls back to the current time for
  a string. Every string goes through the dispatch (lines 193-199), so
  `"not-a-date"` becomes `new Date("not-a-date")`. Only a value that is neither
  a Date nor a string becomes the current time (line 202).
- **The `Z` test.** `!date.includes('Z')` rejects a `Z` anywhere in the
  string, not only a trailing one.
- **Exceptions from the formatters.** The `Intl.DateTimeFormat` constructor
  throws a RangeError for a zone identifier it does not know, and its `format`
  throws a RangeError for an Invalid Date. The model's formatters return
  `Err(RangeError)` in exactly these two cases. The parser's TypeError never
  reaches them.
- **The round trip.** It is not lossless for every year. Years 0 to 99 come
  back as 1900 to 1999, because the Date constructor reads them that way
  (`TwoDigitYearsShiftTo1900s`). This shift happens at most once
  (`RoundTripSettles`). Negative years are lost too: their leading `-` is taken
  as a date-part separator.

## Model

| member | source | states |
|---|---|---|
| `JsText.OrZero` | lib/timezone-utils.js:182 | `seconds \|\| 0` always gives a number: a non-zero value is kept, and 0, NaN and a missing segment become 0 |
| `JsText.NatToString` | lib/timezone-utils.js:170 | `toString()` of a natural number gives canonical digits whose value is the number; one digit exactly below 10, at most two exactly below 100 |
| `JsText.IntToString` | lib/timezone-utils.js:170 | a negative number is written as a minus sign followed by the canonical digits of its magnitude |
| `JsText.NumToString` | lib/timezone-utils.js:170 | `toString()` of a field writes `NaN` exactly for NaN, and `Number` reads what it writes back as the same number (NaN, or a value from 0 on) |
| `JsText.ToNumber` | lib/timezone-utils.js:180-181 | `Number(segment)` is NaN exactly when the segment has a non-digit, and in particular when it holds a character no number literal contains; the empty segment is 0; every value is non-negative |
| `JsText.PadStart` | lib/timezone-utils.js:170 | `padStart` gives length max(\|s\|, width), keeps `s` as the suffix, and everything before it is the fill character |
| `JsText.Split` | lib/timezone-utils.js:179-181 | `split` gives at least one part, and exactly one part when the separator is absent |
| `JsText.SplitJoin` | lib/timezone-utils.js:179-181 | joining the parts of a split with the separator gives back the string split |
| `JsText.SplitPartsExclude` | lib/timezone-utils.js:179-181 | no part of a split contains the separator |
| `JsText.SplitAtFirst` | lib/timezone-utils.js:179 | a string whose first separator follows `a` splits into `a` followed by the split of the rest |
| `JsText.CanonicalDigitsRoundTrip` | lib/timezone-utils.js:170 | `toString()` writes the value of a canonical digit string as that same string |
| `JsText.TwoDigits` | lib/timezone-utils.js:170 | `toString().padStart(2,'0')` of a number below 100 is two digits spelling that number |
| `JsText.TwoDigitsRoundTrip` | lib/timezone-utils.js:170 | every two-digit string, with or without a leading zero, is what `padStart(2,'0')` writes for its value |
| `JsDate.FullYear` | lib/timezone-utils.js:182 | the year the Date constructor settles on is never itself a two-digit year, so a second reading leaves it alone; it is the argument or the argument plus 1900 (exactly for 0 to 99), with the same last two digits |
| `JsDate.NewDate` | lib/timezone-utils.js:182 | `new Date(y, m, d, h, mi, s)` is the Invalid Date exactly when an argument is NaN; in-range arguments give exactly those local fields, the year read by `FullYear`, on a host zone where every local time exists once; any other result comes from out-of-range arguments |
| `TimezoneUtils.ToStorageString` | lib/timezone-utils.js:169-171 | `toISTStorageString` always writes the `T` separator, so by `ParseStorageString`'s contract the parser never throws on its output; layout, round trips and routing are stated by `StorageStringShape`, `FieldsRoundTrip` and `StorageStringsTakeNaiveRoute` |
| `TimezoneUtils.ParseStorageString` | lib/timezone-utils.js:178-183 | `parseISTStorageString` throws (TypeError from `split` on `undefined`) exactly when the string has no `T` |
| `TimezoneUtils.RouteOf` | lib/timezone-utils.js:24 | the test `date.includes('T') && !date.includes('Z')`, repeated at lines 50, 79, 119 and 195: the storage route is taken exactly for strings with `T` and no `Z`, and on that route the parser cannot throw |
| `TimezoneUtils.ToDateObject` | lib/timezone-utils.js:21-31 | a Date is used as it is; a string with `T` and no `Z` is read by the storage parser, which then cannot throw; every other string goes to generic parsing |
| `TimezoneUtils.Format` | lib/timezone-utils.js:20-38 | `formatTime`, and the same code in `formatDateTime` (46-67), `formatDate` (75-94) and `formatDateShort` (115-133). The zone is the argument, or else `getUserTimezone()` (helper `ZoneOrDefault`). The argument becomes a Date by the dispatch's three cases, and `Intl` renders it (helper `Render`). An exception is raised exactly when the zone is unknown to `Intl` or the argument is `Known(InvalidDate)`. An argument the model keeps as `HostNormalised` is formatted without one. So is a `Known(At(...))` whose year lies past the time-value limit, which the host would make the Invalid Date (see the time-value line under "Left out"). With no zone argument, only the Invalid Date raises (`DefaultZoneFailsOnlyOnInvalidDate`). It is always a RangeError, never the parser's TypeError. Otherwise the result is the host's rendering of that Date in that zone |
| `TimezoneUtils.FormatTimeRange` | lib/timezone-utils.js:103-107 | succeeds exactly when both ends format, with `start - end` formatted in the one resolved zone; otherwise the start's exception takes precedence over the end's |
| `TimezoneUtils.FormatTimeIST` | lib/timezone-utils.js:140-147 | formats the time in `Asia/Kolkata` whatever the host zone; fails exactly when the host does not know `Asia/Kolkata` or on the Invalid Date |
| `TimezoneUtils.FormatDateIST` | lib/timezone-utils.js:154-162 | formats the long date in `Asia/Kolkata` whatever the host zone; fails exactly when the host does not know `Asia/Kolkata` or on the Invalid Date |
| `TimezoneUtils.SafeParseDate` | lib/timezone-utils.js:188-203 | a Date comes back unchanged; a string goes through the formatters' dispatch; any other value becomes the current time |
| `TimezoneUtils.CurrentTimeInTimezone` | lib/timezone-utils.js:205-207 | the current time, independent of the zone argument |
| `StorageLayout.ParseSixSegments` | lib/timezone-utils.js:178-183 | on six separator-free segments laid out as a storage string, the parser calls the Date constructor with their numbers, the month less one and the seconds through `\|\| 0` |
| `StorageProperties.ParseOwnOutput` | lib/timezone-utils.js:169-183 | parsing the string written for a valid Date with a year from 0 on gives that Date, its year read as the constructor reads it |
| `StorageProperties.InvalidDateRoundTrip` | lib/timezone-utils.js:169-183 | the Invalid Date is written `NaN-NaN-NaNTNaN:NaN:NaN`, which parses back to the Invalid Date |
| `StorageProperties.FieldsRoundTrip` | lib/timezone-utils.js:169-183 | fields to string to fields: parsing what `toISTStorageString` writes gives back the same Date, for every year from 100 on and for the Invalid Date |
| `StorageProperties.TwoDigitYearsShiftTo1900s` | lib/timezone-utils.js:169-183 | for a year from 0 to 99 the round trip yields the year plus 1900, whenever the day exists in that 1900s year. This leaves out 29 February of year 0: year 0 is a leap year and 1900 is not, so the host rolls that date over |
| `StorageProperties.RoundTripSettles` | lib/timezone-utils.js:169-183 | the Date read back from any valid Date's string, for a year from 0 on, survives a second round trip unchanged: the 1900 shift happens at most once |
| `StorageProperties.CanonicalParses` | lib/timezone-utils.js:178-183 | a canonical storage string parses to the Date its digits spell |
| `StorageProperties.CanonicalReserialises` | lib/timezone-utils.js:169-171 | serialising the fields a canonical storage string spells gives back the string, character for character |
| `StorageProperties.StringRoundTrip` | lib/timezone-utils.js:169-183 | string to fields to string, both halves together |
| `StorageProperties.StorageStringShape` | lib/timezone-utils.js:164-171 | for a year from 1000 to 9999 the string is canonical: 19 characters, separators at 4, 7, 10, 13 and 16, all other characters digits spelling the Date's fields, and no leading zero in the year |
| `StorageProperties.StorageStringExample` | lib/timezone-utils.js:169-171 | (2025, January, 5, 09:05:03) is written `2025-01-05T09:05:03` |
| `StorageProperties.MissingSecondsReadAsZero` | lib/timezone-utils.js:181-182 | a time part `HH:mm` parses exactly as `HH:mm:00` |
| `StorageProperties.NonNumericSecondsReadAsZero` | lib/timezone-utils.js:181-182 | a seconds segment holding a character that no number literal contains (not a digit, white space, sign, point, exponent or radix letter, hex digit or letter of `Infinity`) is `Number`'s NaN, and `\|\| 0` reads it as 0, not as an Invalid Date |
| `StorageProperties.MissingSecondsExample` | lib/timezone-utils.js:178-183 | `2025-07-21T14:30` parses to 21 July 2025, 14:30:00 |
| `StorageProperties.StorageStringsTakeNaiveRoute` | lib/timezone-utils.js:169-171 | every string `toISTStorageString` writes, the Invalid Date's included, has a `T` and no `Z`, so the dispatch sends it to the naive parser |
| `StorageProperties.StoredStringReadsAsItsDate` | lib/timezone-utils.js:193-196 | formatting or safely parsing a stored string is formatting or returning the Date it was written from, for years from 100 on and the Invalid Date |
| `StorageProperties.NaiveRouteReadsAs` | lib/timezone-utils.js:193-196 | any string on the storage route that the parser reads as a Date is formatted, by every formatter and in every zone, exactly as that Date, and `safeParseDate` returns that Date |
| `StorageProperties.SameDispatchEverywhere` | lib/timezone-utils.js:195-199 | a formatter given a string renders exactly the Date object `safeParseDate` makes of it: storage strings by the naive parser, other strings by generic parsing |
| `StorageProperties.DefaultZoneFailsOnlyOnInvalidDate` | lib/timezone-utils.js:10-12 | on a host whose own zone `Intl` knows, as `resolvedOptions().timeZone` always is, a formatter called without a zone raises exactly on the Invalid Date, and otherwise renders in the host zone |
| `StorageProperties.CurrentTimeIgnoresZone` | lib/timezone-utils.js:205-207 | `getCurrentTimeInTimezone` gives the same instant for every zone argument |

## Left out

- `getUserTimezone` (lines 10-12): the browser's resolved zone is the field `Host.zone`, not a function of the model. That `Intl` always knows this zone is not built into `Host`. `DefaultZoneFailsOnlyOnInvalidDate` takes it as its `requires`.
- The clock: `new Date()` is the field `Host.now`.
- Generic date-string parsing: `new Date(string)` on a string outside the storage route is the opaque function `Host.parseGeneric`. Its own rules (ISO 8601 with `Z`, RFC 2822, ...) are not modelled.
- `Intl.DateTimeFormat` output: the text rendered for a valid Date in a zone and style is the opaque function `Host.format`. Which zone identifiers are known is the opaque predicate `Host.isZone`. The IANA zone database, the `en-US` locale patterns and daylight-saving rules are not modelled. Only the two RangeErrors are: for an unknown zone and for an Invalid Date.
- A `null` zone argument: `null` does not trigger the default, and `Intl` reads it as the identifier `"null"`. The model's zone argument is an `Option` of a string, so `null` is `Some("null")`.
- Out-of-range constructor arguments (month 12, day 31 in a 30-day month, hour 24, ...) are rolled into neighbouring fields by the host. The model keeps them as `HostNormalised(args)` and does not compute the rollover.
- JsDate.NewDate: assumes a host zone in which every local wall-clock time exists exactly once. That holds for present-day India Standard Time, which has had no daylight saving since 1945. It does not hold for `Asia/Kolkata` in 1942-1945, whose +6:30 war time has a gap and an overlap. On a host zone with transitions, a skipped local time (`2025-03-09T02:30:00` in America/New_York) is built as a different local time (03:30). A repeated one is built as the earlier of its two instants. The local fields, the round trips and `StoredStringReadsAsItsDate` then do not hold as stated for those times.
- The Date's time value: a Date is its six local fields. The host's local zone, which links them to an instant, is not modelled. Neither is the limit of ±8.64e15 ms on the time value, past which the host yields the Invalid Date. A year after about 275760 (September) or before about -271821 (April) passes that limit even when every other field is in range, as in `300000-01-01T00:00:00`. `ValidFields` puts no bound on the year, so the model keeps such a Date as a valid `Known(At(fields))`. Out-of-range arguments that roll over past the limit pass it too, as in `2025-07-21T14:30:99999999999999999999`, whose seconds are digits. The model keeps such a result as `HostNormalised(args)`. In neither case is the model's result the Invalid Date.
- TimezoneUtils.Format: its "an exception exactly when the zone is unknown or the argument is `Known(InvalidDate)`" is weaker than the host on the Dates described in the time-value line above. For a year past the time-value limit, and for a `HostNormalised` result that rolls over past it, `Format` returns `Ok` where `formatTime` throws a RangeError. `FormatTimeRange` inherits this.
- Milliseconds are not modelled. The constructor call sets them to 0, and `toISTStorageString` does not write them.
- JsText.ToNumber: models `Number(...)` only on the empty string (0) and on strings of decimal digits. Every other segment is NaN. `Number` itself also accepts surrounding whitespace, a sign, a fraction, an exponent, hex, octal and binary prefixes, and `Infinity`. For a seconds segment, `Infinity || 0` gives the Invalid Date. Such segments never come from `toISTStorageString` for years from 0 on. The model's NaN for them is correct only when the segment holds a character outside those forms (`NumberChar`), and that is all `NonNumericSecondsReadAsZero` relies on.
- Negative years: `toISTStorageString` writes them with a leading `-`, and the parser then takes that `-` as a date-part separator. No lemma covers years below 0.
- Arguments of other types: a formatter given a value that is neither a Date nor a string passes it to `Intl` unchanged. `format(undefined)` formats the current time, and a number is a timestamp. Only Dates and strings are modelled for the four dispatching formatters. `safeParseDate` is modelled for every input, and any other value is `OtherArg`.
- A string passed to the IST formatters: `formatTimeIST` and `formatDateIST` (lines 139-162) are modelled on Dates only, which is what their doc comments declare (`@param {Date}`). Unlike the other formatters, they do not run the `T`/`Z` dispatch on a string. A string goes straight to `Intl`'s `format`, which converts it to a number. So `formatTimeIST("2025-07-21T14:30:00")` throws a RangeError, and a numeric string is read as a timestamp.
- The other files of the repository: `prisma/seed.js`, `actions/patient.js`, `components/appointment-tabs.jsx` and `next.config.mjs` are callers and configuration, and they are not part of this model.
