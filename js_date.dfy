/** A JavaScript Date seen only through its six local wall-clock fields, and the
    `new Date(year, monthIndex, day, hours, minutes, seconds)` constructor that
    the storage-string parser calls. */
module JsDate {
  import opened JsText

  /** The values of `getFullYear()`, `getMonth()`, `getDate()`, `getHours()`,
      `getMinutes()` and `getSeconds()`. As in JavaScript the month is an index,
      0 for January through 11 for December. */
  datatype LocalFields = LocalFields(year: int, monthIndex: int, day: int, hour: int, minute: int, second: int)

  /** The Gregorian leap-year rule. */
  predicate IsLeapYear(y: int) {
    y % 4 == 0 && (y % 100 != 0 || y % 400 == 0)
  }

  function DaysInMonth(y: int, monthIndex: int): (n: nat)
    requires 0 <= monthIndex < 12
    ensures 28 <= n <= 31
    ensures monthIndex == 1 ==> (n == 29 <==> IsLeapYear(y))
  {
    if monthIndex == 1 then (if IsLeapYear(y) then 29 else 28)
    else if monthIndex in {3, 5, 8, 10} then 30
    else 31
  }

  /** Fields that a valid Date can report: each within its calendar range. */
  predicate ValidFields(f: LocalFields) {
    && 0 <= f.monthIndex < 12
    && 1 <= f.day <= DaysInMonth(f.year, f.monthIndex)
    && 0 <= f.hour < 24
    && 0 <= f.minute < 60
    && 0 <= f.second < 60
  }

  /** A Date is either a point on the local calendar or the Invalid Date whose
      getters all return NaN. */
  datatype Moment = At(fields: LocalFields) | InvalidDate

  type Date = d: Moment | d.InvalidDate? || ValidFields(d.fields) witness InvalidDate

  function GetFullYear(d: Date): Num {
    if d.InvalidDate? then NaN else Value(d.fields.year)
  }

  function GetMonth(d: Date): Num {
    if d.InvalidDate? then NaN else Value(d.fields.monthIndex)
  }

  function GetDate(d: Date): Num {
    if d.InvalidDate? then NaN else Value(d.fields.day)
  }

  function GetHours(d: Date): Num {
    if d.InvalidDate? then NaN else Value(d.fields.hour)
  }

  function GetMinutes(d: Date): Num {
    if d.InvalidDate? then NaN else Value(d.fields.minute)
  }

  function GetSeconds(d: Date): Num {
    if d.InvalidDate? then NaN else Value(d.fields.second)
  }

  /** What the Date constructor yields. Arguments within calendar range give a
      Date whose local fields are exactly those arguments. Arguments out of range
      (month 12, day 40, hour 24, ...) are rolled over into neighbouring fields by
      the host; that arithmetic, and the host's local-zone rules, are not part of
      this model, so such a result is kept as the arguments it was built from. */
  datatype DateObject = Known(date: Date) | HostNormalised(args: LocalFields)

  /** The year the Date constructor uses: 0 to 99 mean 1900 to 1999. The year
      it settles on is never itself a two-digit year, so reading it a second
      time changes nothing; it differs from the argument by 1900 or not at all,
      and keeps the last two digits. */
  function FullYear(year: int): (y: int)
    ensures !(0 <= y <= 99)
    ensures y - year in {0, 1900}
    ensures y % 100 == year % 100
    ensures y == year <==> !(0 <= year <= 99)
  {
    if 0 <= year <= 99 then 1900 + year else year
  }

  /** `new Date(year, monthIndex, day, hours, minutes, seconds)` with six explicit
      arguments: any NaN argument gives the Invalid Date, and a year from 0 to 99
      means 1900 plus that year. */
  function NewDate(year: Num, monthIndex: Num, day: Num, hours: Num, minutes: Num, seconds: Num): (r: DateObject)
    ensures r == Known(InvalidDate) <==>
      year.NaN? || monthIndex.NaN? || day.NaN? || hours.NaN? || minutes.NaN? || seconds.NaN?
    ensures r.Known? && r.date.At? ==>
      && year.Value? && monthIndex.Value? && day.Value? && hours.Value? && minutes.Value? && seconds.Value?
      && r.date.fields == LocalFields(FullYear(year.v), monthIndex.v, day.v, hours.v, minutes.v, seconds.v)
    ensures
      && year.Value? && monthIndex.Value? && day.Value? && hours.Value? && minutes.Value? && seconds.Value?
      && ValidFields(LocalFields(FullYear(year.v), monthIndex.v, day.v, hours.v, minutes.v, seconds.v))
      ==> r == Known(At(LocalFields(FullYear(year.v), monthIndex.v, day.v, hours.v, minutes.v, seconds.v)))
    ensures r.HostNormalised? ==> !ValidFields(r.args)
  {
    if year.NaN? || monthIndex.NaN? || day.NaN? || hours.NaN? || minutes.NaN? || seconds.NaN? then
      Known(InvalidDate)
    else
      var f := LocalFields(FullYear(year.v), monthIndex.v, day.v, hours.v, minutes.v, seconds.v);
      if ValidFields(f) then Known(At(f)) else HostNormalised(f)
  }
}
