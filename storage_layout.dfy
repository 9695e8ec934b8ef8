/** The layout of the strings `toISTStorageString` writes in
    lib/timezone-utils.js, piece by piece: how each field is written, where the
    separators stand, and what the parser makes of six laid-out segments. The
    properties of the whole pair are in StorageProperties. */
module StorageLayout {
  import opened JsText
  import opened JsDate
  import opened TimezoneUtils

  /** A date part and a time part joined by 'T'. */
  function Stamp(datePart: string, timePart: string): string {
    datePart + "T" + timePart
  }

  /** `YYYY-MM-DD` or `HH:mm:ss`: three segments joined by a separator. */
  function Triple(a: string, sep: char, b: string, c: string): string {
    a + [sep] + b + [sep] + c
  }

  /** The lexical form `YYYY-MM-DDTHH:mm:ss` with a four-digit year. */
  predicate HasStorageShape(s: string) {
    && |s| == 19
    && s[4] == '-' && s[7] == '-' && s[10] == 'T' && s[13] == ':' && s[16] == ':'
    && AllDigits(s[0..4]) && AllDigits(s[5..7]) && AllDigits(s[8..10])
    && AllDigits(s[11..13]) && AllDigits(s[14..16]) && AllDigits(s[17..19])
  }

  /** The fields a storage-shaped string spells, the month taken back to an index. */
  function FieldsOf(s: string): LocalFields
    requires HasStorageShape(s)
  {
    LocalFields(DigitsValue(s[0..4]), DigitsValue(s[5..7]) - 1, DigitsValue(s[8..10]),
                DigitsValue(s[11..13]), DigitsValue(s[14..16]), DigitsValue(s[17..19]))
  }

  /** A storage string as `toISTStorageString` writes it for a year from 1000 to
      9999: the right shape, no leading zero in the year, fields in range. */
  predicate IsCanonicalStorageString(s: string) {
    HasStorageShape(s) && s[0] != '0' && ValidFields(FieldsOf(s))
  }

  /** `n` as written by `toString().padStart(2, '0')`. */
  function Padded(n: Num): string {
    PadStart(NumToString(n), 2, '0')
  }

  // ---------------------------------------------------------------------------
  // The pieces of a storage string

  /** `toISTStorageString` is a date part of three '-'-joined pieces and a
      time part of three ':'-joined pieces, joined by 'T'. */
  lemma StorageStringLayout(d: Date)
    ensures ToStorageString(d) == Stamp(
      Triple(NumToString(GetFullYear(d)), '-', Padded(Plus(GetMonth(d), 1)), Padded(GetDate(d))),
      Triple(Padded(GetHours(d)), ':', Padded(GetMinutes(d)), Padded(GetSeconds(d))))
  {
  }

  /** The same layout for a valid Date, piece by piece from its fields. */
  lemma FieldsLayout(f: LocalFields)
    requires ValidFields(f)
    ensures ToStorageString(At(f)) == Stamp(
      Triple(NumToString(Value(f.year)), '-', Padded(Value(f.monthIndex + 1)), Padded(Value(f.day))),
      Triple(Padded(Value(f.hour)), ':', Padded(Value(f.minute)), Padded(Value(f.second))))
  {
    var d: Date := At(f);
    assert GetFullYear(d) == Value(f.year) && Plus(GetMonth(d), 1) == Value(f.monthIndex + 1);
    assert GetDate(d) == Value(f.day) && GetHours(d) == Value(f.hour);
    assert GetMinutes(d) == Value(f.minute) && GetSeconds(d) == Value(f.second);
    StorageStringLayout(d);
  }

  /** A field between 0 and 99 is written as two digits that read back as itself
      and contain none of the separators. */
  lemma PaddedField(n: nat)
    requires n < 100
    ensures var t := Padded(Value(n));
      && |t| == 2 && AllDigits(t) && ToNumber(t) == Value(n)
      && 'T' !in t && '-' !in t && ':' !in t
  {
    TwoDigits(n);
    var t := Padded(Value(n));
    DigitsExclude(t, 'T');
    DigitsExclude(t, '-');
    DigitsExclude(t, ':');
  }

  /** A year from 0 on is written as canonical digits that read back as itself. */
  lemma YearField(y: nat)
    ensures var t := NumToString(Value(y));
      && CanonicalDigits(t) && ToNumber(t) == Value(y)
      && 'T' !in t && '-' !in t && ':' !in t
  {
    var t := NumToString(Value(y));
    DigitsExclude(t, 'T');
    DigitsExclude(t, '-');
    DigitsExclude(t, ':');
  }

  /** A year from 1000 to 9999 is written with four digits. */
  lemma FourDigitYear(y: nat)
    requires 1000 <= y <= 9999
    ensures |NatToString(y)| == 4
  {
    assert |NatToString(y / 100)| == 2;
    assert |NatToString(y / 10)| == 3;
  }

  /** A NaN field is written "NaN", padding and all, and reads back as NaN. */
  lemma NaNField()
    ensures Padded(NaN) == "NaN" && NumToString(NaN) == "NaN"
    ensures ToNumber("NaN") == NaN
  {
    assert !IsDigit("NaN"[0]);
  }

  /** No number is written with a 'Z' or a 'T' in it. */
  lemma PieceExcludes(n: Num, c: char)
    requires c == 'Z' || c == 'T'
    ensures c !in NumToString(n) && c !in Padded(n)
  {
    match n
    case NaN =>
      NaNField();
    case Value(v) =>
      if v >= 0 {
        DigitsExclude(NatToString(v), c);
      } else {
        DigitsExclude(NatToString(-v), c);
        assert NumToString(n) == "-" + NatToString(-v);
      }
      PadStartExcludes(NumToString(n), 2, '0', c);
  }

  /** The separators stand where the layout puts them and nowhere else. */
  lemma StampExcludes(a: string, b: string, c: string, h: string, mi: string, sec: string, ch: char)
    requires ch != '-' && ch != ':' && ch != 'T'
    requires ch !in a && ch !in b && ch !in c && ch !in h && ch !in mi && ch !in sec
    ensures ch !in Stamp(Triple(a, '-', b, c), Triple(h, ':', mi, sec))
    ensures 'T' in Stamp(Triple(a, '-', b, c), Triple(h, ':', mi, sec))
  {
    var s := Stamp(Triple(a, '-', b, c), Triple(h, ':', mi, sec));
    assert s[|Triple(a, '-', b, c)|] == 'T';
  }

  /** Where each piece of a storage string stands when the year has four
      digits and the other fields two. */
  lemma StampSlices(y: string, mo: string, dd: string, h: string, mi: string, sec: string)
    requires |y| == 4 && |mo| == 2 && |dd| == 2 && |h| == 2 && |mi| == 2 && |sec| == 2
    ensures var s := Stamp(Triple(y, '-', mo, dd), Triple(h, ':', mi, sec));
      && |s| == 19
      && s[4] == '-' && s[7] == '-' && s[10] == 'T' && s[13] == ':' && s[16] == ':'
      && s[0..4] == y && s[5..7] == mo && s[8..10] == dd
      && s[11..13] == h && s[14..16] == mi && s[17..19] == sec
  {
    var datePart, timePart := Triple(y, '-', mo, dd), Triple(h, ':', mi, sec);
    assert datePart[0..4] == y && datePart[5..7] == mo && datePart[8..10] == dd;
    assert timePart[0..2] == h && timePart[3..5] == mi && timePart[6..8] == sec;
    var s := Stamp(datePart, timePart);
    assert s[0..10] == datePart;
    assert s[11..19] == timePart;
  }

  /** The slices of a storage-shaped string put back together. */
  lemma ShapeDecomposes(s: string)
    requires HasStorageShape(s)
    ensures s == Stamp(Triple(s[0..4], '-', s[5..7], s[8..10]), Triple(s[11..13], ':', s[14..16], s[17..19]))
  {
    var t := Stamp(Triple(s[0..4], '-', s[5..7], s[8..10]), Triple(s[11..13], ':', s[14..16], s[17..19]));
    StampSlices(s[0..4], s[5..7], s[8..10], s[11..13], s[14..16], s[17..19]);
    forall i | 0 <= i < 19
      ensures s[i] == t[i]
    {
      if i < 4 { assert s[i] == s[0..4][i]; }
      else if 4 < i < 7 { assert s[i] == s[5..7][i - 5]; }
      else if 7 < i < 10 { assert s[i] == s[8..10][i - 8]; }
      else if 10 < i < 13 { assert s[i] == s[11..13][i - 11]; }
      else if 13 < i < 16 { assert s[i] == s[14..16][i - 14]; }
      else if 16 < i { assert s[i] == s[17..19][i - 17]; }
    }
  }

  // ---------------------------------------------------------------------------
  // Parsing a laid-out string

  /** Splitting three separator-free segments joined by `sep` gives them back. */
  lemma SplitTriple(a: string, sep: char, b: string, c: string)
    requires sep !in a && sep !in b && sep !in c
    ensures Split(Triple(a, sep, b, c), sep) == [a, b, c]
  {
    assert Triple(a, sep, b, c) == a + [sep] + (b + [sep] + c);
    SplitAtFirst(a, sep, b + [sep] + c);
    SplitAtFirst(b, sep, c);
    SplitWithout(c, sep);
  }

  /** The parser on a date part and a time part that contain no 'T': the
      numbers of the '-' segments and of the ':' segments go to the Date
      constructor. */
  lemma ParseStamp(datePart: string, timePart: string)
    requires 'T' !in datePart && 'T' !in timePart
    ensures var dp := Split(datePart, '-');
      var tp := Split(timePart, ':');
      ParseStorageString(Stamp(datePart, timePart)) ==
        Ok(NewDate(NumberAt(dp, 0), Plus(NumberAt(dp, 1), -1), NumberAt(dp, 2),
                   NumberAt(tp, 0), NumberAt(tp, 1), OrZero(NumberAt(tp, 2))))
  {
    assert Stamp(datePart, timePart) == datePart + ['T'] + timePart;
    SplitAtFirst(datePart, 'T', timePart);
    SplitWithout(timePart, 'T');
  }

  /** The parser on six separator-free segments laid out as a storage string:
      their numbers go to the Date constructor, the month less one and the
      seconds through `|| 0`. */
  lemma ParseSixSegments(year: string, month: string, day: string, hour: string, minute: string, second: string)
    requires 'T' !in year && 'T' !in month && 'T' !in day && 'T' !in hour && 'T' !in minute && 'T' !in second
    requires '-' !in year && '-' !in month && '-' !in day
    requires ':' !in hour && ':' !in minute && ':' !in second
    ensures ParseStorageString(Stamp(Triple(year, '-', month, day), Triple(hour, ':', minute, second))) ==
      Ok(NewDate(ToNumber(year), Plus(ToNumber(month), -1), ToNumber(day),
                 ToNumber(hour), ToNumber(minute), OrZero(ToNumber(second))))
  {
    var datePart, timePart := Triple(year, '-', month, day), Triple(hour, ':', minute, second);
    SplitTriple(year, '-', month, day);
    SplitTriple(hour, ':', minute, second);
    assert 'T' !in datePart && 'T' !in timePart;
    ParseStamp(datePart, timePart);
  }

  /** The Date constructor given in-range fields, the year as the constructor
      reads it, builds the Date with those fields. */
  lemma ConstructFields(f: LocalFields, year: Num, monthIndex: Num, day: Num, hours: Num, minutes: Num, seconds: Num)
    requires ValidFields(f)
    requires year.Value? && FullYear(year.v) == f.year
    requires monthIndex == Value(f.monthIndex) && day == Value(f.day)
    requires hours == Value(f.hour) && minutes == Value(f.minute) && seconds == Value(f.second)
    ensures NewDate(year, monthIndex, day, hours, minutes, seconds) == Known(At(f))
  {
  }

  // ---------------------------------------------------------------------------
  // Writing fields back

  /** `CanonicalDigitsRoundTrip` restated for a field: the year as the Date's
      getter reports it, a `Num`. Stating the step for one field on its own
      keeps the proof of `PiecesWrittenBack` small enough for the solver. */
  lemma YearWrittenAs(t: string, n: int)
    requires CanonicalDigits(t) && DigitsValue(t) == n
    ensures NumToString(Value(n)) == t
  {
    CanonicalDigitsRoundTrip(t);
  }

  /** `TwoDigitsRoundTrip` restated for a padded field, a `Num`, one field at a
      time, for the same reason. */
  lemma PaddedWrittenAs(t: string, n: int)
    requires |t| == 2 && AllDigits(t) && DigitsValue(t) == n
    ensures Padded(Value(n)) == t
  {
    TwoDigitsRoundTrip(t);
  }

  /** The layout of a valid Date's string, given what each field is written as. */
  lemma LayoutOfPieces(f: LocalFields, y: string, mo: string, dd: string, h: string, mi: string, sec: string)
    requires ValidFields(f)
    requires NumToString(Value(f.year)) == y && Padded(Value(f.monthIndex + 1)) == mo && Padded(Value(f.day)) == dd
    requires Padded(Value(f.hour)) == h && Padded(Value(f.minute)) == mi && Padded(Value(f.second)) == sec
    ensures ToStorageString(At(f)) == Stamp(Triple(y, '-', mo, dd), Triple(h, ':', mi, sec))
  {
    FieldsLayout(f);
  }

  /** Segments of the right widths that spell in-range fields are exactly what
      `toISTStorageString` writes for those fields. */
  lemma PiecesWrittenBack(f: LocalFields, y: string, mo: string, dd: string, h: string, mi: string, sec: string)
    requires ValidFields(f)
    requires CanonicalDigits(y) && DigitsValue(y) == f.year
    requires |mo| == 2 && AllDigits(mo) && DigitsValue(mo) == f.monthIndex + 1
    requires |dd| == 2 && AllDigits(dd) && DigitsValue(dd) == f.day
    requires |h| == 2 && AllDigits(h) && DigitsValue(h) == f.hour
    requires |mi| == 2 && AllDigits(mi) && DigitsValue(mi) == f.minute
    requires |sec| == 2 && AllDigits(sec) && DigitsValue(sec) == f.second
    ensures ToStorageString(At(f)) == Stamp(Triple(y, '-', mo, dd), Triple(h, ':', mi, sec))
  {
    YearWrittenAs(y, f.year);
    PaddedWrittenAs(mo, f.monthIndex + 1);
    PaddedWrittenAs(dd, f.day);
    PaddedWrittenAs(h, f.hour);
    PaddedWrittenAs(mi, f.minute);
    PaddedWrittenAs(sec, f.second);
    LayoutOfPieces(f, y, mo, dd, h, mi, sec);
  }

  /** `TwoDigits` restated for a padded field, a `Num`, one field at a time,
      which keeps the proof of `StorageStringShape` small enough for the
      solver. */
  lemma PaddedDigits(n: nat)
    requires n < 100
    ensures var t := Padded(Value(n)); |t| == 2 && AllDigits(t) && DigitsValue(t) == n
  {
    TwoDigits(n);
  }

  /** Pieces of the right widths that spell in-range fields make a canonical
      storage string that spells those fields. */
  lemma PiecesShape(f: LocalFields, y: string, mo: string, dd: string, h: string, mi: string, sec: string)
    requires ValidFields(f)
    requires |y| == 4 && CanonicalDigits(y) && DigitsValue(y) == f.year
    requires |mo| == 2 && AllDigits(mo) && DigitsValue(mo) == f.monthIndex + 1
    requires |dd| == 2 && AllDigits(dd) && DigitsValue(dd) == f.day
    requires |h| == 2 && AllDigits(h) && DigitsValue(h) == f.hour
    requires |mi| == 2 && AllDigits(mi) && DigitsValue(mi) == f.minute
    requires |sec| == 2 && AllDigits(sec) && DigitsValue(sec) == f.second
    ensures IsCanonicalStorageString(Stamp(Triple(y, '-', mo, dd), Triple(h, ':', mi, sec)))
    ensures FieldsOf(Stamp(Triple(y, '-', mo, dd), Triple(h, ':', mi, sec))) == f
  {
    var s := Stamp(Triple(y, '-', mo, dd), Triple(h, ':', mi, sec));
    StampSlices(y, mo, dd, h, mi, sec);
    assert s[0] == y[0];
    assert HasStorageShape(s);
    assert FieldsOf(s) == f;
  }

  // ---------------------------------------------------------------------------
  // Steps of the worked examples

  /** How each field of (2025, January, 5, 09:05:03) is written. */
  lemma ExampleFieldsLaidOut()
    ensures ToStorageString(At(LocalFields(2025, 0, 5, 9, 5, 3))) ==
      Stamp(Triple("2025", '-', "01", "05"), Triple("09", ':', "05", "03"))
  {
    ExamplePieces();
    FieldsLayout(LocalFields(2025, 0, 5, 9, 5, 3));
  }

  /** The pieces of (2025, January, 5, 09:05:03). */
  lemma ExamplePieces()
    ensures NumToString(Value(2025)) == "2025"
    ensures Padded(Value(1)) == "01" && Padded(Value(5)) == "05"
    ensures Padded(Value(9)) == "09" && Padded(Value(3)) == "03"
  {
    ExampleYear();
    ExampleSingleDigit(1);
    ExampleSingleDigit(5);
    ExampleSingleDigit(9);
    ExampleSingleDigit(3);
    assert DigitChar(1) == '1' && DigitChar(5) == '5' && DigitChar(9) == '9' && DigitChar(3) == '3';
  }

  /** 2025 is written "2025". */
  lemma ExampleYear()
    ensures NumToString(Value(2025)) == "2025"
  {
    assert NatToString(2) == "2";
    assert NatToString(20) == NatToString(2) + "0";
    assert NatToString(202) == NatToString(20) + "2";
    assert NatToString(2025) == NatToString(202) + "5";
  }

  /** A single digit is padded with one '0'. */
  lemma ExampleSingleDigit(n: nat)
    requires n < 10
    ensures Padded(Value(n)) == ['0', DigitChar(n)]
  {
    assert NumToString(Value(n)) == [DigitChar(n)];
  }

  /** The pieces of (2025, January, 5, 09:05:03) laid out. */
  lemma ExampleStamp()
    ensures Stamp(Triple("2025", '-', "01", "05"), Triple("09", ':', "05", "03")) == "2025-01-05T09:05:03"
  {
  }

  /** The numbers in the segments of "2025-07-21T14:30:00". */
  lemma ExampleNumbers()
    ensures ToNumber("2025") == Value(2025) && ToNumber("07") == Value(7) && ToNumber("21") == Value(21)
    ensures ToNumber("14") == Value(14) && ToNumber("30") == Value(30) && ToNumber("00") == Value(0)
  {
    assert ToNumber("2025") == Value(2025) by {
      assert IsDigit('2') && IsDigit('0') && IsDigit('5');
      assert "2025"[..3] == "202" && "202"[..2] == "20" && "20"[..1] == "2";
      assert DigitsValue("2025") == 2025;
    }
    assert ToNumber("07") == Value(7) by { assert IsDigit('7') && "07"[..1] == "0"; assert DigitsValue("07") == 7; }
    assert ToNumber("21") == Value(21) by { assert IsDigit('1') && "21"[..1] == "2"; }
    assert ToNumber("14") == Value(14) by { assert IsDigit('4') && "14"[..1] == "1"; }
    assert ToNumber("30") == Value(30) by { assert IsDigit('3') && "30"[..1] == "3"; }
    assert ToNumber("00") == Value(0) by { assert "00"[..1] == "0"; }
  }
}
