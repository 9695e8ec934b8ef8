/** The parts of JavaScript's number and string behaviour that the storage-string
    serialiser and parser in lib/timezone-utils.js rely on: `Number(...)` on a
    segment, `toString()` on an integer, `padStart(2, '0')`, and `split` on a
    one-character separator. */
module JsText {

  /** A JavaScript number as it can arise here: an integer value or NaN. */
  datatype Num = Value(v: int) | NaN

  /** `n + k`; NaN absorbs the addition. */
  function Plus(n: Num, k: int): Num {
    match n
    case NaN => NaN
    case Value(v) => Value(v + k)
  }

  /** `n || 0`: the falsy numbers (0 and NaN) become 0. */
  function OrZero(n: Num): (r: Num)
    ensures r.Value?
    ensures n.Value? && n.v != 0 ==> r == n
    ensures !(n.Value? && n.v != 0) ==> r == Value(0)
  {
    if n.NaN? then Value(0) else n
  }

  predicate IsDigit(c: char) {
    '0' <= c <= '9'
  }

  predicate AllDigits(s: string) {
    forall i :: 0 <= i < |s| ==> IsDigit(s[i])
  }

  /** How `toString()` writes a natural number: at least one digit, and no
      leading zero unless the number is 0 itself. */
  predicate CanonicalDigits(s: string) {
    |s| > 0 && AllDigits(s) && (|s| > 1 ==> s[0] != '0')
  }

  function DigitChar(d: nat): (c: char)
    requires d < 10
    ensures IsDigit(c) && (c == '0' <==> d == 0)
  {
    ('0' as int + d) as char
  }

  function DigitValue(c: char): nat
    requires IsDigit(c)
  {
    c as int - '0' as int
  }

  /** The decimal value of a string of digits (the empty string reads as 0). */
  function DigitsValue(s: string): nat
    requires AllDigits(s)
  {
    if s == [] then 0 else DigitsValue(s[..|s| - 1]) * 10 + DigitValue(s[|s| - 1])
  }

  /** `n.toString()` for a natural number. */
  function NatToString(n: nat): (r: string)
    ensures CanonicalDigits(r) && DigitsValue(r) == n
    ensures |r| == 1 <==> n < 10
    ensures |r| <= 2 <==> n < 100
  {
    if n < 10 then [DigitChar(n)]
    else
      var prefix := NatToString(n / 10);
      var r := prefix + [DigitChar(n % 10)];
      assert r[..|r| - 1] == prefix;
      r
  }

  /** `i.toString()` for an integer: a minus sign before the digits of a negative. */
  function IntToString(i: int): (r: string)
    ensures i >= 0 ==> CanonicalDigits(r) && DigitsValue(r) == i
    ensures i < 0 ==> |r| > 1 && r[0] == '-' && CanonicalDigits(r[1..]) && DigitsValue(r[1..]) == -i
  {
    if i < 0 then "-" + NatToString(-i) else NatToString(i)
  }

  /** `n.toString()` for a number that may be NaN: written "NaN" exactly when it
      is NaN, and read back by `Number` as itself when it is not negative. */
  function NumToString(n: Num): (r: string)
    ensures r == "NaN" <==> n.NaN?
    ensures n.NaN? ==> ToNumber(r) == NaN
    ensures n.Value? && n.v >= 0 ==> ToNumber(r) == n
  {
    assert !IsDigit("NaN"[0]) && "NaN"[0] != '-';
    match n
    case NaN => "NaN"
    case Value(v) => IntToString(v)
  }

  /** The characters a string that `Number` reads as a number can hold: decimal
      digits, white space and line terminators (every non-ASCII character is
      counted among them, as some are), the signs, the decimal point, the
      exponent and radix letters, the hexadecimal digits and the letters of
      "Infinity". */
  predicate NumberChar(c: char) {
    || IsDigit(c)
    || c as int in {9, 10, 11, 12, 13, 32}
    || c in "+-.eExXoObBaAcCdDfFInfity"
    || c as int >= 0x80
  }

  /** `Number(s)`, restricted to the segments a storage string holds: the empty
      string is 0, a string of decimal digits is its value, and anything with a
      character that is not a digit is NaN. For a string holding a character no
      number literal can contain, that NaN is also what `Number` gives. */
  function ToNumber(s: string): (r: Num)
    ensures r.NaN? <==> exists i :: 0 <= i < |s| && !IsDigit(s[i])
    ensures (exists i :: 0 <= i < |s| && !NumberChar(s[i])) ==> r.NaN?
    ensures r.Value? ==> r.v >= 0
    ensures s == "" ==> r == Value(0)
  {
    if AllDigits(s) then Value(DigitsValue(s)) else NaN
  }

  /** `s.padStart(width, fill)` with a one-character fill string: `fill` is
      prepended until the string is `width` long; a string already that long is
      returned unchanged. */
  function PadStart(s: string, width: nat, fill: char): (r: string)
    ensures |r| == if |s| >= width then |s| else width
    ensures r[|r| - |s|..] == s
    ensures forall i :: 0 <= i < |r| - |s| ==> r[i] == fill
    decreases width - |s|
  {
    if |s| >= width then s else PadStart([fill] + s, width, fill)
  }

  /** The inverse of `Split`: the parts glued back together with the separator. */
  function Join(parts: seq<string>, sep: char): string
    requires |parts| >= 1
  {
    if |parts| == 1 then parts[0] else parts[0] + [sep] + Join(parts[1..], sep)
  }

  /** `s.split(sep)` for a one-character separator: the maximal runs between
      separators, including empty ones; a string without the separator is a
      single part, and `"".split(sep)` is `[""]`. */
  function Split(s: string, sep: char): (parts: seq<string>)
    ensures |parts| >= 1
    ensures |parts| == 1 <==> sep !in s
  {
    if s == [] then [""]
    else
      var rest := Split(s[1..], sep);
      if s[0] == sep then [""] + rest
      else [[s[0]] + rest[0]] + rest[1..]
  }

  /** `Number` applied to element `i` of an array produced by `split` and read by
      destructuring. A missing element is `undefined`; every use the parser makes
      of it (`new Date(...)` argument, `month - 1`, `seconds || 0`) treats it
      exactly as NaN. */
  function NumberAt(parts: seq<string>, i: nat): Num {
    if i < |parts| then ToNumber(parts[i]) else NaN
  }

  lemma {:induction false} SplitAtFirst(a: string, sep: char, b: string)
    requires sep !in a
    ensures Split(a + [sep] + b, sep) == [a] + Split(b, sep)
  {
    if a == [] {
      assert a + [sep] + b == [sep] + b;
      assert ([sep] + b)[1..] == b;
    } else {
      var s := a + [sep] + b;
      SplitAtFirst(a[1..], sep, b);
      assert s[1..] == a[1..] + [sep] + b;
      assert s[0] == a[0] != sep;
      var rest := Split(s[1..], sep);
      assert rest == [a[1..]] + Split(b, sep);
      assert Split(s, sep) == [[s[0]] + rest[0]] + rest[1..];
      assert [s[0]] + rest[0] == a;
      assert rest[1..] == Split(b, sep);
    }
  }

  lemma {:induction false} SplitWithout(a: string, sep: char)
    requires sep !in a
    ensures Split(a, sep) == [a]
  {
    if a != [] {
      SplitWithout(a[1..], sep);
      assert a == [a[0]] + a[1..];
    }
  }

  /** Joining after putting `c` in front of the first part is putting `c` in
      front of the join. */
  lemma JoinPrepend(c: char, parts: seq<string>, sep: char)
    requires |parts| >= 1
    ensures Join([[c] + parts[0]] + parts[1..], sep) == [c] + Join(parts, sep)
  {
    var p := [[c] + parts[0]] + parts[1..];
    if |parts| > 1 {
      assert p[1..] == parts[1..];
    }
  }

  /** Joining after an empty first part puts a separator in front. */
  lemma JoinEmptyFirst(parts: seq<string>, sep: char)
    requires |parts| >= 1
    ensures Join([""] + parts, sep) == [sep] + Join(parts, sep)
  {
    assert ([""] + parts)[1..] == parts;
  }

  /** Joining the parts of a split with the separator gives the string back. */
  lemma {:induction false} SplitJoin(s: string, sep: char)
    ensures Join(Split(s, sep), sep) == s
  {
    if s != [] {
      SplitJoin(s[1..], sep);
      var rest := Split(s[1..], sep);
      assert s == [s[0]] + s[1..];
      if s[0] == sep {
        JoinEmptyFirst(rest, sep);
      } else {
        JoinPrepend(s[0], rest, sep);
      }
    }
  }

  /** No part of a split contains the separator. */
  lemma {:induction false} SplitPartsExclude(s: string, sep: char)
    ensures forall i :: 0 <= i < |Split(s, sep)| ==> sep !in Split(s, sep)[i]
  {
    if s != [] {
      SplitPartsExclude(s[1..], sep);
      var rest := Split(s[1..], sep);
      var parts := Split(s, sep);
      if s[0] == sep {
        assert parts == [""] + rest;
        assert forall i :: 1 <= i < |parts| ==> parts[i] == rest[i - 1];
      } else {
        assert parts == [[s[0]] + rest[0]] + rest[1..];
        assert forall i :: 1 <= i < |parts| ==> parts[i] == rest[i];
      }
    }
  }

  /** Padding adds only the fill character. */
  lemma {:induction false} PadStartExcludes(s: string, width: nat, fill: char, c: char)
    requires c !in s && c != fill
    ensures c !in PadStart(s, width, fill)
    decreases width - |s|
  {
    if |s| < width {
      PadStartExcludes([fill] + s, width, fill, c);
    }
  }

  lemma DigitsExclude(s: string, c: char)
    requires AllDigits(s) && !IsDigit(c)
    ensures c !in s
  {
  }

  /** A digit string with a leading non-zero digit has a positive value. */
  lemma {:induction false} LeadingDigitPositive(s: string)
    requires |s| > 0 && AllDigits(s) && s[0] != '0'
    ensures DigitsValue(s) > 0
  {
    if |s| > 1 {
      LeadingDigitPositive(s[..|s| - 1]);
    }
  }

  /** `toString()` recovers a canonical digit string from its value. */
  lemma {:induction false} CanonicalDigitsRoundTrip(s: string)
    requires CanonicalDigits(s)
    ensures NatToString(DigitsValue(s)) == s
  {
    var last := s[|s| - 1];
    var n := DigitsValue(s);
    assert DigitChar(DigitValue(last)) == last;
    if |s| == 1 {
      assert s == [last] && n == DigitValue(last);
    } else {
      var prefix := s[..|s| - 1];
      LeadingDigitPositive(prefix);
      CanonicalDigitsRoundTrip(prefix);
      assert n == DigitsValue(prefix) * 10 + DigitValue(last);
      assert n / 10 == DigitsValue(prefix) && n % 10 == DigitValue(last);
      assert NatToString(n) == NatToString(n / 10) + [DigitChar(n % 10)];
      assert s == prefix + [last];
    }
  }

  /** `n.toString().padStart(2, '0')` for 0 <= n < 100 is two digits that read
      back as n. */
  lemma TwoDigits(n: nat)
    requires n < 100
    ensures var t := PadStart(NatToString(n), 2, '0');
      |t| == 2 && AllDigits(t) && DigitsValue(t) == n
  {
    var d := NatToString(n);
    var t := PadStart(d, 2, '0');
    if n < 10 {
      assert t == ['0'] + d;
      assert t[..1] == ['0'];
    } else {
      assert t == d;
    }
  }

  /** Any two-digit string, zero or not in front, is what `padStart(2, '0')`
      writes for its value. */
  lemma TwoDigitsRoundTrip(t: string)
    requires |t| == 2 && AllDigits(t)
    ensures PadStart(NatToString(DigitsValue(t)), 2, '0') == t
  {
    assert t[..1] == [t[0]] && [t[0]][..0] == [];
    assert DigitsValue([t[0]]) == DigitValue(t[0]);
    assert DigitsValue(t) == DigitsValue(t[..1]) * 10 + DigitValue(t[1]);
    if t[0] == '0' {
      assert NatToString(DigitsValue(t)) == [t[1]];
      assert PadStart([t[1]], 2, '0') == ['0', t[1]];
      assert t == ['0', t[1]];
    } else {
      CanonicalDigitsRoundTrip(t);
    }
  }
}
