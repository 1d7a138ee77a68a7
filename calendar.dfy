/**
 * Proleptic Gregorian calendar dates as JavaScript's `Date` handles them in
 * UTC: the day after and before a date, `Date.UTC` with its normalisation of
 * out-of-range months and days, and the fixed-width numerals that
 * `toISOString` writes.
 */
module Calendar {
  import opened Js

  datatype Date = Date(year: int, month: int, day: int)

  predicate IsLeapYear(y: int) {
    (y % 4 == 0 && y % 100 != 0) || y % 400 == 0
  }

  function DaysInMonth(y: int, m: int): int
    requires 1 <= m <= 12
  {
    if m == 2 then (if IsLeapYear(y) then 29 else 28)
    else if m == 4 || m == 6 || m == 9 || m == 11 then 30
    else 31
  }

  /** A real calendar date. */
  predicate Valid(d: Date) {
    1 <= d.month <= 12 && 1 <= d.day <= DaysInMonth(d.year, d.month)
  }

  /** Chronological order. */
  predicate Before(a: Date, b: Date) {
    a.year < b.year || (a.year == b.year && (a.month < b.month || (a.month == b.month && a.day < b.day)))
  }

  /** The following day, as `setUTCDate(getUTCDate() + 1)` gives it. */
  function Next(d: Date): (r: Date)
    requires Valid(d)
    ensures Valid(r) && Before(d, r)
  {
    if d.day < DaysInMonth(d.year, d.month) then Date(d.year, d.month, d.day + 1)
    else if d.month < 12 then Date(d.year, d.month + 1, 1)
    else Date(d.year + 1, 1, 1)
  }

  /** The preceding day, as `setUTCDate(getUTCDate() - 1)` gives it. */
  function Prev(d: Date): (r: Date)
    requires Valid(d)
    ensures Valid(r) && Before(r, d)
  {
    if d.day > 1 then Date(d.year, d.month, d.day - 1)
    else if d.month > 1 then Date(d.year, d.month - 1, DaysInMonth(d.year, d.month - 1))
    else Date(d.year - 1, 12, 31)
  }

  /** `Next` and `Prev` are inverse, and no date lies strictly between a date and the next one. */
  lemma NextIsImmediate(d: Date, x: Date)
    requires Valid(d) && Valid(x)
    ensures Prev(Next(d)) == d && Next(Prev(d)) == d
    ensures Before(d, x) ==> !Before(x, Next(d))
  {
  }

  /** `n` days after `d`. */
  function AddDays(d: Date, n: nat): (r: Date)
    requires Valid(d)
    ensures Valid(r)
    decreases n
  {
    if n == 0 then d else AddDays(Next(d), n - 1)
  }

  /** `Date.UTC` reads a year from 0 to 99 as 1900 to 1999. */
  function FullYear(y: int): int {
    if 0 <= y <= 99 then 1900 + y else y
  }

  /**
   * The date `new Date(Date.UTC(y, monthIndex, day))` denotes: the month index
   * counts from 0 and may overflow into other years, the day counts from 1 and
   * may overflow into other months (day 0 is the last day of the month before).
   */
  function FromUtc(y: int, monthIndex: int, day: nat): (r: Date)
    ensures Valid(r)
  {
    var first := Date(FullYear(y) + monthIndex / 12, monthIndex % 12 + 1, 1);
    if day == 0 then Prev(first) else AddDays(first, day - 1)
  }

  lemma {:induction false} AddDaysWithinMonth(y: int, m: int, k: int, n: nat)
    requires 1 <= m <= 12 && 1 <= k && k + n <= DaysInMonth(y, m)
    ensures AddDays(Date(y, m, k), n) == Date(y, m, k + n)
    decreases n
  {
    if n > 0 {
      AddDaysWithinMonth(y, m, k + 1, n - 1);
    }
  }

  /** `Date.UTC` reads a year from 0 to 99 as that year of the 1900s. */
  lemma FromUtcTwoDigitYear(y: int, monthIndex: int, day: nat)
    requires 0 <= y <= 99
    ensures FromUtc(y, monthIndex, day) == FromUtc(1900 + y, monthIndex, day)
  {
  }

  /** Years 1 to 99 and 1901 to 1999 have the same leap years. */
  lemma LeapTwoDigitYear(y: int)
    requires 1 <= y <= 99
    ensures IsLeapYear(y) == IsLeapYear(1900 + y)
  {
    assert (1900 + y) % 4 == y % 4;
    assert (1900 + y) % 100 == y && y % 100 == y;
    assert (1900 + y) % 400 != 0 && y % 400 != 0;
  }

  /** A real date of years 1 to 99 goes through `Date.UTC` to the same day of the 1900s. */
  lemma FromUtcTwoDigitDate(d: Date)
    requires Valid(d) && 1 <= d.year <= 99
    ensures FromUtc(d.year, d.month - 1, d.day) == Date(1900 + d.year, d.month, d.day)
  {
    var e := Date(1900 + d.year, d.month, d.day);
    LeapTwoDigitYear(d.year);
    assert DaysInMonth(e.year, e.month) == DaysInMonth(d.year, d.month);
    FromUtcTwoDigitYear(d.year, d.month - 1, d.day);
    FromUtcOfValid(e);
  }

  /** For a real date of a year from 100 on, `Date.UTC` gives back that same date. */
  lemma FromUtcOfValid(d: Date)
    requires Valid(d) && d.year >= 100
    ensures FromUtc(d.year, d.month - 1, d.day) == d
  {
    AddDaysWithinMonth(d.year, d.month, 1, d.day - 1);
  }

  function Pow10(w: nat): nat {
    if w == 0 then 1 else 10 * Pow10(w - 1)
  }

  /** The last `width` decimal digits of `n`, zero-padded. */
  function Fixed(n: nat, width: nat): (r: string)
    ensures |r| == width
    ensures forall i :: 0 <= i < |r| ==> IsDigit(r[i])
  {
    if width == 0 then [] else Fixed(n / 10, width - 1) + [DigitChar(n % 10)]
  }

  /** The number a string of decimal digits denotes. */
  function DigitsValue(s: string): nat
    requires forall i :: 0 <= i < |s| ==> IsDigit(s[i])
  {
    if s == [] then 0
    else
      assert IsDigit(s[|s| - 1]);
      DigitsValue(s[..|s| - 1]) * 10 + (s[|s| - 1] as int - '0' as int)
  }

  /** Reading back a fixed-width numeral gives the number written. */
  lemma {:induction false} DigitsValueFixed(n: nat, width: nat)
    requires n < Pow10(width)
    ensures DigitsValue(Fixed(n, width)) == n
  {
    if width > 0 {
      assert n / 10 < Pow10(width - 1);
      DigitsValueFixed(n / 10, width - 1);
      var s := Fixed(n, width);
      assert s[..|s| - 1] == Fixed(n / 10, width - 1);
    }
  }

  /** `padStart(2, '0')` of a numeral below 100 is its two-digit form. */
  lemma PadStart2Fixed(n: nat)
    requires n < 100
    ensures PadStart2(NatToString(n)) == Fixed(n, 2)
  {
    if n >= 10 {
      assert NatToString(n) == NatToString(n / 10) + [DigitChar(n % 10)];
      assert (n / 10) % 10 == n / 10;
    } else {
      assert Fixed(n, 2) == Fixed(0, 1) + [DigitChar(n)];
    }
  }

  /** A four-digit year is written with four digits. */
  lemma NatToStringFourDigits(n: nat)
    requires 1000 <= n <= 9999
    ensures NatToString(n) == Fixed(n, 4)
  {
    var a, b, c := n / 10, n / 100, n / 1000;
    assert a / 10 == b && b / 10 == c && c < 10 && c % 10 == c;
    assert NatToString(c) == Fixed(c, 1);
    assert NatToString(b) == NatToString(c) + [DigitChar(b % 10)] == Fixed(b, 2);
    assert NatToString(a) == NatToString(b) + [DigitChar(a % 10)] == Fixed(a, 3);
    assert NatToString(n) == NatToString(a) + [DigitChar(n % 10)];
  }

  /** `toISOString().slice(0, 10)`: a six-digit signed year outside 0 to 9999. */
  function IsoDay(d: Date): string
    requires Valid(d)
  {
    if 0 <= d.year <= 9999 then Fixed(d.year, 4) + "-" + Fixed(d.month, 2) + "-" + Fixed(d.day, 2)
    else (if d.year < 0 then "-" else "+") + Fixed(if d.year < 0 then -d.year else d.year, 6)
         + "-" + Fixed(d.month, 2)
  }

  /** The shape `^\d{4}-\d{2}-\d{2}$`. */
  predicate YmdShape(s: string) {
    && |s| == 10 && s[4] == '-' && s[7] == '-'
    && (forall i :: 0 <= i < 4 ==> IsDigit(s[i]))
    && IsDigit(s[5]) && IsDigit(s[6]) && IsDigit(s[8]) && IsDigit(s[9])
  }

  function YearPart(s: string): nat requires YmdShape(s) { DigitsValue(s[..4]) }
  function MonthPart(s: string): nat requires YmdShape(s) { DigitsValue(s[5..7]) }
  function DayPart(s: string): nat requires YmdShape(s) { DigitsValue(s[8..10]) }

  /** The ISO form of a date of years 0 to 9999 has the shape, and its parts are that date's. */
  lemma {:induction false} IsoDayParts(d: Date)
    requires Valid(d) && 0 <= d.year <= 9999
    ensures YmdShape(IsoDay(d))
    ensures YearPart(IsoDay(d)) == d.year && MonthPart(IsoDay(d)) == d.month && DayPart(IsoDay(d)) == d.day
  {
    var s := IsoDay(d);
    assert s[..4] == Fixed(d.year, 4);
    assert s[5..7] == Fixed(d.month, 2);
    assert s[8..10] == Fixed(d.day, 2);
    DigitsValueFixed(d.year, 4);
    DigitsValueFixed(d.month, 2);
    DigitsValueFixed(d.day, 2);
  }
}
