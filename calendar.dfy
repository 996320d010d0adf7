/** Civil (proleptic Gregorian) dates: the one-year step `setFullYear(getFullYear() + 1)`
    performs and the `YYYY-MM-DD` text of `toISOString().split('T')[0]`. */
module Calendar {
  import opened Text
  import opened Js

  datatype Date = Date(year: int, month: int, day: int)

  predicate Leap(y: int) {
    y % 4 == 0 && (y % 100 != 0 || y % 400 == 0)
  }

  function DaysInMonth(y: int, m: int): int
    requires 1 <= m <= 12
  {
    if m == 2 then (if Leap(y) then 29 else 28)
    else if m == 4 || m == 6 || m == 9 || m == 11 then 30
    else 31
  }

  predicate Valid(d: Date) {
    1 <= d.month <= 12 && 1 <= d.day <= DaysInMonth(d.year, d.month)
  }

  /** Days of year `y` before the first of month `m`. */
  function DaysBeforeMonth(y: int, m: int): int
    requires 1 <= m <= 12
  {
    var cumulative := [0, 31, 59, 90, 120, 151, 181, 212, 243, 273, 304, 334];
    cumulative[m - 1] + if m > 2 && Leap(y) then 1 else 0
  }

  /** Leap years in [0, y) (negated count for negative `y`). */
  function LeapsBefore(y: int): int {
    (y + 3) / 4 - (y + 99) / 100 + (y + 399) / 400
  }

  function DaysBeforeYear(y: int): int {
    365 * y + LeapsBefore(y)
  }

  /** The day that `MakeDay(y, m, d)` denotes, counting 0000-01-01 as day 0; a day past
      the end of the month runs on into the next one. */
  function DayNumber(y: int, m: int, d: int): int
    requires 1 <= m <= 12
  {
    DaysBeforeYear(y) + DaysBeforeMonth(y, m) + d - 1
  }

  function Ordinal(d: Date): int
    requires 1 <= d.month <= 12
  {
    DayNumber(d.year, d.month, d.day)
  }

  /** The date one calendar year after `d`, as `setFullYear(year + 1)` leaves it:
      month and day are kept, and a February 29 with no counterpart runs on to March 1. */
  function NextYear(d: Date): (r: Date)
    requires Valid(d)
    ensures Valid(r) && r.year == d.year + 1
  {
    if d.month == 2 && d.day == 29 && !Leap(d.year + 1) then Date(d.year + 1, 3, 1)
    else Date(d.year + 1, d.month, d.day)
  }

  /** `NextYear` is the valid date naming the day `MakeDay(year + 1, month, day)` denotes;
      only one valid date names it, since `Ordinal` is one-to-one on valid dates. */
  lemma NextYearIsMakeDay(d: Date)
    requires Valid(d)
    ensures Ordinal(NextYear(d)) == DayNumber(d.year + 1, d.month, d.day)
  {
  }

  lemma LeapStep(y: int)
    ensures LeapsBefore(y + 1) - LeapsBefore(y) == if Leap(y) then 1 else 0
  {
    StepBy4(y);
    StepBy100(y);
    StepBy400(y);
    Divisibility(y);
  }

  lemma Divisibility(y: int)
    ensures y % 400 == 0 ==> y % 100 == 0
    ensures y % 100 == 0 ==> y % 4 == 0
  {
    if y % 400 == 0 {
      var q := y / 400;
      assert y / 100 == 4 * q;
    }
    if y % 100 == 0 {
      var q := y / 100;
      assert y / 4 == 25 * q;
    }
  }

  /** Year `y` has 366 days iff it is a leap year. */
  lemma YearLength(y: int)
    ensures DaysBeforeYear(y + 1) - DaysBeforeYear(y) == if Leap(y) then 366 else 365
  {
    LeapStep(y);
  }

  lemma StepBy4(y: int)
    ensures (y + 4) / 4 - (y + 3) / 4 == if y % 4 == 0 then 1 else 0
  {
  }

  lemma StepBy100(y: int)
    ensures (y + 100) / 100 - (y + 99) / 100 == if y % 100 == 0 then 1 else 0
  {
  }

  lemma StepBy400(y: int)
    ensures (y + 400) / 400 - (y + 399) / 400 == if y % 400 == 0 then 1 else 0
  {
  }

  /** One year on is 366 days exactly when a February 29 falls in between, 365 otherwise. */
  lemma NextYearSpan(d: Date)
    requires Valid(d)
    ensures Ordinal(NextYear(d)) - Ordinal(d)
            == if (d.month <= 2 && Leap(d.year)) || (d.month > 2 && Leap(d.year + 1)) then 366 else 365
  {
    var y, m := d.year, d.month;
    if m == 2 && d.day == 29 {
      LeapDaySpan(y);
      assert NextYear(d) == Date(y + 1, 3, 1);
    } else {
      assert NextYear(d) == Date(y + 1, m, d.day);
      SameMonthNextYear(y, m, d.day);
    }
  }

  /** After a leap year's February 29 the next year has none, and its March 1 is 366 days on. */
  lemma LeapDaySpan(y: int)
    requires Leap(y)
    ensures !Leap(y + 1)
    ensures DayNumber(y + 1, 3, 1) - DayNumber(y, 2, 29) == 366
  {
    LeapSuccessor(y);
    YearLength(y);
    assert DaysBeforeMonth(y + 1, 3) == 59 && DaysBeforeMonth(y, 2) == 31;
  }

  /** The year after a leap year is not one. */
  lemma LeapSuccessor(y: int)
    requires Leap(y)
    ensures !Leap(y + 1)
  {
    var q := y / 4;
    assert (y + 1) / 4 == q;
  }

  /** The same month and day one year on: a year's length, adjusted by which of the two
      years has a February 29 before that month. */
  lemma SameMonthNextYear(y: int, m: int, day: int)
    requires 1 <= m <= 12
    ensures DayNumber(y + 1, m, day) - DayNumber(y, m, day)
            == if (m <= 2 && Leap(y)) || (m > 2 && Leap(y + 1)) then 366 else 365
  {
    YearLength(y);
    assert DaysBeforeMonth(y + 1, m) - DaysBeforeMonth(y, m)
           == (if m > 2 && Leap(y + 1) then 1 else 0) - (if m > 2 && Leap(y) then 1 else 0);
  }

  function Zeros(k: nat): (s: string)
    ensures |s| == k && AllDigits(s)
    ensures forall i :: 0 <= i < k ==> s[i] == '0'
  {
    seq(k, i => '0')
  }

  /** Decimal text left-padded with zeros to at least `width` characters. */
  function Pad(n: nat, width: nat): (s: string)
    ensures AllDigits(s)
    ensures |s| == if |NatToString(n)| >= width then |NatToString(n)| else width
  {
    var t := NatToString(n);
    if |t| >= width then t else Zeros(width - |t|) + t
  }

  /** The year as `toISOString` writes it: four digits for 0..9999, otherwise a sign and six. */
  function YearText(y: int): string {
    if 0 <= y <= 9999 then Pad(y, 4)
    else (if y < 0 then "-" else "+") + Pad(if y < 0 then -y else y, 6)
  }

  /** The date part of `toISOString()`. */
  function IsoDate(d: Date): string
    requires Valid(d)
  {
    YearText(d.year) + "-" + Pad(d.month, 2) + "-" + Pad(d.day, 2)
  }

  /** Reads `YYYY-MM-DD` back; anything else is not a four-digit-year ISO date. */
  function ParseIsoDate(s: string): Option<Date>
  {
    if |s| == 10 && s[4] == '-' && s[7] == '-'
       && AllDigits(s[..4]) && AllDigits(s[5..7]) && AllDigits(s[8..])
    then Some(Date(DigitsValue(s[..4]), DigitsValue(s[5..7]), DigitsValue(s[8..])))
    else None
  }

  lemma {:induction false} DigitsValueZeros(k: nat, t: string)
    requires AllDigits(t)
    ensures DigitsValue(Zeros(k) + t) == DigitsValue(t)
    decreases |t|
  {
    var s := Zeros(k) + t;
    if t == [] {
      assert s == Zeros(k);
      ZerosValue(k);
    } else {
      assert s[..|s| - 1] == Zeros(k) + t[..|t| - 1];
      DigitsValueZeros(k, t[..|t| - 1]);
    }
  }

  lemma {:induction false} ZerosValue(k: nat)
    ensures DigitsValue(Zeros(k)) == 0
  {
    if k > 0 {
      assert Zeros(k)[..k - 1] == Zeros(k - 1);
      ZerosValue(k - 1);
    }
  }

  lemma PadValue(n: nat, width: nat)
    ensures DigitsValue(Pad(n, width)) == n
  {
    DigitsValueOfNatToString(n);
    var t := NatToString(n);
    if |t| < width {
      DigitsValueZeros(width - |t|, t);
    }
  }

  /** The ISO date text of a date with a four-digit year reads back as that date. */
  lemma IsoDateRoundTrip(d: Date)
    requires Valid(d) && 0 <= d.year <= 9999
    ensures ParseIsoDate(IsoDate(d)) == Some(d)
  {
    NatToStringLength(d.year, 4);
    NatToStringLength(d.month, 2);
    NatToStringLength(d.day, 2);
    var y, m, dd := Pad(d.year, 4), Pad(d.month, 2), Pad(d.day, 2);
    var s := IsoDate(d);
    assert s == y + "-" + m + "-" + dd;
    assert s[..4] == y && s[5..7] == m && s[8..] == dd;
    PadValue(d.year, 4);
    PadValue(d.month, 2);
    PadValue(d.day, 2);
  }

  function Pow10(k: nat): (p: nat)
    ensures p >= 1
  {
    if k == 0 then 1 else 10 * Pow10(k - 1)
  }

  /** A number below 10^k has at most k digits. */
  lemma {:induction false} NatToStringLength(n: nat, k: nat)
    requires 1 <= k && n < Pow10(k)
    ensures |NatToString(n)| <= k
    decreases k
  {
    if n >= 10 {
      assert k >= 2;
      NatToStringLength(n / 10, k - 1);
    }
  }
}
