/** The proleptic Gregorian calendar as Go's `time` package sees it, and the
    field normalisation that `time.Date` applies to an out-of-range month or
    day before it builds a date. */
module Calendar {

  /** A calendar date: year, month (1..12 when valid) and day of the month. */
  datatype Date = Date(year: int, month: int, day: int)

  /** A year and a month, the result of normalising the month alone. */
  datatype YearMonth = YearMonth(year: int, month: int)

  /** Gregorian leap years: divisible by 4, except centuries not divisible by 400. */
  predicate IsLeapYear(y: int) {
    y % 4 == 0 && (y % 100 != 0 || y % 400 == 0)
  }

  function DaysInMonth(y: int, m: int): (n: int)
    requires 1 <= m <= 12
    ensures 28 <= n <= 31
    ensures m == 2 ==> (n == 29 <==> IsLeapYear(y))
    ensures m != 2 ==> (n == 31 <==> m in {1, 3, 5, 7, 8, 10, 12})
  {
    if m == 2 then (if IsLeapYear(y) then 29 else 28)
    else if m == 4 || m == 6 || m == 9 || m == 11 then 30
    else 31
  }

  predicate Valid(d: Date) {
    1 <= d.month <= 12 && 1 <= d.day <= DaysInMonth(d.year, d.month)
  }

  /** Chronological order of dates: year first, then month, then day. */
  predicate Before(a: Date, b: Date) {
    a.year < b.year
    || (a.year == b.year && a.month < b.month)
    || (a.year == b.year && a.month == b.month && a.day < b.day)
  }

  predicate BeforeOrSame(a: Date, b: Date) {
    Before(a, b) || a == b
  }

  /** The first day of the month that contains `d`. */
  function FirstOfMonth(d: Date): (r: Date)
    requires Valid(d)
    ensures Valid(r) && r.day == 1 && BeforeOrSame(r, d)
    ensures r.year == d.year && r.month == d.month
  {
    Date(d.year, d.month, 1)
  }

  /** Reference definition of the calendar day after a valid date. */
  function NextDay(d: Date): (r: Date)
    requires Valid(d)
    ensures Valid(r) && Before(d, r)
  {
    if d.day < DaysInMonth(d.year, d.month) then Date(d.year, d.month, d.day + 1)
    else if d.month < 12 then Date(d.year, d.month + 1, 1)
    else Date(d.year + 1, 1, 1)
  }

  /** Reference definition of the calendar day before a valid date. */
  function PrevDay(d: Date): (r: Date)
    requires Valid(d)
    ensures Valid(r) && Before(r, d)
  {
    if d.day > 1 then Date(d.year, d.month, d.day - 1)
    else if d.month > 1 then Date(d.year, d.month - 1, DaysInMonth(d.year, d.month - 1))
    else Date(d.year - 1, 12, 31)
  }

  /** NextDay and PrevDay undo each other. */
  lemma NextPrevInverse(d: Date)
    requires Valid(d)
    ensures NextDay(PrevDay(d)) == d
    ensures PrevDay(NextDay(d)) == d
  {
  }

  /** No valid date lies strictly between a date and the day after it. */
  lemma NextDayIsImmediate(d: Date, x: Date)
    requires Valid(d) && Valid(x)
    ensures Before(d, x) <==> BeforeOrSame(NextDay(d), x)
  {
  }

  /** Go's month normalisation in `time.Date`: the month index `m - 1` is
      brought into 0..11 by floor division by 12 and the quotient is carried
      into the year, so month 0 is December of the previous year and month
      13 is January of the next. */
  function NormalizeMonth(y: int, m: int): (r: YearMonth)
    ensures 1 <= r.month <= 12
    ensures 12 * r.year + r.month == 12 * y + m
  {
    YearMonth(y + (m - 1) / 12, (m - 1) % 12 + 1)
  }

  /** A month already in range is left alone. */
  lemma NormalizeMonthInRange(y: int, m: int)
    requires 1 <= m <= 12
    ensures NormalizeMonth(y, m) == YearMonth(y, m)
  {
  }

  /** Go's `time.Date(y, m, d, 0, 0, 0, 0, loc)` on the date fields: the month
      is normalised first, then a day below 1 borrows whole months from the
      past and a day past the end of the month carries whole months into the
      future, so day 0 is the last day of the previous month, honouring leap
      years. Every integer triple names a valid date. */
  function Normalize(y: int, m: int, d: int): (r: Date)
    ensures Valid(r)
    decreases if d < 1 then 1 else 0, if d < 1 then -d else d
  {
    var ym := NormalizeMonth(y, m);
    if d < 1 then
      var prev := NormalizeMonth(ym.year, ym.month - 1);
      Normalize(prev.year, prev.month, d + DaysInMonth(prev.year, prev.month))
    else if d > DaysInMonth(ym.year, ym.month) then
      var next := NormalizeMonth(ym.year, ym.month + 1);
      Normalize(next.year, next.month, d - DaysInMonth(ym.year, ym.month))
    else
      Date(ym.year, ym.month, d)
  }

  /** Normalising a valid date gives the date back. */
  lemma NormalizeValid(d: Date)
    requires Valid(d)
    ensures Normalize(d.year, d.month, d.day) == d
  {
    NormalizeMonthInRange(d.year, d.month);
  }

  /** Day 1 of a normalised month is the first of that month. */
  lemma NormalizeFirst(y: int, m: int)
    ensures Normalize(y, m, 1) == Date(NormalizeMonth(y, m).year, NormalizeMonth(y, m).month, 1)
  {
  }

  /** Adding one to the day field moves the normalised date one calendar day
      forward. Together with NormalizeFirst this pins Normalize down for every
      day value: `time.Date(y, m, d)` is the date `d - 1` days after the first
      of month `m` of year `y`. */
  lemma {:induction false} NormalizeShift(y: int, m: int, d: int)
    ensures Normalize(y, m, d + 1) == NextDay(Normalize(y, m, d))
    decreases if d < 1 then 1 else 0, if d < 1 then -d else d
  {
    var ym := NormalizeMonth(y, m);
    var dim := DaysInMonth(ym.year, ym.month);
    if d < 0 {
      var prev := NormalizeMonth(ym.year, ym.month - 1);
      NormalizeShift(prev.year, prev.month, d + DaysInMonth(prev.year, prev.month));
    } else if d == 0 {
      var prev := NormalizeMonth(ym.year, ym.month - 1);
      var last := Date(prev.year, prev.month, DaysInMonth(prev.year, prev.month));
      NormalizeValid(last);
      NormalizeMonthInRange(ym.year, ym.month);
      assert NextDay(last) == Date(ym.year, ym.month, 1);
    } else if d < dim {
    } else if d == dim {
      var next := NormalizeMonth(ym.year, ym.month + 1);
      NormalizeMonthInRange(next.year, next.month);
      assert Normalize(y, m, d + 1) == Date(next.year, next.month, 1);
    } else {
      var next := NormalizeMonth(ym.year, ym.month + 1);
      NormalizeShift(next.year, next.month, d - dim);
    }
  }

  /** Subtracting one from the day field moves the normalised date one
      calendar day back; in particular day 0 is the day before the first. */
  lemma NormalizeUnshift(y: int, m: int, d: int)
    ensures Normalize(y, m, d - 1) == PrevDay(Normalize(y, m, d))
  {
    NormalizeShift(y, m, d - 1);
    NextPrevInverse(Normalize(y, m, d - 1));
  }
}
