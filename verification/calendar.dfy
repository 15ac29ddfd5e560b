/**
 * Calendar dates and naive date-times as Python's `datetime` module represents
 * them: proleptic Gregorian calendar, years 1 through 9999, no time zone.
 */
module Calendar {

  /** The range `datetime.MINYEAR .. datetime.MAXYEAR`. */
  const MinYear := 1
  const MaxYear := 9999

  /** A calendar date (year, month, day). */
  datatype Date = Date(year: int, month: int, day: int)

  /** A naive `datetime.datetime`: a date plus a time of day down to microseconds. */
  datatype DateTime = DateTime(year: int, month: int, day: int,
                               hour: int, minute: int, second: int, microsecond: int)

  /** Gregorian leap-year rule. */
  predicate IsLeapYear(y: int) {
    y % 4 == 0 && (y % 100 != 0 || y % 400 == 0)
  }

  function DaysInMonth(y: int, m: int): (n: int)
    requires 1 <= m <= 12
    ensures 28 <= n <= 31
    ensures n == 31 <==> m in {1, 3, 5, 7, 8, 10, 12}
    ensures n == 29 <==> m == 2 && IsLeapYear(y)
  {
    if m == 2 then (if IsLeapYear(y) then 29 else 28)
    else if m == 4 || m == 6 || m == 9 || m == 11 then 30
    else 31
  }

  /** The check `datetime.date(year, month, day)` performs before it accepts a date. */
  predicate ValidDate(d: Date) {
    && MinYear <= d.year <= MaxYear
    && 1 <= d.month <= 12
    && 1 <= d.day <= DaysInMonth(d.year, d.month)
  }

  function DateOf(t: DateTime): Date {
    Date(t.year, t.month, t.day)
  }

  /** Every value a `datetime.datetime` object can hold. */
  predicate ValidDateTime(t: DateTime) {
    && ValidDate(DateOf(t))
    && 0 <= t.hour < 24
    && 0 <= t.minute < 60
    && 0 <= t.second < 60
    && 0 <= t.microsecond < 1000000
  }

  /** The date-time at 00:00:00.000000 of `d`, which is what `strptime` yields for a date-only format. */
  function AtMidnight(d: Date): (t: DateTime)
    ensures DateOf(t) == d
    ensures ValidDate(d) <==> ValidDateTime(t)
  {
    DateTime(d.year, d.month, d.day, 0, 0, 0, 0)
  }

  /** `a < b` on naive datetimes: fields compared lexicographically, year first. */
  predicate Earlier(a: DateTime, b: DateTime) {
    if a.year != b.year then a.year < b.year
    else if a.month != b.month then a.month < b.month
    else if a.day != b.day then a.day < b.day
    else if a.hour != b.hour then a.hour < b.hour
    else if a.minute != b.minute then a.minute < b.minute
    else if a.second != b.second then a.second < b.second
    else a.microsecond < b.microsecond
  }

  /** `Earlier` is a strict total order: irreflexive, transitive, and any two distinct values are comparable. */
  lemma EarlierIsStrictTotalOrder(a: DateTime, b: DateTime, c: DateTime)
    ensures !Earlier(a, a)
    ensures Earlier(a, b) && Earlier(b, c) ==> Earlier(a, c)
    ensures a == b || Earlier(a, b) || Earlier(b, a)
    ensures !(Earlier(a, b) && Earlier(b, a))
  {
  }

  /** "Not earlier" (that is, `>=`) is transitive. */
  lemma NotEarlierTransitive(a: DateTime, b: DateTime, c: DateTime)
    requires !Earlier(a, b) && !Earlier(b, c)
    ensures !Earlier(a, c)
  {
  }

}
