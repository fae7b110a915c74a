/**
 * Calendar dates of the proleptic Gregorian calendar, as both Python's
 * `datetime` and JavaScript's `Date` use it, and the step to the adjacent
 * day that `Date.setDate(getDate() ± 1)` performs.
 */
module Calendar {

  datatype Date = Date(year: int, month: int, day: int)

  predicate IsLeapYear(y: int) {
    y % 4 == 0 && (y % 100 != 0 || y % 400 == 0)
  }

  function DaysInMonth(y: int, m: int): (n: int)
    requires 1 <= m <= 12
    ensures 28 <= n <= 31
  {
    if m == 2 then (if IsLeapYear(y) then 29 else 28)
    else if m == 4 || m == 6 || m == 9 || m == 11 then 30
    else 31
  }

  predicate IsValid(d: Date) {
    1 <= d.month <= 12 && 1 <= d.day <= DaysInMonth(d.year, d.month)
  }

  /** Chronological order of dates. */
  predicate Before(a: Date, b: Date) {
    a.year < b.year
    || (a.year == b.year && (a.month < b.month || (a.month == b.month && a.day < b.day)))
  }

  /** The following calendar day (month and year roll over). */
  function NextDay(d: Date): (r: Date)
    requires IsValid(d)
    ensures IsValid(r) && Before(d, r)
  {
    if d.day < DaysInMonth(d.year, d.month) then Date(d.year, d.month, d.day + 1)
    else if d.month < 12 then Date(d.year, d.month + 1, 1)
    else Date(d.year + 1, 1, 1)
  }

  /** The preceding calendar day (month and year roll back). */
  function PrevDay(d: Date): (r: Date)
    requires IsValid(d)
    ensures IsValid(r) && Before(r, d)
  {
    if d.day > 1 then Date(d.year, d.month, d.day - 1)
    else if d.month > 1 then Date(d.year, d.month - 1, DaysInMonth(d.year, d.month - 1))
    else Date(d.year - 1, 12, 31)
  }

  /** Stepping forward and then back returns to the same day. */
  lemma PrevOfNext(d: Date)
    requires IsValid(d)
    ensures PrevDay(NextDay(d)) == d
  {
  }

  /** Stepping back and then forward returns to the same day. */
  lemma NextOfPrev(d: Date)
    requires IsValid(d)
    ensures NextDay(PrevDay(d)) == d
  {
  }

  /** No valid date lies strictly between a day and the day after it. */
  lemma NextDayIsAdjacent(d: Date, e: Date)
    requires IsValid(d) && IsValid(e) && Before(d, e)
    ensures e == NextDay(d) || Before(NextDay(d), e)
  {
  }
}
