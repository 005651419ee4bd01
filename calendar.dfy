/**
 * Calendar dates as the engine reads them: a `YYYY-MM-DD` field becomes a
 * JS Date (index.ts:61), whose UTC year and month drive the year filter,
 * `lastAvailableMonth` and the monthly period key (index.ts:150, 157-160).
 * V8 accepts months 01-12 and days 01-31 in such a text and rolls a day
 * past the end of its month over into the next month.
 */
module Calendar {

  /** The three numbers of a `YYYY-MM-DD` text, as written. */
  datatype Date = Date(year: int, month: int, day: int)

  /** A date whose parts come from 4-, 2- and 2-digit runs. */
  type CsvDate = d: Date | 0 <= d.year <= 9999 && 0 <= d.month <= 99 && 0 <= d.day <= 99
    witness Date(0, 0, 0)

  /** The text parses to a valid Date (otherwise JS yields an Invalid Date). */
  predicate Parses(d: Date) {
    1 <= d.month <= 12 && 1 <= d.day <= 31
  }

  predicate IsLeapYear(y: int) {
    (y % 4 == 0 && y % 100 != 0) || y % 400 == 0
  }

  function DaysInMonth(y: int, m: int): (n: int)
    requires 1 <= m <= 12
    ensures 28 <= n <= 31
  {
    if m == 2 then (if IsLeapYear(y) then 29 else 28)
    else if m == 4 || m == 6 || m == 9 || m == 11 then 30
    else 31
  }

  /** getUTCFullYear(): a roll-over never leaves the year, since December has 31 days. */
  function UtcYear(d: Date): int
    requires Parses(d)
  {
    d.year
  }

  /** getUTCMonth(): the 0-based month after a day past the month's end has rolled over. */
  function UtcMonth(d: Date): (m: int)
    requires Parses(d)
    ensures 0 <= m <= 11
    ensures d.day <= DaysInMonth(d.year, d.month) ==> m == d.month - 1
    ensures d.day > DaysInMonth(d.year, d.month) ==> m == d.month
  {
    if d.day > DaysInMonth(d.year, d.month) then d.month else d.month - 1
  }
}
