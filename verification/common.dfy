/**
 Shared vocabulary of the SaaS usage pipeline: optional values, calendar
 dates and the month bucket that the monthly roll-up groups by.
 */
module Common {

  /** A value that may be missing (pandas' NaN after a left join). */
  datatype Option<+T> = None | Some(value: T)

  /** A calendar date as written by the generators (`%Y-%m-%d`). */
  datatype Date = Date(year: int, month: int, day: int)

  /** A month bucket: the `Period('M')` a date falls into. */
  datatype Month = Month(year: int, month: int)

  /** The month bucket of a date: `to_period('M')`. */
  function MonthOf(d: Date): Month
  {
    Month(d.year, d.month)
  }

  /** True when `d` is a day of the calendar month `m`. */
  predicate InMonth(d: Date, m: Month)
  {
    d.year == m.year && d.month == m.month
  }

  /** No element occurs twice. */
  predicate Distinct<T(==)>(xs: seq<T>)
  {
    forall i, j :: 0 <= i < j < |xs| ==> xs[i] != xs[j]
  }

  /** Sum of a sequence of naturals. */
  function Sum(xs: seq<nat>): nat
  {
    if |xs| == 0 then 0 else Sum(xs[..|xs| - 1]) + xs[|xs| - 1]
  }
}
