/** Calendar dates as `java.time.LocalDate` compares them. */
module Dates {

  /** A calendar day; `LocalDate` orders days by year, then month, then day of month. */
  datatype Date = Date(year: int, month: int, day: int)

  /** `a.isBefore(b)`. */
  predicate Before(a: Date, b: Date) {
    || a.year < b.year
    || (a.year == b.year && a.month < b.month)
    || (a.year == b.year && a.month == b.month && a.day < b.day)
  }

  /** `a.isAfter(b)`. */
  predicate After(a: Date, b: Date) {
    Before(b, a)
  }

  /** `isBefore` is a strict total order on days. */
  lemma BeforeIsStrictTotalOrder(a: Date, b: Date, c: Date)
    ensures !Before(a, a)
    ensures Before(a, b) && Before(b, c) ==> Before(a, c)
    ensures a == b || Before(a, b) || Before(b, a)
  {
  }

  /** `a` is before the day after `b` exactly when `a` is not after `b`: nothing lies between
      two consecutive days of one month. */
  lemma BeforeNextDay(a: Date, b: Date)
    ensures Before(a, b.(day := b.day + 1)) <==> !After(a, b)
  {
  }
}
