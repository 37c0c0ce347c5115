/** The `@AfterCinemaBirthday` constraint (`CinemaBirthdayConstraintValidator`). */
module CinemaBirthday {
  import opened Dates
  import opened Validator

  /** The day before the first public film screening. */
  const CinemaBirthday := Date(1895, 12, 27)

  /** `isValid`: the date is strictly after 27 December 1895, so no accepted date lies before
      1895 or is the 27th itself. */
  predicate IsValid(d: Date)
    ensures IsValid(d) ==> d.year >= 1895 && d != CinemaBirthday
  {
    After(d, CinemaBirthday)
  }

  /** The annotation accepts exactly the release dates that `Validator.validateFilmDate` accepts:
      "after the 27th" and "not before the 28th" are the same condition on calendar days. */
  lemma AgreesWithValidateFilmDate(f: Films.Film)
    ensures IsValid(f.releaseDate) <==> ValidateFilmDate(f).Pass?
  {
    BeforeNextDay(f.releaseDate, CinemaBirthday);
  }

  /** 1895-12-28 is accepted and 1895-12-27 is rejected. */
  lemma Boundary()
    ensures IsValid(Date(1895, 12, 28))
    ensures !IsValid(Date(1895, 12, 27))
  {
  }

  /** The check is monotone: any date after an accepted one is accepted. */
  lemma Monotone(d: Date, later: Date)
    requires IsValid(d) && After(later, d)
    ensures IsValid(later)
  {
    BeforeIsStrictTotalOrder(CinemaBirthday, d, later);
  }

  /** There is no upper bound: every year after 1895 has only accepted days. */
  lemma NoUpperBound(d: Date)
    requires d.year > 1895
    ensures IsValid(d)
  {
  }
}
