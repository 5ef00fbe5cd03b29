/**
  The period check the save and load commands run before anything else:
  the month first, then the year.
 */
module Validation {
  import opened Optional

  const MONTH_ERROR := "Mês deve estar entre 1 e 12."
  const YEAR_ERROR := "Ano deve estar entre 2000 e 2100."

  /** The reply that rejects the period, or `None` when it is accepted. */
  function PeriodError(month: int, year: int): (r: Option<string>)
    ensures r.Some? ==> r.value == MONTH_ERROR || r.value == YEAR_ERROR
  {
    if !(1 <= month <= 12) then Some(MONTH_ERROR)
    else if year < 2000 || year > 2100 then Some(YEAR_ERROR)
    else None
  }

  /** A period is accepted exactly when the month is in 1..12 and the year in
      2000..2100; a bad month is reported whatever the year, a bad year only
      with a good month. */
  lemma PeriodErrorCases(month: int, year: int)
    ensures PeriodError(month, year).None? <==> 1 <= month <= 12 && 2000 <= year <= 2100
    ensures PeriodError(month, year) == Some(MONTH_ERROR) <==> !(1 <= month <= 12)
    ensures PeriodError(month, year) == Some(YEAR_ERROR) <==> 1 <= month <= 12 && !(2000 <= year <= 2100)
  {
  }
}
