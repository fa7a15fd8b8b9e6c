/**
 * Calendar values: chrono's `NaiveDateTime`, and the one constructor the program
 * calls with values it did not parse itself, `NaiveDate::from_ymd(y, m, 1)` at
 * midnight (src/main.rs:388-391 and 476-479).
 */
module Dates {
  import opened Wrappers

  datatype DateTime = DateTime(year: int, month: int, day: int, hour: int, minute: int, second: int)

  /** The years chrono's `NaiveDate` can hold. */
  const MinYear: int := -262144
  const MaxYear: int := 262143

  /** `NaiveDate::from_ymd(year, month, 1)` with `NaiveTime::from_hms(0, 0, 0)`;
   *  None where chrono panics (a month outside 1..12, or a year it cannot hold). */
  function FirstOfMonth(year: int, month: int): (r: Option<DateTime>)
    ensures r.Some? <==> MinYear <= year <= MaxYear && 1 <= month <= 12
    ensures r.Some? ==> r.value.year == year && r.value.month == month && r.value.day == 1
    ensures r.Some? ==> r.value.hour == 0 && r.value.minute == 0 && r.value.second == 0
  {
    if MinYear <= year <= MaxYear && 1 <= month <= 12 then Some(DateTime(year, month, 1, 0, 0, 0))
    else None
  }
}
