/** DailyHoursService.java: read-only queries over the hours table. */
module DailyHoursService {
  import opened Wrappers
  import opened Temporal
  import opened DailyHoursData

  /** getHoursForDay: findById on the day. */
  function GetHoursForDay(table: HoursTable, date: Date): (r: Option<DailyHours>)
    ensures r.None? <==> date !in table
    ensures Keyed(table) && r.Some? ==> r.value.day == date && r.value in table.Values
  {
    if date in table then Some(table[date]) else None
  }

  /** findByDayBetweenOrderByDayAsc: the rows whose day lies in [lo, hi],
      both ends included, in ascending day order. */
  function FindByDayBetween(table: HoursTable, lo: Date, hi: Date): (r: seq<DailyHours>)
    requires Keyed(table)
    ensures forall k :: 0 <= k < |r| ==> r[k] in table.Values && lo <= r[k].day <= hi
    ensures forall i, j :: 0 <= i < j < |r| ==> r[i].day < r[j].day
    ensures forall d :: lo <= d <= hi && d in table ==> table[d] in r
    ensures |r| <= (if lo <= hi then hi - lo + 1 else 0)
    decreases hi - lo + 1
  {
    if lo > hi then []
    else (if lo in table then [table[lo]] else []) + FindByDayBetween(table, lo + 1, hi)
  }

  /** The week getHoursForCurrentWeek asks for: from the Sunday on or
      before today to the Sunday after it. */
  function CurrentWeekStart(today: Date): Date
  {
    PreviousOrSameSunday(today)
  }

  /** getHoursForCurrentWeek: the rows from the Sunday on or before today
      through one week later, both ends included, so up to eight rows. */
  function GetHoursForCurrentWeek(table: HoursTable, today: Date): (r: seq<DailyHours>)
    requires Keyed(table)
    ensures |r| <= 8
    ensures DayOfWeek(CurrentWeekStart(today)) == SUNDAY
    ensures CurrentWeekStart(today) <= today < CurrentWeekStart(today) + 7
    ensures forall k :: 0 <= k < |r| ==>
              && r[k] in table.Values
              && CurrentWeekStart(today) <= r[k].day <= CurrentWeekStart(today) + 7
    ensures forall i, j :: 0 <= i < j < |r| ==> r[i].day < r[j].day
    ensures forall d :: CurrentWeekStart(today) <= d <= CurrentWeekStart(today) + 7 && d in table ==> table[d] in r
  {
    var start := CurrentWeekStart(today);
    FindByDayBetween(table, start, start + 7)
  }
}
