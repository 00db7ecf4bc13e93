/** DailyHours.java: one row of the hours table, keyed by its day. */
module DailyHoursData {
  import opened Wrappers
  import opened Temporal

  /** A row: the day (primary key), the opening and closing times (null
      when absent) and the closed flag. Lombok's generated equals compares
      the four fields, which is datatype equality here. */
  datatype DailyHours = DailyHours(day: Date, opening: Option<Time>, closing: Option<Time>, closed: bool)
  {
    /** getOpeningLocalTime: empty exactly when opening is null. */
    function OpeningLocalTime(): (r: Option<Time>)
      ensures r.None? <==> opening.None?
      ensures opening.Some? ==> r == Some(opening.value)
    {
      if opening.None? then None else Some(opening.value)
    }

    /** getClosingLocalTime: empty exactly when closing is null. */
    function ClosingLocalTime(): (r: Option<Time>)
      ensures r.None? <==> closing.None?
      ensures closing.Some? ==> r == Some(closing.value)
    {
      if closing.None? then None else Some(closing.value)
    }

    /** The shape every row written by the hours engine has: a closed day
        has no times, an open day has both. */
    predicate WellFormed()
    {
      if closed then opening.None? && closing.None? else opening.Some? && closing.Some?
    }

    /** What a reader of an open row relies on: it has both times. */
    predicate Timed()
    {
      !closed ==> opening.Some? && closing.Some?
    }
  }

  /** The table as a map from the primary key to the row: at most one row
      per date, and each row sits under its own day. */
  type HoursTable = map<Date, DailyHours>

  ghost predicate Keyed(table: HoursTable)
  {
    forall d :: d in table ==> table[d].day == d
  }

  ghost predicate AllWellFormed(table: HoursTable)
  {
    forall d :: d in table ==> table[d].WellFormed()
  }

  /** Every open row of the table has both times; closed rows may carry
      any times, since readers skip them first. */
  ghost predicate OpenRowsTimed(table: HoursTable)
  {
    forall d :: d in table ==> table[d].Timed()
  }

  /** The rows the hours engine writes are well formed, so their open rows
      carry both times. */
  lemma WellFormedRowsAreTimed(table: HoursTable)
    requires AllWellFormed(table)
    ensures OpenRowsTimed(table)
  {
  }
}
