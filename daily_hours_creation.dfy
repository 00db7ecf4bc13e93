/** DailyHoursCreationService.java: the hourly job that computes the
    mikvah's opening hours for three weeks from the zmanim and writes them
    into the hours table. */
module DailyHoursCreation {
  import opened Wrappers
  import opened Temporal
  import opened Zmanim
  import opened DailyHoursData

  /** The mikvah should generally not be open past 11:00 PM. */
  const LATEST_CLOSING_TIME: Time := Of(23, 0)

  /** The mikvah should generally not close before 9:30 PM. */
  const EARLIEST_CLOSING_TIME: Time := Of(21, 30)

  /** The mikvah should be open at least two hours, in seconds. */
  const MINIMUM_OPEN_DURATION: int := 7200

  /** The closing used when the computed closing falls after midnight. */
  const JUST_BEFORE_MIDNIGHT: Time := Of(23, 59)

  /** A time on a five-minute mark: whole minutes, minute divisible by five. */
  predicate OnFiveMinuteMark(t: Time)
  {
    t % 300 == 0
  }

  /** r lies less than five minutes after base, going forward round the
      clock: later the same day, or early the next day. */
  predicate WithinFiveMinutesAfter(base: int, r: int)
  {
    base <= r < base + 300 || base <= r + SECONDS_PER_DAY < base + 300
  }

  /** roundToNextTimeEndingIn5or0: the first five-minute mark at or after
      the time's whole minute, wrapping past midnight. */
  function RoundToNextTimeEndingIn5or0(t: Time): (r: Time)
    ensures OnFiveMinuteMark(r)
    ensures Second(r) == 0 && Minute(r) % 5 == 0
    ensures WithinFiveMinutesAfter(TruncatedToMinutes(t), r)
  {
    RoundingStep(t);
    MarkHasWholeFiveMinutes(TruncatedToMinutes(MovedToNextMark(t)));
    TruncatedToMinutes(MovedToNextMark(t))
  }

  /** The time moved forward by the minutes missing to the next
      five-minute mark, seconds kept, wrapping past midnight. */
  function MovedToNextMark(t: Time): Time
  {
    var minutesMod5 := Minute(t) % 5;
    if minutesMod5 != 0 then PlusMinutes(t, 5 - minutesMod5) else t
  }

  /** A five-minute mark shows zero seconds and a minute divisible by five. */
  lemma MarkHasWholeFiveMinutes(t: Time)
    requires OnFiveMinuteMark(t)
    ensures Second(t) == 0 && Minute(t) % 5 == 0
  {
    var k := t / 300;
    assert t == 300 * k;
    assert t / 60 == 5 * k;
    assert (5 * k) % 60 == 5 * (k % 12) by {
      assert 5 * k == 60 * (k / 12) + 5 * (k % 12);
    }
  }

  /** The whole minute of a time lies 60 * (minute mod 5) seconds after a
      five-minute mark. */
  lemma TruncatedOffsetFromMark(t: Time)
    ensures TruncatedToMinutes(t) % 300 == 60 * (Minute(t) % 5)
  {
    var q := t / 60;
    var mm := q % 60;
    var m5 := mm % 5;
    assert t - t % 60 == 60 * q;
    assert q == 60 * (q / 60) + mm;
    assert mm == 5 * (mm / 5) + m5;
    assert 60 * q == 300 * (12 * (q / 60) + mm / 5) + 60 * m5;
  }

  /** The arithmetic behind the rounding: the moved time's whole minute
      is a mark less than five minutes after the truncated time. */
  lemma RoundingStep(t: Time)
    ensures TruncatedToMinutes(MovedToNextMark(t)) % 300 == 0
    ensures WithinFiveMinutesAfter(TruncatedToMinutes(t), TruncatedToMinutes(MovedToNextMark(t)))
  {
    TruncatedOffsetFromMark(t);
    if Minute(t) % 5 != 0 {
      var trunc := TruncatedToMinutes(t);
      var m := Minute(t) % 5;
      var k := trunc / 300;
      var s := t % 60;
      assert trunc == 300 * k + 60 * m;
      assert t + 60 * (5 - m) == 300 * (k + 1) + s;
      assert MovedToNextMark(t) == (300 * (k + 1) + s) % SECONDS_PER_DAY;
      NextMarkAhead(k, m, s);
    }
  }

  /** A time m minutes and s seconds past the k-th mark of the day, moved
      ahead 5 - m minutes round the clock, truncates to the next mark, less
      than five minutes after its own whole minute. */
  lemma NextMarkAhead(k: int, m: int, s: int)
    requires 0 <= k < 288 && 0 < m < 5 && 0 <= s < 60
    ensures var moved := (300 * (k + 1) + s) % SECONDS_PER_DAY;
            && 0 <= moved < SECONDS_PER_DAY
            && TruncatedToMinutes(moved) % 300 == 0
            && WithinFiveMinutesAfter(300 * k + 60 * m, TruncatedToMinutes(moved))
  {
    if k < 287 {
      NextMarkSameDay(k, m, s);
    } else {
      NextMarkAtMidnight(m, s);
    }
  }

  /** Before the last mark of the day the next mark is later the same day. */
  lemma NextMarkSameDay(k: int, m: int, s: int)
    requires 0 <= k < 287 && 0 < m < 5 && 0 <= s < 60
    ensures var moved := (300 * (k + 1) + s) % SECONDS_PER_DAY;
            && moved == 60 * (5 * (k + 1)) + s
            && TruncatedToMinutes(moved) == 300 * (k + 1)
            && (300 * (k + 1)) % 300 == 0
  {
    DayRemainder(300 * (k + 1) + s, 0);
    WholeMinuteOf(5 * (k + 1), s);
    MarkMultiple(k + 1);
  }

  /** After the last mark of the day the next mark is midnight. */
  lemma NextMarkAtMidnight(m: int, s: int)
    requires 0 < m < 5 && 0 <= s < 60
    ensures var moved := (300 * 288 + s) % SECONDS_PER_DAY;
            && moved == s
            && TruncatedToMinutes(moved) == 0
  {
    DayRemainder(SECONDS_PER_DAY + s, 1);
    WholeMinuteOf(0, s);
  }

  /** Whole multiples of five minutes are marks. */
  lemma MarkMultiple(j: int)
    ensures (300 * j) % 300 == 0
  {
  }

  /** The remainder by a whole day of a value q days off the range of a day. */
  lemma DayRemainder(x: int, q: int)
    requires 0 <= x - q * SECONDS_PER_DAY < SECONDS_PER_DAY
    ensures x % SECONDS_PER_DAY == x - q * SECONDS_PER_DAY
  {
  }

  /** A whole minute plus fewer than sixty seconds truncates to that minute. */
  lemma WholeMinuteOf(n: int, s: int)
    requires 0 <= s < 60 && 0 <= 60 * n + s < SECONDS_PER_DAY
    ensures TruncatedToMinutes(60 * n + s) == 60 * n
  {
  }

  /** The rounding is pinned down by its contract: any five-minute mark
      less than five minutes (around the clock) after the time's whole
      minute is the rounded time. */
  lemma {:induction false} RoundingIsUnique(t: Time, r': Time)
    requires OnFiveMinuteMark(r')
    requires WithinFiveMinutesAfter(TruncatedToMinutes(t), r')
    ensures r' == RoundToNextTimeEndingIn5or0(t)
  {
    var r := RoundToNextTimeEndingIn5or0(t);
    var base := TruncatedToMinutes(t);
    assert OnFiveMinuteMark(r) && WithinFiveMinutesAfter(base, r);
    MarksCoincide(r, r', base);
  }

  /** Two five-minute marks of one day that both lie less than five
      minutes after the same instant, around the clock, are equal. */
  lemma MarksCoincide(r: Time, r': Time, base: int)
    requires OnFiveMinuteMark(r) && OnFiveMinuteMark(r')
    requires WithinFiveMinutesAfter(base, r) && WithinFiveMinutesAfter(base, r')
    ensures r == r'
  {
    var k, k' := r / 300, r' / 300;
    assert r == 300 * k && r' == 300 * k';
    assert SECONDS_PER_DAY == 300 * 288;
  }

  /** A time already on a five-minute mark is left alone. */
  lemma RoundingFixesMarks(t: Time)
    requires OnFiveMinuteMark(t)
    ensures RoundToNextTimeEndingIn5or0(t) == t
  {
    MarkHasWholeFiveMinutes(t);
    RoundingIsUnique(t, t);
  }

  /** Rounding twice is rounding once. */
  lemma RoundingIsIdempotent(t: Time)
    ensures RoundToNextTimeEndingIn5or0(RoundToNextTimeEndingIn5or0(t)) == RoundToNextTimeEndingIn5or0(t)
  {
    RoundingFixesMarks(RoundToNextTimeEndingIn5or0(t));
  }

  /** calculateClosing: three hours after opening, but not past 11 PM, not
      before 9:30 PM, and 11:59 PM when three hours later is past midnight.
      The result is determined by where the three-hour closing falls. */
  function CalculateClosing(opening: Time): (r: Time)
    ensures EARLIEST_CLOSING_TIME <= r <= LATEST_CLOSING_TIME || r == JUST_BEFORE_MIDNIGHT
  {
    var regularClosingTime := PlusHours(opening, 3);
    var earlyClosingTime := PlusHours(opening, 2);
    EarlyClosingIsUnreachable(opening);
    var closingTime :=
      if regularClosingTime > LATEST_CLOSING_TIME then
        if LATEST_CLOSING_TIME - opening < MINIMUM_OPEN_DURATION then earlyClosingTime else LATEST_CLOSING_TIME
      else regularClosingTime;
    if Hour(closingTime) < 12 then JUST_BEFORE_MIDNIGHT
    else if closingTime < EARLIEST_CLOSING_TIME then EARLIEST_CLOSING_TIME
    else closingTime
  }

  /** Where calculateClosing puts the closing, by where three hours after
      opening falls. */
  lemma ClosingByRegularTime(opening: Time)
    ensures var regular := PlusHours(opening, 3);
            && (Hour(regular) < 12 ==> CalculateClosing(opening) == JUST_BEFORE_MIDNIGHT)
            && (12 <= Hour(regular) && regular < EARLIEST_CLOSING_TIME ==> CalculateClosing(opening) == EARLIEST_CLOSING_TIME)
            && (EARLIEST_CLOSING_TIME <= regular <= LATEST_CLOSING_TIME ==> CalculateClosing(opening) == regular)
            && (regular > LATEST_CLOSING_TIME ==> CalculateClosing(opening) == LATEST_CLOSING_TIME)
  {
    EarlyClosingIsUnreachable(opening);
  }

  /** The "close two hours after opening" branch of calculateClosing never
      fires: three hours after opening is past 11 PM only for openings
      between 8 PM and 9 PM, which leave at least two hours until 11 PM. */
  lemma EarlyClosingIsUnreachable(opening: Time)
    ensures PlusHours(opening, 3) > LATEST_CLOSING_TIME ==>
              72000 < opening < 75600 && LATEST_CLOSING_TIME - opening >= MINIMUM_OPEN_DURATION
  {
    if opening + 10800 >= SECONDS_PER_DAY {
      assert PlusHours(opening, 3) == opening + 10800 - SECONDS_PER_DAY;
    } else {
      assert PlusHours(opening, 3) == opening + 10800;
    }
  }

  /** An opening at 9:25 PM closes at 11:59 PM: three hours later is past
      midnight. (The unit test of calculateClosing expects 11:25 PM.) */
  lemma ClosingForOpeningAt2125()
    ensures CalculateClosing(Of(21, 25)) == Of(23, 59)
  {
  }

  /** DayContext.java: what the hours of one day depend on. */
  datatype DayContext = DayContext(
    date: Date,
    latestTzeisForWeekRoundedUpToNearestFiveMinutes: Time,
    tzeis: Time,
    candleLighting: Time,
    isLeilShabbosOrLeilYomTov: bool,
    isMotzeiShabbosOrMotzeiYomTov: bool,
    isMotzeiYomKippur: bool,
    isMotzeiTishaBav: bool,
    isLeilYomKippurOrLeilTishaBav: bool,
    isLeilPurim: bool)

  /** The context createDayContextsForWeek builds for one day, given the
      week's rounded latest tzais: that day's tzais and candle lighting
      truncated to the minute, and the flags read off the day of the week
      and the holidays of the day and of the next day. */
  function ContextFor(alm: Almanac, day: Date, latestTzeis: Time): (r: DayContext)
    ensures r.date == day && r.latestTzeisForWeekRoundedUpToNearestFiveMinutes == latestTzeis
    ensures r.tzeis <= alm.tzais(day) < r.tzeis + 60 && Second(r.tzeis) == 0
    ensures r.candleLighting <= alm.candleLighting(day) < r.candleLighting + 60 && Second(r.candleLighting) == 0
    ensures r.isLeilYomKippurOrLeilTishaBav ==> !r.isLeilPurim
    ensures !(r.isMotzeiYomKippur && r.isMotzeiTishaBav)
  {
    var today := alm.yomTov(day);
    var tomorrow := alm.yomTov(day + 1);
    DayContext(
      date := day,
      latestTzeisForWeekRoundedUpToNearestFiveMinutes := latestTzeis,
      tzeis := TruncatedToMinutes(alm.tzais(day)),
      candleLighting := TruncatedToMinutes(alm.candleLighting(day)),
      isLeilShabbosOrLeilYomTov := IsLeilYomTovOrShabbos(alm, day),
      isMotzeiShabbosOrMotzeiYomTov := DayOfWeek(day) == SATURDAY || today in YOM_TOV,
      isMotzeiYomKippur := today == YomKippur,
      isMotzeiTishaBav := today == TishaBeav,
      isLeilYomKippurOrLeilTishaBav := tomorrow == TishaBeav || tomorrow == YomKippur,
      isLeilPurim := tomorrow == Purim)
  }

  /** createHoursForDay: the row for the context's day. The first flag that
      applies decides: closed on the eve of Yom Kippur or Tisha B'Av; a
      half hour from an hour after candle lighting on the eve of Shabbos or
      yom tov; from an hour after tzais after Yom Kippur; from an hour after
      the week's latest tzais on the eve of Purim and after Tisha B'Av; from
      45 minutes after tzais after Shabbos or yom tov; otherwise from the
      week's latest tzais. Every opening but the last is rounded up to a
      five-minute mark, and every closing but Friday night's comes from
      calculateClosing. */
  function CreateHoursForDay(c: DayContext): (h: DailyHours)
    ensures h.day == c.date && h.WellFormed()
  {
    if c.isLeilYomKippurOrLeilTishaBav then
      DailyHours(c.date, None, None, true)
    else if c.isLeilShabbosOrLeilYomTov then
      var opening := RoundToNextTimeEndingIn5or0(PlusHours(c.candleLighting, 1));
      DailyHours(c.date, Some(opening), Some(PlusMinutes(opening, 30)), false)
    else
      var opening := OpeningAfterNightfall(c);
      DailyHours(c.date, Some(opening), Some(CalculateClosing(opening)), false)
  }

  /** The opening of a day that is neither a fast's eve nor a Friday or
      yom tov night: the first special evening that applies decides, in the
      order createHoursForDay tests them. */
  function OpeningAfterNightfall(c: DayContext): Time
  {
    var latest := c.latestTzeisForWeekRoundedUpToNearestFiveMinutes;
    if c.isMotzeiYomKippur then RoundToNextTimeEndingIn5or0(PlusHours(c.tzeis, 1))
    else if c.isLeilPurim then RoundToNextTimeEndingIn5or0(PlusHours(latest, 1))
    else if c.isMotzeiTishaBav then RoundToNextTimeEndingIn5or0(PlusHours(latest, 1))
    else if c.isMotzeiShabbosOrMotzeiYomTov then RoundToNextTimeEndingIn5or0(PlusMinutes(c.tzeis, 45))
    else latest
  }

  /** The shape of every row: closed exactly on a fast's eve; on the eve
      of Shabbos or yom tov a half hour from an hour after candle lighting,
      rounded up; otherwise closing where calculateClosing puts it. */
  lemma HoursForDayShape(c: DayContext)
    ensures var h := CreateHoursForDay(c);
            && (h.closed <==> c.isLeilYomKippurOrLeilTishaBav)
            && (!h.closed && c.isLeilShabbosOrLeilYomTov ==>
                  && h.opening.value == RoundToNextTimeEndingIn5or0(PlusHours(c.candleLighting, 1))
                  && h.closing.value == PlusMinutes(h.opening.value, 30))
            && (!h.closed && !c.isLeilShabbosOrLeilYomTov ==>
                  h.closing.value == CalculateClosing(h.opening.value))
  {
  }

  /** Moving a five-minute mark by whole minutes that are a multiple of
      five lands on a mark again, across midnight too. */
  lemma ShiftedMarkIsMark(t: Time, minutes: int)
    requires OnFiveMinuteMark(t) && minutes % 5 == 0
    ensures OnFiveMinuteMark(PlusMinutes(t, minutes))
  {
    var r := PlusMinutes(t, minutes);
    var sum := t + 60 * minutes;
    assert sum == 300 * (t / 300 + minutes / 5);
    assert r == sum - SECONDS_PER_DAY * (sum / SECONDS_PER_DAY);
    assert r == 300 * (t / 300 + minutes / 5 - 288 * (sum / SECONDS_PER_DAY));
  }

  /** On the day's own terms: the mikvah is closed exactly on the eve of
      Yom Kippur or Tisha B'Av, even when that eve is a Friday or a yom tov. */
  lemma ClosedExactlyOnFastEves(alm: Almanac, day: Date, latestTzeis: Time)
    ensures CreateHoursForDay(ContextFor(alm, day, latestTzeis)).closed <==>
              alm.yomTov(day + 1) == YomKippur || alm.yomTov(day + 1) == TishaBeav
  {
  }

  /** With the week's latest tzais on a five-minute mark, as the engine
      computes it, every open day opens on a five-minute mark. */
  lemma OpeningsOnFiveMinuteMarks(alm: Almanac, day: Date, latestTzeis: Time)
    requires OnFiveMinuteMark(latestTzeis)
    ensures var h := CreateHoursForDay(ContextFor(alm, day, latestTzeis));
            !h.closed ==> OnFiveMinuteMark(h.opening.value)
  {
  }

  /** The eve of Purim that is not also a Friday, a yom tov eve or the
      night after Yom Kippur opens exactly one hour after the week's
      latest tzais: adding the hour keeps the mark, so rounding changes
      nothing. */
  lemma LeilPurimOpensAnHourAfterWeeksLatest(alm: Almanac, day: Date, latestTzeis: Time)
    requires OnFiveMinuteMark(latestTzeis)
    requires alm.yomTov(day + 1) == Purim && alm.yomTov(day) != YomKippur && !IsLeilYomTovOrShabbos(alm, day)
    ensures var h := CreateHoursForDay(ContextFor(alm, day, latestTzeis));
            && !h.closed
            && h.opening == Some(PlusHours(latestTzeis, 1))
            && h.closing == Some(CalculateClosing(PlusHours(latestTzeis, 1)))
  {
    ShiftedMarkIsMark(latestTzeis, 60);
    assert PlusMinutes(latestTzeis, 60) == PlusHours(latestTzeis, 1);
    RoundingFixesMarks(PlusHours(latestTzeis, 1));
  }

  /** The night after Tisha B'Av, unless it is also a Friday, a yom tov
      eve, a fast's eve or the eve of Purim, opens exactly one hour after
      the week's latest tzais. */
  lemma MotzeiTishaBavOpensAnHourAfterWeeksLatest(alm: Almanac, day: Date, latestTzeis: Time)
    requires OnFiveMinuteMark(latestTzeis)
    requires alm.yomTov(day) == TishaBeav && !IsLeilYomTovOrShabbos(alm, day)
    requires alm.yomTov(day + 1) != Purim && alm.yomTov(day + 1) != YomKippur && alm.yomTov(day + 1) != TishaBeav
    ensures var h := CreateHoursForDay(ContextFor(alm, day, latestTzeis));
            && !h.closed
            && h.opening == Some(PlusHours(latestTzeis, 1))
            && h.closing == Some(CalculateClosing(PlusHours(latestTzeis, 1)))
  {
    ShiftedMarkIsMark(latestTzeis, 60);
    assert PlusMinutes(latestTzeis, 60) == PlusHours(latestTzeis, 1);
    RoundingFixesMarks(PlusHours(latestTzeis, 1));
  }

  /** The night after Yom Kippur, unless it is also a Friday, a yom tov
      eve or a fast's eve, opens an hour after that day's own tzais (taken
      to the minute), rounded up to a five-minute mark. */
  lemma MotzeiYomKippurOpensAnHourAfterTzais(alm: Almanac, day: Date, latestTzeis: Time)
    requires alm.yomTov(day) == YomKippur && !IsLeilYomTovOrShabbos(alm, day)
    requires alm.yomTov(day + 1) != YomKippur && alm.yomTov(day + 1) != TishaBeav
    ensures var h := CreateHoursForDay(ContextFor(alm, day, latestTzeis));
            var opening := RoundToNextTimeEndingIn5or0(PlusHours(TruncatedToMinutes(alm.tzais(day)), 1));
            && !h.closed
            && h.opening == Some(opening)
            && h.closing == Some(CalculateClosing(opening))
  {
  }

  /** Saturday night, or the night after a yom tov, opens 45 minutes after
      that day's own tzais, rounded up, unless an earlier case of the chain
      applies: a Friday or yom tov eve, a fast or its eve, or Purim eve. */
  lemma MotzeiShabbosOpensAfterTzais(alm: Almanac, day: Date, latestTzeis: Time)
    requires DayOfWeek(day) == SATURDAY || alm.yomTov(day) in YOM_TOV
    requires alm.yomTov(day) != YomKippur && alm.yomTov(day) != TishaBeav && !IsLeilYomTovOrShabbos(alm, day)
    requires alm.yomTov(day + 1) != Purim && alm.yomTov(day + 1) != YomKippur && alm.yomTov(day + 1) != TishaBeav
    ensures var h := CreateHoursForDay(ContextFor(alm, day, latestTzeis));
            var opening := RoundToNextTimeEndingIn5or0(PlusMinutes(TruncatedToMinutes(alm.tzais(day)), 45));
            && !h.closed
            && h.opening == Some(opening)
            && h.closing == Some(CalculateClosing(opening))
  {
  }

  /** Every night the default branch serves (neither side of it is Shabbos,
      a yom tov or a fast, and the morrow is not Purim; other holidays such
      as Chanukah may fall on either day) opens at the week's rounded
      latest tzais, so that every such night of the week keeps the same
      opening. */
  lemma OrdinaryNightOpensAtWeeksLatest(alm: Almanac, day: Date, latestTzeis: Time)
    requires DayOfWeek(day) != FRIDAY && DayOfWeek(day) != SATURDAY
    requires alm.yomTov(day) !in YOM_TOV && alm.yomTov(day) != YomKippur && alm.yomTov(day) != TishaBeav
    requires alm.yomTov(day + 1) !in YOM_TOV && alm.yomTov(day + 1) != YomKippur
             && alm.yomTov(day + 1) != TishaBeav && alm.yomTov(day + 1) != Purim
    ensures var h := CreateHoursForDay(ContextFor(alm, day, latestTzeis));
            && !h.closed
            && h.opening == Some(latestTzeis)
            && h.closing == Some(CalculateClosing(latestTzeis))
  {
  }

  /** Apart from Friday and yom tov nights, an open day never closes
      before 9:30 PM and never after 11 PM, unless it is pushed to 11:59 PM. */
  lemma ClosingWindow(alm: Almanac, day: Date, latestTzeis: Time)
    requires !IsLeilYomTovOrShabbos(alm, day)
    ensures var h := CreateHoursForDay(ContextFor(alm, day, latestTzeis));
            !h.closed ==>
              EARLIEST_CLOSING_TIME <= h.closing.value <= LATEST_CLOSING_TIME
              || h.closing.value == JUST_BEFORE_MIDNIGHT
  {
  }

  /** calculateClosing gives a time after the opening exactly when the
      opening is before 11:59 PM. */
  lemma CalculateClosingFollowsOpening(opening: Time)
    ensures opening < CalculateClosing(opening) <==> opening < JUST_BEFORE_MIDNIGHT
  {
    ClosingByRegularTime(opening);
    if opening + 10800 >= SECONDS_PER_DAY {
      assert PlusHours(opening, 3) == opening + 10800 - SECONDS_PER_DAY;
    } else {
      assert PlusHours(opening, 3) == opening + 10800;
    }
  }

  /** Every open day that is not a Friday or yom tov night opens before it
      closes, once the week's latest tzais is on a five-minute mark (as
      getLatestTzaisForWeek leaves it). */
  lemma OpensBeforeClosing(alm: Almanac, day: Date, latestTzeis: Time)
    requires OnFiveMinuteMark(latestTzeis) && !IsLeilYomTovOrShabbos(alm, day)
    ensures var h := CreateHoursForDay(ContextFor(alm, day, latestTzeis));
            !h.closed ==> h.opening.value < h.closing.value
  {
    var c := ContextFor(alm, day, latestTzeis);
    var h := CreateHoursForDay(c);
    OpeningsOnFiveMinuteMarks(alm, day, latestTzeis);
    HoursForDayShape(c);
    if !h.closed {
      assert !c.isLeilShabbosOrLeilYomTov;
      var t := h.opening.value;
      MarkIsBeforeJustBeforeMidnight(t);
      CalculateClosingFollowsOpening(t);
    }
  }

  /** The last five-minute mark of the day is 11:55 PM. */
  lemma MarkIsBeforeJustBeforeMidnight(t: Time)
    requires OnFiveMinuteMark(t)
    ensures t < JUST_BEFORE_MIDNIGHT
  {
    var k := t / 300;
    assert t == 300 * k;
  }

  /** A Friday or yom tov night closes half an hour after it opens, round
      the clock, so it opens before it closes exactly when it opens before
      11:30 PM; a later opening closes after midnight, before it opens. */
  lemma EveOpensBeforeClosingOnlyBefore2330(alm: Almanac, day: Date, latestTzeis: Time)
    requires IsLeilYomTovOrShabbos(alm, day)
    ensures var h := CreateHoursForDay(ContextFor(alm, day, latestTzeis));
            !h.closed ==> (h.opening.value < h.closing.value <==> h.opening.value < Of(23, 30))
  {
    var h := CreateHoursForDay(ContextFor(alm, day, latestTzeis));
    HoursForDayShape(ContextFor(alm, day, latestTzeis));
    if !h.closed {
      var t := h.opening.value;
      if t + 1800 >= SECONDS_PER_DAY {
        assert PlusMinutes(t, 30) == t + 1800 - SECONDS_PER_DAY;
      } else {
        assert PlusMinutes(t, 30) == t + 1800;
      }
    }
  }

  /** The latest tzais of the n days from first, starting from midnight and
      replacing the running value only by a strictly later one, as the loop
      of getLatestTzaisForWeek does. */
  function MaxTzais(alm: Almanac, first: Date, n: nat): Time
  {
    if n == 0 then MIDNIGHT
    else
      var earlier := MaxTzais(alm, first, n - 1);
      var tzais := alm.tzais(first + n - 1);
      if tzais > earlier then tzais else earlier
  }

  /** MaxTzais is the maximum: no day's tzais is later, and some day's
      tzais is it. */
  lemma {:induction false} MaxTzaisIsMaximum(alm: Almanac, first: Date, n: nat)
    requires n > 0
    ensures forall d :: first <= d < first + n ==> alm.tzais(d) <= MaxTzais(alm, first, n)
    ensures exists d :: first <= d < first + n && alm.tzais(d) == MaxTzais(alm, first, n)
  {
    var last := first + n - 1;
    if n > 1 {
      MaxTzaisIsMaximum(alm, first, n - 1);
      var d :| first <= d < last && alm.tzais(d) == MaxTzais(alm, first, n - 1);
      if alm.tzais(last) > MaxTzais(alm, first, n - 1) {
        assert alm.tzais(last) == MaxTzais(alm, first, n);
      } else {
        assert alm.tzais(d) == MaxTzais(alm, first, n);
      }
    } else {
      assert alm.tzais(first) == MaxTzais(alm, first, 1);
    }
  }

  /** The rounded latest tzais of the seven days from sunday: the opening
      of every ordinary night of that week. */
  function WeeksLatestTzais(alm: Almanac, sunday: Date): (r: Time)
    ensures OnFiveMinuteMark(r)
  {
    RoundToNextTimeEndingIn5or0(MaxTzais(alm, sunday, 7))
  }

  /** getLatestTzaisForWeek: scans the seven days from sunday for the
      latest (untruncated) tzais and rounds it up to a five-minute mark. */
  method GetLatestTzaisForWeek(alm: Almanac, sunday: Date) returns (latestTzais: Time)
    ensures latestTzais == WeeksLatestTzais(alm, sunday)
  {
    latestTzais := MIDNIGHT;
    var i := 0;
    while i < 7
      invariant 0 <= i <= 7
      invariant latestTzais == MaxTzais(alm, sunday, i)
    {
      var day := sunday + i;
      var tzais := alm.tzais(day);
      if tzais > latestTzais {
        latestTzais := tzais;
      }
      i := i + 1;
    }
    latestTzais := RoundToNextTimeEndingIn5or0(latestTzais);
  }

  /** The contexts of the first n days of the week from sunday, all
      sharing the week's latest tzais. */
  function WeekContexts(alm: Almanac, sunday: Date, latestTzeis: Time, n: nat): (cs: seq<DayContext>)
    ensures |cs| == n
  {
    if n == 0 then [] else WeekContexts(alm, sunday, latestTzeis, n - 1) + [ContextFor(alm, sunday + n - 1, latestTzeis)]
  }

  /** The k-th of the week's contexts is the context of the k-th day. */
  lemma {:induction false} WeekContextAt(alm: Almanac, sunday: Date, latestTzeis: Time, n: nat, k: nat)
    requires k < n
    ensures WeekContexts(alm, sunday, latestTzeis, n)[k] == ContextFor(alm, sunday + k, latestTzeis)
  {
    var last := ContextFor(alm, sunday + (n - 1), latestTzeis);
    var init := WeekContexts(alm, sunday, latestTzeis, n - 1);
    assert WeekContexts(alm, sunday, latestTzeis, n) == init + [last];
    if k < n - 1 {
      WeekContextAt(alm, sunday, latestTzeis, n - 1, k);
      assert (init + [last])[k] == init[k];
    }
  }

  /** createDayContextsForWeek: the contexts of the seven days from sunday,
      all sharing the week's rounded latest tzais. */
  method CreateDayContextsForWeek(alm: Almanac, sunday: Date) returns (contexts: seq<DayContext>)
    ensures contexts == WeekContexts(alm, sunday, WeeksLatestTzais(alm, sunday), 7)
  {
    var latestTzeis := GetLatestTzaisForWeek(alm, sunday);
    contexts := [];
    var i := 0;
    while i < 7
      invariant 0 <= i <= 7
      invariant contexts == WeekContexts(alm, sunday, latestTzeis, i)
    {
      var c := ContextFor(alm, sunday + i, latestTzeis);
      assert WeekContexts(alm, sunday, latestTzeis, i + 1) == WeekContexts(alm, sunday, latestTzeis, i) + [c];
      contexts := contexts + [c];
      i := i + 1;
    }
  }

  /** The dates of the week's contexts are the seven days from sunday. */
  lemma WeekContextDates(alm: Almanac, sunday: Date, latestTzeis: Time, n: nat, k: nat)
    requires k < n
    ensures WeekContexts(alm, sunday, latestTzeis, n)[k].date == sunday + k
  {
    WeekContextAt(alm, sunday, latestTzeis, n, k);
  }

  /** Rows on consecutive days from first, each well formed. */
  ghost predicate Consecutive(rows: seq<DailyHours>, first: Date)
  {
    forall k :: 0 <= k < |rows| ==> rows[k].day == first + k && rows[k].WellFormed()
  }

  /** The rows calculateHoursForWeek computes from a run of contexts, in
      their order. */
  function RowsOf(cs: seq<DayContext>): (rows: seq<DailyHours>)
    ensures |rows| == |cs|
  {
    if cs == [] then [] else RowsOf(cs[..|cs| - 1]) + [CreateHoursForDay(cs[|cs| - 1])]
  }

  /** The k-th row is the row created from the k-th context. */
  lemma {:induction false} RowsOfAt(cs: seq<DayContext>, k: nat)
    requires k < |cs|
    ensures RowsOf(cs)[k] == CreateHoursForDay(cs[k])
  {
    if k < |cs| - 1 {
      RowsOfAt(cs[..|cs| - 1], k);
    }
  }

  /** One more context adds its row at the end. */
  lemma RowsOfNext(cs: seq<DayContext>, i: nat)
    requires i < |cs|
    ensures RowsOf(cs[..i + 1]) == RowsOf(cs[..i]) + [CreateHoursForDay(cs[i])]
  {
    assert cs[..i + 1][..i] == cs[..i];
  }

  /** The rows calculateHoursForWeek computes for the week from sunday. */
  function WeekRows(alm: Almanac, sunday: Date): (rows: seq<DailyHours>)
    ensures |rows| == 7
  {
    RowsOf(WeekContexts(alm, sunday, WeeksLatestTzais(alm, sunday), 7))
  }

  /** The k-th of the week's rows is the row of the k-th day, made with the
      week's latest tzais. */
  lemma WeekRowAt(alm: Almanac, sunday: Date, k: nat)
    requires k < 7
    ensures WeekRows(alm, sunday)[k] == CreateHoursForDay(ContextFor(alm, sunday + k, WeeksLatestTzais(alm, sunday)))
  {
    RowsOfAt(WeekContexts(alm, sunday, WeeksLatestTzais(alm, sunday), 7), k);
    WeekContextAt(alm, sunday, WeeksLatestTzais(alm, sunday), 7, k);
  }

  /** The week's rows are its seven days in order, each well formed. */
  lemma WeekRowsConsecutive(alm: Almanac, sunday: Date)
    ensures Consecutive(WeekRows(alm, sunday), sunday)
  {
    var cs := WeekContexts(alm, sunday, WeeksLatestTzais(alm, sunday), 7);
    forall k | 0 <= k < 7
      ensures RowsOf(cs)[k].day == sunday + k && RowsOf(cs)[k].WellFormed()
    {
      RowsOfAt(cs, k);
      WeekContextDates(alm, sunday, WeeksLatestTzais(alm, sunday), 7, k);
    }
  }

  /** The table after saving each row in turn, replacing any row of its day. */
  function Put(table: HoursTable, rows: seq<DailyHours>): HoursTable
  {
    if rows == [] then table
    else
      var last := rows[|rows| - 1];
      Put(table, rows[..|rows| - 1])[last.day := last]
  }

  /** The repository writes needed to put a computed row into the table:
      none when an equal row is there, a delete and a save when a different
      row is there, a save when the day has no row. */
  function RowWrites(table: HoursTable, hours: DailyHours): (n: nat)
    ensures n == 0 <==> hours.day in table && table[hours.day] == hours
    ensures n <= 2
  {
    if hours.day !in table then 1
    else if table[hours.day] == hours then 0
    else 2
  }

  /** The writes made saving each row in turn. */
  function Writes(table: HoursTable, rows: seq<DailyHours>): nat
  {
    if rows == [] then 0
    else
      var before := rows[..|rows| - 1];
      Writes(table, before) + RowWrites(Put(table, before), rows[|rows| - 1])
  }

  /** Saving rows of consecutive days: the table gains exactly those rows
      and keeps every other day's row, and stays keyed and well formed. */
  lemma {:induction false} PutConsecutive(table: HoursTable, rows: seq<DailyHours>, first: Date)
    requires Keyed(table) && Consecutive(rows, first)
    ensures forall d :: d in Put(table, rows) <==> d in table || first <= d < first + |rows|
    ensures forall k :: 0 <= k < |rows| ==> Put(table, rows)[first + k] == rows[k]
    ensures forall d :: d in table && !(first <= d < first + |rows|) ==> Put(table, rows)[d] == table[d]
    ensures Keyed(Put(table, rows))
    ensures AllWellFormed(table) ==> AllWellFormed(Put(table, rows))
  {
    if rows != [] {
      PutConsecutive(table, rows[..|rows| - 1], first);
    }
  }

  /** One step of calculateHoursForWeek: saving the next row of
      consecutive days, unless an equal row is already there, extends the
      rows saved so far and costs what RowWrites says. */
  lemma SaveNextRow(before: HoursTable, table: HoursTable, done: seq<DailyHours>, hours: DailyHours, first: Date)
    requires Keyed(before) && Consecutive(done, first) && table == Put(before, done)
    requires hours.day == first + |done| && hours.WellFormed()
    ensures Consecutive(done + [hours], first)
    ensures table[hours.day := hours] == Put(before, done + [hours])
    ensures Writes(before, done + [hours]) == Writes(before, done) + RowWrites(table, hours)
  {
    assert (done + [hours])[..|done|] == done;
  }

  /** Saving a then b is saving a + b. */
  lemma {:induction false} PutAppend(table: HoursTable, a: seq<DailyHours>, b: seq<DailyHours>)
    ensures Put(table, a + b) == Put(Put(table, a), b)
    ensures Writes(table, a + b) == Writes(table, a) + Writes(Put(table, a), b)
  {
    if b == [] {
      assert a + b == a;
    } else {
      var n := |b| - 1;
      PutAppend(table, a, b[..n]);
      assert (a + b)[..|a + b| - 1] == a + b[..n];
    }
  }

  /** Each of the rows is already in the table under its day. */
  ghost predicate UpToDate(table: HoursTable, rows: seq<DailyHours>)
  {
    forall k :: 0 <= k < |rows| ==> rows[k].day in table && table[rows[k].day] == rows[k]
  }

  /** The rows before the last one of consecutive rows are consecutive. */
  lemma ConsecutivePrefix(rows: seq<DailyHours>, first: Date, n: nat)
    requires Consecutive(rows, first) && n <= |rows|
    ensures Consecutive(rows[..n], first)
  {
    forall k | 0 <= k < n
      ensures rows[..n][k].day == first + k && rows[..n][k].WellFormed()
    {
      assert rows[..n][k] == rows[k];
    }
  }

  /** Up to date with all the rows is up to date with all but the last and
      with the last. */
  lemma UpToDateSplit(table: HoursTable, rows: seq<DailyHours>)
    requires rows != []
    ensures UpToDate(table, rows) <==>
              && UpToDate(table, rows[..|rows| - 1])
              && rows[|rows| - 1].day in table && table[rows[|rows| - 1].day] == rows[|rows| - 1]
  {
    var n := |rows| - 1;
    if UpToDate(table, rows[..n]) && rows[n].day in table && table[rows[n].day] == rows[n] {
      forall k | 0 <= k < |rows|
        ensures rows[k].day in table && table[rows[k].day] == rows[k]
      {
        if k < n {
          assert rows[..n][k] == rows[k];
        }
      }
    }
    if UpToDate(table, rows) {
      forall k | 0 <= k < n
        ensures rows[..n][k].day in table && table[rows[..n][k].day] == rows[..n][k]
      {
        assert rows[..n][k] == rows[k];
      }
    }
  }

  /** Saving rows of consecutive days writes nothing exactly when the table
      already holds each of them. */
  lemma {:induction false} NoWritesIffUpToDate(table: HoursTable, rows: seq<DailyHours>, first: Date)
    requires Keyed(table) && Consecutive(rows, first)
    ensures Writes(table, rows) == 0 <==> UpToDate(table, rows)
  {
    if rows != [] {
      var n := |rows| - 1;
      var before := rows[..n];
      var last := rows[n];
      ConsecutivePrefix(rows, first, n);
      NoWritesIffUpToDate(table, before, first);
      PutConsecutive(table, before, first);
      var t := Put(table, before);
      assert last.day == first + n;
      assert (last.day in t <==> last.day in table) && (last.day in t ==> t[last.day] == table[last.day]);
      assert Writes(table, rows) == Writes(table, before) + RowWrites(t, last);
      UpToDateSplit(table, rows);
    }
  }

  /** Saving the same consecutive rows a second time writes nothing. */
  lemma SecondPassWritesNothing(table: HoursTable, rows: seq<DailyHours>, first: Date)
    requires Keyed(table) && Consecutive(rows, first)
    ensures Writes(Put(table, rows), rows) == 0
  {
    PutConsecutive(table, rows, first);
    NoWritesIffUpToDate(Put(table, rows), rows, first);
  }

  /** Rows of consecutive days followed by rows of the days after them
      are rows of consecutive days. */
  lemma ConsecutiveAppend(a: seq<DailyHours>, b: seq<DailyHours>, first: Date)
    requires Consecutive(a, first) && Consecutive(b, first + |a|)
    ensures Consecutive(a + b, first)
  {
    forall k | 0 <= k < |a + b|
      ensures (a + b)[k].day == first + k && (a + b)[k].WellFormed()
    {
      if k >= |a| {
        assert (a + b)[k] == b[k - |a|];
      }
    }
  }

  /** The rows of the three weeks from the given Sunday, each week with
      its own latest tzais. */
  function ThreeWeeksFrom(alm: Almanac, first: Date): seq<DailyHours>
  {
    WeekRows(alm, first) + WeekRows(alm, first + 7) + WeekRows(alm, first + 14)
  }

  /** The rows createHoursForNext3Weeks saves: the weeks from the Sunday
      before today (a week back when today is a Sunday) and from the two
      Sundays after it. */
  function ThreeWeeksRows(alm: Almanac, today: Date): seq<DailyHours>
  {
    ThreeWeeksFrom(alm, PreviousSunday(today))
  }

  /** The table after saving the three weeks from the given Sunday one
      week at a time. */
  function AfterThreeWeeks(table: HoursTable, alm: Almanac, first: Date): HoursTable
  {
    Put(Put(Put(table, WeekRows(alm, first)), WeekRows(alm, first + 7)), WeekRows(alm, first + 14))
  }

  /** The repository writes of saving the three weeks one week at a time. */
  function ThreeWeeksWrites(table: HoursTable, alm: Almanac, first: Date): nat
  {
    Writes(table, WeekRows(alm, first)) + Writes(Put(table, WeekRows(alm, first)), WeekRows(alm, first + 7))
      + Writes(Put(Put(table, WeekRows(alm, first)), WeekRows(alm, first + 7)), WeekRows(alm, first + 14))
  }

  /** Saving the weeks from three given Sundays, a week apart, one after
      the other is what AfterThreeWeeks and ThreeWeeksWrites describe. */
  lemma ThreeWeeksAt(table: HoursTable, alm: Almanac, first: Date, second: Date, third: Date)
    requires second == first + 7 && third == second + 7
    ensures Put(Put(Put(table, WeekRows(alm, first)), WeekRows(alm, second)), WeekRows(alm, third))
            == AfterThreeWeeks(table, alm, first)
    ensures Writes(table, WeekRows(alm, first)) + Writes(Put(table, WeekRows(alm, first)), WeekRows(alm, second))
            + Writes(Put(Put(table, WeekRows(alm, first)), WeekRows(alm, second)), WeekRows(alm, third))
            == ThreeWeeksWrites(table, alm, first)
  {
    assert third == first + 14;
  }

  /** Three runs of seven consecutive days, each starting the day after
      the one before ends, are 21 consecutive days. */
  lemma ThreeConsecutiveWeeks(a: seq<DailyHours>, b: seq<DailyHours>, c: seq<DailyHours>, first: Date)
    requires |a| == 7 && |b| == 7 && |c| == 7
    requires Consecutive(a, first) && Consecutive(b, first + 7) && Consecutive(c, first + 14)
    ensures Consecutive(a + b + c, first) && |a + b + c| == 21
  {
    ConsecutiveAppend(a, b, first);
    ConsecutiveAppend(a + b, c, first);
  }

  /** The three weeks' rows from a Sunday are the 21 consecutive days from
      it, each well formed. */
  lemma ThreeWeeksFromConsecutive(alm: Almanac, first: Date)
    ensures Consecutive(ThreeWeeksFrom(alm, first), first)
    ensures |ThreeWeeksFrom(alm, first)| == 21
  {
    WeekRowsConsecutive(alm, first);
    WeekRowsConsecutive(alm, first + 7);
    WeekRowsConsecutive(alm, first + 14);
    ThreeConsecutiveWeeks(WeekRows(alm, first), WeekRows(alm, first + 7), WeekRows(alm, first + 14), first);
  }

  /** Saving 21 consecutive rows from the Sunday before today leaves a row
      for each of the next fourteen days, and for the fifteenth unless
      today is a Sunday. */
  lemma ConsecutiveRunReachesFortnight(table: HoursTable, rows: seq<DailyHours>, today: Date)
    requires Keyed(table) && |rows| == 21 && Consecutive(rows, PreviousSunday(today))
    ensures forall d :: today <= d <= today + 13 ==> d in Put(table, rows)
    ensures DayOfWeek(today) != SUNDAY ==> today + 14 in Put(table, rows)
    ensures DayOfWeek(today) == SUNDAY ==> (today + 14 in Put(table, rows) <==> today + 14 in table)
  {
    PreviousVersusPreviousOrSame(today);
    PutConsecutive(table, rows, PreviousSunday(today));
  }

  /** Saving a + b + c is saving a, then b, then c. */
  lemma PutThree(table: HoursTable, a: seq<DailyHours>, b: seq<DailyHours>, c: seq<DailyHours>)
    ensures Put(table, a + b + c) == Put(Put(Put(table, a), b), c)
    ensures Writes(table, a + b + c) == Writes(table, a) + Writes(Put(table, a), b) + Writes(Put(Put(table, a), b), c)
  {
    PutAppend(table, a, b);
    PutAppend(table, a + b, c);
  }

  /** Saving the three weeks one after the other, as the job does, is
      saving the three weeks' rows in order, with the same writes. */
  lemma ThreeWeeksInTurn(table: HoursTable, alm: Almanac, first: Date)
    ensures AfterThreeWeeks(table, alm, first) == Put(table, ThreeWeeksFrom(alm, first))
    ensures ThreeWeeksWrites(table, alm, first) == Writes(table, ThreeWeeksFrom(alm, first))
  {
    PutThree(table, WeekRows(alm, first), WeekRows(alm, first + 7), WeekRows(alm, first + 14));
  }

  /** After a run the table has a row for each of the next fourteen days,
      which is how far slot creation looks, except on a Sunday: "previous
      Sunday" then steps back a whole week and the fourteenth day ahead has
      a row only if it had one before. */
  lemma ThreeWeeksReachFortnight(table: HoursTable, alm: Almanac, today: Date)
    requires Keyed(table)
    ensures forall d :: today <= d <= today + 13 ==> d in Put(table, ThreeWeeksRows(alm, today))
    ensures DayOfWeek(today) != SUNDAY ==> today + 14 in Put(table, ThreeWeeksRows(alm, today))
    ensures DayOfWeek(today) == SUNDAY ==>
              (today + 14 in Put(table, ThreeWeeksRows(alm, today)) <==> today + 14 in table)
  {
    ThreeWeeksFromConsecutive(alm, PreviousSunday(today));
    ConsecutiveRunReachesFortnight(table, ThreeWeeksRows(alm, today), today);
  }

  /** Running the job twice on the same day writes nothing the second time. */
  lemma SecondRunWritesNothing(table: HoursTable, alm: Almanac, today: Date)
    requires Keyed(table)
    ensures Writes(Put(table, ThreeWeeksRows(alm, today)), ThreeWeeksRows(alm, today)) == 0
  {
    ThreeWeeksFromConsecutive(alm, PreviousSunday(today));
    SecondPassWritesNothing(table, ThreeWeeksRows(alm, today), PreviousSunday(today));
  }

  /** DailyHoursCreationService: the hours table it writes through its
      repository, the configured zone and the zone it caches, and the
      almanac for the configured location. The ghost counter records the
      repository writes (each save and each delete). */
  class DailyHoursCreationService {
    var repo: HoursTable
    var timezone: Option<string>
    const configuredZone: string
    const almanac: Almanac
    ghost var writes: nat

    ghost predicate Valid()
      reads this
    {
      && Keyed(repo)
      && (timezone.Some? ==> timezone.value == configuredZone)
    }

    constructor (zone: string, alm: Almanac, table: HoursTable)
      requires Keyed(table)
      ensures Valid()
      ensures repo == table && timezone == None && writes == 0
      ensures configuredZone == zone && almanac == alm
    {
      repo := table;
      timezone := None;
      configuredZone := zone;
      almanac := alm;
      writes := 0;
    }

    /** getTimezone: the configured zone, looked up once and then cached. */
    method GetTimezone() returns (zone: string)
      requires Valid()
      modifies this`timezone
      ensures Valid()
      ensures zone == configuredZone && timezone == Some(configuredZone)
    {
      if timezone.None? {
        timezone := Some(configuredZone);
      }
      zone := timezone.value;
    }

    /** The body of calculateHoursForWeek's loop for one computed row: look
        the day up, leave an equal row alone, otherwise delete a different
        row and save the new one. */
    method SaveHours(hours: DailyHours)
      requires Valid() && hours.WellFormed()
      modifies this`repo, this`writes
      ensures Valid()
      ensures repo == old(repo)[hours.day := hours]
      ensures writes == old(writes) + RowWrites(old(repo), hours)
    {
      var existingHours := if hours.day in repo then Some(repo[hours.day]) else None;
      if existingHours.Some? && existingHours.value == hours {
      } else {
        if existingHours.Some? {
          repo := repo - {hours.day};
          writes := writes + 1;
        }
        repo := repo[hours.day := hours];
        writes := writes + 1;
      }
    }

    /** calculateHoursForWeek: saves the computed row of each of the seven
        days from sunday, deleting a different existing row first and
        leaving an equal one alone. */
    method CalculateHoursForWeek(sunday: Date)
      requires Valid()
      modifies this
      ensures Valid()
      ensures repo == Put(old(repo), WeekRows(almanac, sunday))
      ensures writes == old(writes) + Writes(old(repo), WeekRows(almanac, sunday))
    {
      var zone := GetTimezone();
      var contexts := CreateDayContextsForWeek(almanac, sunday);
      ghost var before := repo;
      ghost var done: seq<DailyHours> := [];
      var i := 0;
      while i < 7
        invariant 0 <= i <= 7 && |done| == i
        invariant Valid()
        invariant done == RowsOf(contexts[..i])
        invariant Consecutive(done, sunday)
        invariant repo == Put(before, done)
        invariant writes == old(writes) + Writes(before, done)
      {
        var hours := CreateHoursForDay(contexts[i]);
        WeekContextDates(almanac, sunday, WeeksLatestTzais(almanac, sunday), 7, i);
        SaveNextRow(before, repo, done, hours, sunday);
        SaveHours(hours);
        RowsOfNext(contexts, i);
        done := done + [hours];
        i := i + 1;
      }
      assert contexts[..7] == contexts;
    }

    /** createHoursForNext3Weeks: the week from the Sunday before today and
        the two weeks after it. */
    method CreateHoursForNext3Weeks(today: Date)
      requires Valid()
      modifies this
      ensures Valid()
      ensures repo == AfterThreeWeeks(old(repo), almanac, PreviousSunday(today))
      ensures writes == old(writes) + ThreeWeeksWrites(old(repo), almanac, PreviousSunday(today))
    {
      ghost var first := PreviousSunday(today);
      ghost var second := first + 7;
      ghost var t0 := old(repo);
      ghost var w0 := old(writes);
      var start := PreviousSunday(today);
      CalculateHoursForWeek(start);
      ghost var t1 := repo;
      ghost var w1 := writes;
      var i := 0;
      while i < 2
        invariant 0 <= i <= 2 && DayOfWeek(start) == SUNDAY && Valid()
        invariant i == 0 ==> start == first && repo == t1 && writes == w1
        invariant i == 1 ==> start == second && repo == Put(t1, WeekRows(almanac, second))
                             && writes == w1 + Writes(t1, WeekRows(almanac, second))
        invariant i == 2 ==> start == second + 7
                             && repo == Put(Put(t1, WeekRows(almanac, second)), WeekRows(almanac, start))
                             && writes == w1 + Writes(t1, WeekRows(almanac, second))
                                         + Writes(Put(t1, WeekRows(almanac, second)), WeekRows(almanac, start))
      {
        start := NextSunday(start);
        CalculateHoursForWeek(start);
        i := i + 1;
      }
      ThreeWeeksAt(t0, almanac, first, second, start);
    }
  }
}
