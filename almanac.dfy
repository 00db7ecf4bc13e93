/** The calendar the hours engine consults: the zmanim (halachic times) of
    each day at the mikvah's location and the Jewish holiday falling on each
    civil day. The astronomical and calendrical computations belong to the
    zmanim library and are given here as an almanac of total functions. */
module Zmanim {
  import opened Temporal

  /** The holidays JewishCalendar.getYomTovIndex can report that the
      services look at; every other day is NoHoliday or Other. */
  datatype Holiday =
    | NoHoliday
    | Pesach
    | Succos
    | Shavuos
    | RoshHashana
    | SheminiAtzeres
    | SimchasTorah
    | YomKippur
    | TishaBeav
    | Purim
    | Other

  /** The festivals (yamim tovim) on whose eve the mikvah keeps Friday-night
      hours and after which it keeps Saturday-night hours. */
  const YOM_TOV: set<Holiday> := {Pesach, Succos, Shavuos, RoshHashana, SheminiAtzeres, SimchasTorah}

  /** For each civil day: tzais (nightfall) and candle lighting, as local
      times in the configured zone to the second, and the holiday of that day. */
  datatype Almanac = Almanac(tzais: Date -> Time, candleLighting: Date -> Time, yomTov: Date -> Holiday)

  /** isLeilYomTovOrShabbos: the evening of date begins Shabbos (date is a
      Friday) or a yom tov (the next civil day is one). Both services ask
      the same question. */
  predicate IsLeilYomTovOrShabbos(alm: Almanac, date: Date)
  {
    DayOfWeek(date) == FRIDAY || alm.yomTov(date + 1) in YOM_TOV
  }

  /** The evening of date begins Shabbos or a yom tov exactly when the next
      civil day is a Saturday or a yom tov. */
  lemma LeilMeansTomorrowIsShabbosOrYomTov(alm: Almanac, date: Date)
    ensures IsLeilYomTovOrShabbos(alm, date) <==> DayOfWeek(date + 1) == SATURDAY || alm.yomTov(date + 1) in YOM_TOV
  {
    var q := (date + 3) / 7;
    assert date + 3 == 7 * q + (date + 3) % 7;
    if (date + 3) % 7 == 6 {
      assert date + 4 == 7 * (q + 1);
    } else {
      assert date + 4 == 7 * q + (date + 3) % 7 + 1;
    }
  }
}
