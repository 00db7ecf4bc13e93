/** AppointmentService.java, its read-only half: the free times offered for
    booking (getAvailableTimes) and the day lists for attendants and admins,
    with times formatted by the pattern "h:mm a". */
module AppointmentViews {
  import opened Wrappers
  import opened Temporal
  import opened DailyHoursData
  import opened DailyHoursService
  import opened SlotData
  import opened Sorting
  import opened AvailableTime

  // ---------------------------------------------------------------------
  // The "h:mm a" time format

  function Digit(d: int): char
    requires 0 <= d < 10
  {
    (48 + d) as char
  }

  function DigitValue(c: char): int
  {
    c as int - 48
  }

  function TwoDigits(n: int): string
    requires 0 <= n < 100
  {
    [Digit(n / 10), Digit(n % 10)]
  }

  /** "h": the hour of the half day, 1 to 12, without a leading zero. */
  function ClockHour(t: Time): int
  {
    if Hour(t) % 12 == 0 then 12 else Hour(t) % 12
  }

  /** "a": the half-day marker, in the English locale. */
  function Marker(t: Time): string
  {
    if Hour(t) < 12 then "AM" else "PM"
  }

  /** The clock hour as "h" prints it. */
  function HourText(h: int): string
    requires 0 <= h < 100
  {
    if h < 10 then [Digit(h)] else TwoDigits(h)
  }

  /** LocalTime.format(ofPattern("h:mm a")). */
  function FormatTime(t: Time): (r: string)
    ensures 7 <= |r| <= 8 && r[|r| - 6] == ':' && r[|r| - 3] == ' '
    ensures r[|r| - 2] == 'A' <==> Hour(t) < 12
  {
    HourText(ClockHour(t)) + ":" + TwoDigits(Minute(t)) + " " + Marker(t)
  }

  /** The value of a string of decimal digits. */
  function NumberValue(ds: string): int
  {
    if ds == [] then 0 else 10 * NumberValue(ds[..|ds| - 1]) + DigitValue(ds[|ds| - 1])
  }

  /** Reading an "h:mm a" string back to the time it shows. */
  function ParseTime(s: string): Option<Time>
  {
    var k := |s| - 6;
    if !(k == 1 || k == 2) || s[k] != ':' || s[k + 3] != ' ' || !(s[k + 4..] == "AM" || s[k + 4..] == "PM") then None
    else
      var h := NumberValue(s[..k]) % 12 + (if s[k + 4..] == "PM" then 12 else 0);
      var m := NumberValue(s[k + 1..k + 3]);
      if 0 <= h < 24 && 0 <= m < 60 then Some(Of(h, m)) else None
  }

  /** A time is its hours, minutes and seconds. */
  lemma TimeParts(t: Time)
    ensures t == Hour(t) * 3600 + Minute(t) * 60 + Second(t)
  {
    var q := t / 60;
    assert t == 60 * q + t % 60;
    assert q == 60 * (q / 60) + q % 60;
    assert q / 60 == t / 3600;
  }

  /** Truncating to minutes keeps the hour and the minute and nothing else. */
  lemma TruncatedIsOf(t: Time)
    ensures TruncatedToMinutes(t) == Of(Hour(t), Minute(t))
  {
    TimeParts(Of(Hour(t), Minute(t)));
    TimeParts(TruncatedToMinutes(t));
  }

  lemma DigitsRead(n: int)
    requires 0 <= n < 100
    ensures NumberValue(TwoDigits(n)) == n
    ensures n < 10 ==> NumberValue([Digit(n)]) == n
  {
    var ds := TwoDigits(n);
    assert ds[..1] == [Digit(n / 10)];
    assert NumberValue(ds[..1]) == n / 10;
    if n < 10 {
      assert [Digit(n)][..0] == [];
    }
  }

  /** The clock hour and the marker give back the hour of the day. */
  lemma ClockHourAndMarker(t: Time)
    ensures 1 <= ClockHour(t) <= 12
    ensures ClockHour(t) % 12 + (if Marker(t) == "PM" then 12 else 0) == Hour(t)
  {
  }

  /** Where the pieces of a formatted time sit in the string. */
  lemma FormattedPieces(hour: string, minute: string, marker: string)
    requires |minute| == 2 && |marker| == 2
    ensures var s := hour + ":" + minute + " " + marker;
            var k := |hour|;
            && |s| == k + 6 && s[..k] == hour && s[k] == ':' && s[k + 1..k + 3] == minute
            && s[k + 3] == ' ' && s[k + 4..] == marker
  {
  }

  /** The format shows the time to the minute: reading it back gives the
      time truncated to minutes. */
  lemma ParseFormattedTime(t: Time)
    ensures ParseTime(FormatTime(t)) == Some(TruncatedToMinutes(t))
  {
    var h, m := ClockHour(t), Minute(t);
    ClockHourAndMarker(t);
    DigitsRead(h);
    DigitsRead(m);
    FormattedPieces(HourText(h), TwoDigits(m), Marker(t));
    TruncatedIsOf(t);
  }

  /** Two times format alike exactly when they agree to the minute. */
  lemma FormatTimeShowsMinutes(a: Time, b: Time)
    ensures FormatTime(a) == FormatTime(b) <==> Hour(a) == Hour(b) && Minute(a) == Minute(b)
  {
    if FormatTime(a) == FormatTime(b) {
      ParseFormattedTime(a);
      ParseFormattedTime(b);
    }
  }

  /** The times of the admin list test: 01:10 is "1:10 AM" and 02:20 is
      "2:20 AM"; an evening time reads "9:00 PM". */
  lemma FormatTimeExamples()
    ensures FormatTime(Of(1, 10)) == "1:10 AM"
    ensures FormatTime(Of(2, 20)) == "2:20 AM"
    ensures FormatTime(Of(21, 0)) == "9:00 PM"
    ensures FormatTime(Of(22, 0)) == "10:00 PM"
  {
  }

  // ---------------------------------------------------------------------
  // getAvailableTimes

  function ToAvailable(s: AppointmentSlot): AvailableDateTimeAndRoomType
  {
    AvailableDateTimeAndRoomType(s.start, s.roomType)
  }

  /** The stream's map(slotToAvailableDateTimeAndRoomType). */
  function ToAvailableAll(slots: seq<AppointmentSlot>): seq<AvailableDateTimeAndRoomType>
  {
    seq(|slots|, k requires 0 <= k < |slots| => ToAvailable(slots[k]))
  }

  /** Stream.distinct on an ordered stream: the first occurrence of each
      value, in order. */
  function Distinct<T(==)>(xs: seq<T>): seq<T>
  {
    if xs == [] then []
    else
      var d := Distinct(xs[..|xs| - 1]);
      if xs[|xs| - 1] in d then d else d + [xs[|xs| - 1]]
  }

  /** distinct keeps every value and repeats none. */
  lemma {:induction false} DistinctMeans<T>(xs: seq<T>)
    ensures forall x :: x in Distinct(xs) <==> x in xs
    ensures forall x :: multiset(Distinct(xs))[x] <= 1
  {
    if xs != [] {
      var n := |xs| - 1;
      DistinctMeans(xs[..n]);
      assert xs == xs[..n] + [xs[n]];
      var d := Distinct(xs[..n]);
      if xs[n] !in d {
        assert multiset(d)[xs[n]] == 0;
      }
    }
  }

  /** A value occurring at two places occurs twice. */
  lemma RepeatedTwice<T>(xs: seq<T>, i: int, j: int)
    requires 0 <= i < j < |xs| && xs[i] == xs[j]
    ensures multiset(xs)[xs[i]] >= 2
  {
    assert xs == xs[..j] + xs[j..];
    assert xs[i] in xs[..j];
    assert xs[j..][0] == xs[j];
    assert xs[j] in xs[j..];
  }

  /** Today's hours row has both times and the opening has passed. */
  predicate OpenedToday(table: HoursTable, now: DateTime)
  {
    var hoursToday := GetHoursForDay(table, DateOf(now));
    && hoursToday.Some?
    && hoursToday.value.OpeningLocalTime().Some?
    && hoursToday.value.ClosingLocalTime().Some?
    && hoursToday.value.OpeningLocalTime().value < TimeOf(now)
  }

  /** The start of the window getAvailableTimes searches, as written: now,
      or, once today's opening has passed, today's date at the closing time
      plus one minute, where LocalTime.plusMinutes wraps 23:59 round to
      00:00 of the same date. */
  function AvailableFromAsWritten(table: HoursTable, now: DateTime): (r: DateTime)
    ensures OpenedToday(table, now) ==> StartOfDay(DateOf(now)) <= r < StartOfDay(DateOf(now) + 1)
    ensures !OpenedToday(table, now) ==> r == now
  {
    if OpenedToday(table, now)
    then At(DateOf(now), PlusMinutes(table[DateOf(now)].closing.value, 1))
    else now
  }

  /** The start of the window as evidently intended: one minute after
      today's closing, on the date-time line. */
  function AvailableFrom(table: HoursTable, now: DateTime): (r: DateTime)
    ensures OpenedToday(table, now) ==>
              At(DateOf(now), table[DateOf(now)].closing.value) < r < StartOfDay(DateOf(now) + 1) + 60
    ensures !OpenedToday(table, now) ==> r == now
  {
    if OpenedToday(table, now) then At(DateOf(now), table[DateOf(now)].closing.value) + 60 else now
  }

  /** With a closing of 23:59 the window as written starts at the midnight
      that began today, before the opening that has already passed: the
      day's earlier slots are offered again. */
  lemma AvailableFromAsWrittenWraps(table: HoursTable, now: DateTime)
    requires OpenedToday(table, now) && table[DateOf(now)].closing == Some(Of(23, 59))
    ensures AvailableFromAsWritten(table, now) == StartOfDay(DateOf(now))
    ensures AvailableFromAsWritten(table, now) <= At(DateOf(now), table[DateOf(now)].opening.value) < now
  {
    AtParts(DateOf(now), TimeOf(now));
  }

  /** A concrete case: open 21:25 to 23:59 (the closing the hours engine
      gives a 21:25 opening), asked at 21:30 on day 20000, the window
      starts at 00:00 that day. */
  lemma AvailableFromAsWrittenExample()
    ensures var d := 20000;
            var table := map[d := DailyHours(d, Some(Of(21, 25)), Some(Of(23, 59)), false)];
            AvailableFromAsWritten(table, At(d, Of(21, 30))) == At(d, MIDNIGHT)
  {
    var d := 20000;
    var table := map[d := DailyHours(d, Some(Of(21, 25)), Some(Of(23, 59)), false)];
    AvailableFromAsWrittenWraps(table, At(d, Of(21, 30)));
  }

  /** The intended window starts after every time of today up to closing,
      and agrees with the code whenever the closing is before 23:59. */
  lemma AvailableFromIsAfterClosing(table: HoursTable, now: DateTime)
    ensures OpenedToday(table, now) ==>
              forall t: Time :: t <= table[DateOf(now)].closing.value ==> At(DateOf(now), t) < AvailableFrom(table, now)
    ensures !OpenedToday(table, now) ==> AvailableFrom(table, now) == now
    ensures !OpenedToday(table, now) || table[DateOf(now)].closing.value < Of(23, 59) ==>
              AvailableFrom(table, now) == AvailableFromAsWritten(table, now)
  {
  }

  /** The list getAvailableTimes builds from a window start: the free slots
      starting in [start, start + 8 days], as start and room type, without
      repeats, in compareTo order. */
  function OfferedFrom(slots: seq<AppointmentSlot>, start: DateTime): seq<AvailableDateTimeAndRoomType>
  {
    SortBy(Distinct(ToAvailableAll(FindFreeBetween(slots, start, PlusDays(start, 8)))), Le)
  }

  /** getAvailableTimes as written, from the wrapping window start. */
  function GetAvailableTimesAsWritten(slots: seq<AppointmentSlot>, table: HoursTable, now: DateTime)
    : (r: seq<AvailableDateTimeAndRoomType>)
    ensures forall i, j :: 0 <= i < j < |r| ==> CompareTo(r[i], r[j]) < 0
  {
    OfferedFromStrictlyAscends(slots, AvailableFromAsWritten(table, now));
    OfferedFrom(slots, AvailableFromAsWritten(table, now))
  }

  /** getAvailableTimes from the intended window start. */
  function GetAvailableTimes(slots: seq<AppointmentSlot>, table: HoursTable, now: DateTime)
    : (r: seq<AvailableDateTimeAndRoomType>)
    ensures forall i, j :: 0 <= i < j < |r| ==> CompareTo(r[i], r[j]) < 0
  {
    OfferedFromStrictlyAscends(slots, AvailableFrom(table, now));
    OfferedFrom(slots, AvailableFrom(table, now))
  }

  /** Mapping, dropping repeats and sorting keep exactly the mapped values. */
  lemma OfferedValues(found: seq<AppointmentSlot>)
    ensures forall x :: x in SortBy(Distinct(ToAvailableAll(found)), Le) <==>
              exists s :: s in found && x == ToAvailable(s)
  {
    var mapped := ToAvailableAll(found);
    var r := SortBy(Distinct(mapped), Le);
    DistinctMeans(mapped);
    assert forall x :: x in r <==> x in multiset(r);
    assert forall x :: x in Distinct(mapped) <==> x in multiset(Distinct(mapped));
    forall x | x in r ensures exists s :: s in found && x == ToAvailable(s) {
      var k :| 0 <= k < |mapped| && mapped[k] == x;
      assert found[k] in found;
    }
    forall s | s in found ensures ToAvailable(s) in r {
      var k :| 0 <= k < |found| && found[k] == s;
      assert mapped[k] == ToAvailable(s);
    }
  }

  /** The free slots found in [lo, hi] are the table's free slots there. */
  lemma FreeFound(slots: seq<AppointmentSlot>, lo: DateTime, hi: DateTime)
    ensures forall s :: s in FindFreeBetween(slots, lo, hi) <==> s in slots && s.user.None? && lo <= s.start <= hi
  {
    OrderedFinder(slots, Query(lo, hi, None, Unassigned));
  }

  /** From any window start, the times offered are exactly the start and
      room type of the free slots in the window. */
  lemma OfferedFromFreeSlots(slots: seq<AppointmentSlot>, start: DateTime)
    ensures forall x :: x in OfferedFrom(slots, start) <==>
              exists s :: s in slots && s.user.None? && start <= s.start <= PlusDays(start, 8) && x == ToAvailable(s)
  {
    var end := PlusDays(start, 8);
    FreeFound(slots, start, end);
    OfferedValues(FindFreeBetween(slots, start, end));
  }

  /** The offered times are exactly the start and room type of the free
      slots in the window, from the wrapping start as written and from the
      intended one. */
  lemma AvailableTimesAreFreeSlots(slots: seq<AppointmentSlot>, table: HoursTable, now: DateTime)
    ensures var start := AvailableFromAsWritten(table, now);
            forall x :: x in GetAvailableTimesAsWritten(slots, table, now) <==>
              exists s :: s in slots && s.user.None? && start <= s.start <= PlusDays(start, 8) && x == ToAvailable(s)
    ensures var start := AvailableFrom(table, now);
            forall x :: x in GetAvailableTimes(slots, table, now) <==>
              exists s :: s in slots && s.user.None? && start <= s.start <= PlusDays(start, 8) && x == ToAvailable(s)
  {
    OfferedFromFreeSlots(slots, AvailableFromAsWritten(table, now));
    OfferedFromFreeSlots(slots, AvailableFrom(table, now));
  }

  /** From any window start the offered times strictly ascend in compareTo
      order, so none repeats. */
  lemma OfferedFromStrictlyAscends(slots: seq<AppointmentSlot>, start: DateTime)
    ensures var r := OfferedFrom(slots, start);
            forall i, j :: 0 <= i < j < |r| ==> CompareTo(r[i], r[j]) < 0
  {
    var d := Distinct(ToAvailableAll(FindFreeBetween(slots, start, PlusDays(start, 8))));
    var r := OfferedFrom(slots, start);
    LeIsTotalPreorder();
    SortBySorted(d, Le);
    DistinctMeans(ToAvailableAll(FindFreeBetween(slots, start, PlusDays(start, 8))));
    forall i, j | 0 <= i < j < |r| ensures CompareTo(r[i], r[j]) < 0 {
      if r[i] == r[j] {
        RepeatedTwice(r, i, j);
        assert false;
      }
      CompareToIsConsistentWithEquals(r[i], r[j]);
    }
  }

  /** With today's closing at 23:59 and the opening passed, the list as
      written offers every free slot of today again, those already begun
      included, while the intended list offers none of them. */
  lemma AvailableTimesAsWrittenReoffersToday(slots: seq<AppointmentSlot>, table: HoursTable, now: DateTime, s: AppointmentSlot)
    requires OpenedToday(table, now) && table[DateOf(now)].closing == Some(Of(23, 59))
    requires s in slots && s.user.None? && DateOf(s.start) == DateOf(now)
    ensures ToAvailable(s) in GetAvailableTimesAsWritten(slots, table, now)
    ensures ToAvailable(s) !in GetAvailableTimes(slots, table, now)
  {
    var today := DateOf(now);
    var written := AvailableFromAsWritten(table, now);
    var intended := AvailableFrom(table, now);
    AvailableFromAsWrittenWraps(table, now);
    assert written == today * SECONDS_PER_DAY;
    assert written <= s.start < written + SECONDS_PER_DAY;
    assert intended == (today + 1) * SECONDS_PER_DAY;
    AvailableTimesAreFreeSlots(slots, table, now);
  }

  // ---------------------------------------------------------------------
  // The day lists for attendants and admins

  /** The day's slots, from its first to its last second, in start order. */
  function DaySlots(slots: seq<AppointmentSlot>, date: Date): seq<AppointmentSlot>
  {
    FindByStartBetween(slots, StartOfDay(date), At(date, LAST_SECOND_OF_DAY))
  }

  /** filter(slot -> slot.getMikvahUser() != null), keeping the order. */
  function Booked(xs: seq<AppointmentSlot>): seq<AppointmentSlot>
  {
    if xs == [] then []
    else
      var n := |xs| - 1;
      Booked(xs[..n]) + (if xs[n].user.Some? then [xs[n]] else [])
  }

  /** The filter keeps exactly the booked slots. */
  lemma {:induction false} BookedMembers(xs: seq<AppointmentSlot>)
    ensures forall x :: x in Booked(xs) <==> x in xs && x.user.Some?
  {
    if xs != [] {
      var n := |xs| - 1;
      BookedMembers(xs[..n]);
      assert xs == xs[..n] + [xs[n]];
    }
  }

  /** The filter keeps the order of what it keeps. */
  lemma {:induction false} BookedKeepsOrder(xs: seq<AppointmentSlot>)
    requires SortedBy(xs, StartLe)
    ensures SortedBy(Booked(xs), StartLe)
  {
    if xs != [] {
      var n := |xs| - 1;
      assert SortedBy(xs[..n], StartLe);
      BookedKeepsOrder(xs[..n]);
      if xs[n].user.Some? {
        var b := Booked(xs[..n]);
        BookedMembers(xs[..n]);
        forall i | 0 <= i < |b| ensures StartLe(b[i], xs[n]) {
          var k :| 0 <= k < n && xs[..n][k] == b[i];
        }
      }
    }
  }

  /** A date-time lies between the first and the last second of a date
      exactly when it falls on that date. */
  lemma OnDate(dt: DateTime, date: Date)
    ensures StartOfDay(date) <= dt <= At(date, LAST_SECOND_OF_DAY) <==> DateOf(dt) == date
  {
    AtParts(date, MIDNIGHT);
    AtParts(date, LAST_SECOND_OF_DAY);
    AtParts(DateOf(dt), TimeOf(dt));
  }

  /** The day's booked slots, in start order. */
  function BookedOn(slots: seq<AppointmentSlot>, date: Date): seq<AppointmentSlot>
  {
    Booked(DaySlots(slots, date))
  }

  /** The day's list holds exactly the booked slots of that date, each as
      often as in the table, earliest first. */
  lemma BookedOnMeans(slots: seq<AppointmentSlot>, date: Date)
    ensures forall s :: s in BookedOn(slots, date) <==> s in slots && s.user.Some? && DateOf(s.start) == date
    ensures SortedBy(BookedOn(slots, date), StartLe)
    ensures forall k :: 0 <= k < |BookedOn(slots, date)| ==> BookedOn(slots, date)[k].user.Some?
  {
    OrderedFinder(slots, Query(StartOfDay(date), At(date, LAST_SECOND_OF_DAY), None, AnyUser));
    BookedMembers(DaySlots(slots, date));
    BookedKeepsOrder(DaySlots(slots, date));
    forall s: AppointmentSlot ensures StartOfDay(date) <= s.start <= At(date, LAST_SECOND_OF_DAY) <==> DateOf(s.start) == date {
      OnDate(s.start, date);
    }
  }

  /** AttendentAppointmentView as getAppointmentsForAttendants builds it. */
  datatype AttendantAppointmentView = AttendantAppointmentView(
    time: string,
    firstName: string,
    roomType: string,
    notes: Option<string>)

  function AttendantView(s: AppointmentSlot): AttendantAppointmentView
    requires s.user.Some?
  {
    AttendantAppointmentView(FormatTime(TimeOf(s.start)), s.user.value.firstName, LowerCaseName(s.roomType), s.notes)
  }

  /** Views of booked slots, in their order. */
  function AttendantViews(booked: seq<AppointmentSlot>): seq<AttendantAppointmentView>
    requires forall k :: 0 <= k < |booked| ==> booked[k].user.Some?
  {
    seq(|booked|, k requires 0 <= k < |booked| => AttendantView(booked[k]))
  }

  /** Comparator.comparing(AttendentAppointmentView::getTime): String
      order on the formatted time. */
  function TimeTextLe(a: AttendantAppointmentView, b: AttendantAppointmentView): bool
  {
    StringLe(a.time, b.time)
  }

  /** getAppointmentsForAttendants as written: today's booked slots as
      views, then sorted by the formatted "h:mm a" text. */
  function GetAppointmentsForAttendantsAsWritten(slots: seq<AppointmentSlot>, now: DateTime)
    : (r: seq<AttendantAppointmentView>)
    ensures |r| == |BookedOn(slots, DateOf(now))|
  {
    BookedOnMeans(slots, DateOf(now));
    SortBy(AttendantViews(BookedOn(slots, DateOf(now))), TimeTextLe)
  }

  /** getAppointmentsForAttendants as evidently intended: today's booked
      slots as views in the chronological order the finder returns them. */
  function GetAppointmentsForAttendants(slots: seq<AppointmentSlot>, now: DateTime): (r: seq<AttendantAppointmentView>)
    ensures |r| == |BookedOn(slots, DateOf(now))|
  {
    BookedOnMeans(slots, DateOf(now));
    AttendantViews(BookedOn(slots, DateOf(now)))
  }

  /** The attendants' list shows each of today's bookings once per slot,
      earliest first: view k is the k-th of today's booked slots, which are
      exactly the table's booked slots of today, in ascending start order. */
  lemma AttendantListIsTodaysBookingsInOrder(slots: seq<AppointmentSlot>, now: DateTime)
    ensures var b := BookedOn(slots, DateOf(now));
            && (forall s :: s in b <==> s in slots && s.user.Some? && DateOf(s.start) == DateOf(now))
            && SortedBy(b, StartLe)
            && |GetAppointmentsForAttendants(slots, now)| == |b|
            && forall k :: 0 <= k < |b| ==>
                 && b[k].user.Some?
                 && GetAppointmentsForAttendants(slots, now)[k] == AttendantView(b[k])
  {
    BookedOnMeans(slots, DateOf(now));
  }

  /** String order on the formatted times is a total preorder. */
  lemma TimeTextLeIsTotalPreorder()
    ensures TotalPreorder(TimeTextLe)
  {
    forall a, b ensures TimeTextLe(a, b) || TimeTextLe(b, a) {
      StringLeTotal(a.time, b.time);
    }
    forall a, b, c | TimeTextLe(a, b) && TimeTextLe(b, c) ensures TimeTextLe(a, c) {
      StringLeTransitive(a.time, b.time, c.time);
    }
  }

  /** The attendants' list as written holds the same views, ordered by
      their time text. */
  lemma AttendantListAsWrittenSortsByText(slots: seq<AppointmentSlot>, now: DateTime)
    ensures multiset(GetAppointmentsForAttendantsAsWritten(slots, now)) == multiset(GetAppointmentsForAttendants(slots, now))
    ensures SortedBy(GetAppointmentsForAttendantsAsWritten(slots, now), TimeTextLe)
  {
    BookedOnMeans(slots, DateOf(now));
    TimeTextLeIsTotalPreorder();
    SortBySorted(GetAppointmentsForAttendants(slots, now), TimeTextLe);
  }

  /** Sorting two values: kept in order when the first may come first,
      swapped otherwise. */
  lemma SortTwo<T>(a: T, b: T, le: (T, T) -> bool)
    ensures le(a, b) ==> SortBy([a, b], le) == [a, b]
    ensures !le(a, b) ==> SortBy([a, b], le) == [b, a]
  {
    assert [a, b][1..] == [b];
    assert [b][1..] == [];
  }

  /** The day's booked slots of a two-slot table whose slots are both
      booked on that day, the first earlier. */
  lemma BookedOnTwo(x: AppointmentSlot, y: AppointmentSlot, date: Date)
    requires x.user.Some? && y.user.Some?
    requires StartOfDay(date) <= x.start < y.start <= At(date, LAST_SECOND_OF_DAY)
    ensures BookedOn([x, y], date) == [x, y]
  {
    var q := Query(StartOfDay(date), At(date, LAST_SECOND_OF_DAY), None, AnyUser);
    assert [x, y][..1] == [x];
    assert [x][..0] == [];
    assert Select([x, y], q) == [x, y];
    SortTwo(x, y, StartLe);
    assert DaySlots([x, y], date) == [x, y];
    assert Booked([x]) == [x];
  }

  /** As text, 22:00 sorts before 21:00. */
  lemma EveningTimesAsText()
    ensures !StringLe(FormatTime(Of(21, 0)), FormatTime(Of(22, 0)))
    ensures StringLe(FormatTime(Of(22, 0)), FormatTime(Of(21, 0)))
  {
    FormatTimeExamples();
  }

  /** With two bookings on the day, earlier first, the list holds their
      two views; as written it then sorts them by their text. */
  lemma AttendantListOfTwo(x: AppointmentSlot, y: AppointmentSlot, now: DateTime)
    requires x.user.Some? && y.user.Some?
    requires StartOfDay(DateOf(now)) <= x.start < y.start <= At(DateOf(now), LAST_SECOND_OF_DAY)
    ensures GetAppointmentsForAttendants([x, y], now) == [AttendantView(x), AttendantView(y)]
    ensures GetAppointmentsForAttendantsAsWritten([x, y], now) == SortBy([AttendantView(x), AttendantView(y)], TimeTextLe)
  {
    BookedOnTwo(x, y, DateOf(now));
    var views := AttendantViews([x, y]);
    assert views == [AttendantView(x), AttendantView(y)];
    assert GetAppointmentsForAttendants([x, y], now) == views;
    assert GetAppointmentsForAttendantsAsWritten([x, y], now) == SortBy(views, TimeTextLe);
  }

  /** Sorting by the "h:mm a" text puts a 22:00 booking before a 21:00 one
      of the same evening: "10:00 PM" is less than "9:00 PM" as a String. */
  lemma AttendantListAsWrittenMisorders()
    ensures var d := 11292;
            var u := MikvahUser(1, "", "Rivka", "", "", "", "", true, "", "", "", "", "", "", "", "", false);
            var late := AppointmentSlot(1, At(d, Of(22, 0)), Some(u), None, None, Bath);
            var early := AppointmentSlot(0, At(d, Of(21, 0)), Some(u), None, None, Shower);
            && GetAppointmentsForAttendantsAsWritten([early, late], At(d, Of(18, 0))) == [AttendantView(late), AttendantView(early)]
            && GetAppointmentsForAttendants([early, late], At(d, Of(18, 0))) == [AttendantView(early), AttendantView(late)]
  {
    var d := 11292;
    var u := MikvahUser(1, "", "Rivka", "", "", "", "", true, "", "", "", "", "", "", "", "", false);
    var late := AppointmentSlot(1, At(d, Of(22, 0)), Some(u), None, None, Bath);
    var early := AppointmentSlot(0, At(d, Of(21, 0)), Some(u), None, None, Shower);
    AtParts(d, Of(18, 0));
    AtParts(d, Of(21, 0));
    AtParts(d, Of(22, 0));
    AttendantListOfTwo(early, late, At(d, Of(18, 0)));
    EveningTimesAsText();
    SortTwo(AttendantView(early), AttendantView(late), TimeTextLe);
  }

  /** AdminAppointmentView as getAppointmentsForAdmins builds it. */
  datatype AdminAppointmentView = AdminAppointmentView(
    id: nat,
    title: string,
    firstName: string,
    lastName: string,
    email: string,
    phoneNumber: string,
    time: string,
    roomType: string,
    notes: Option<string>)

  function AdminView(s: AppointmentSlot): AdminAppointmentView
    requires s.user.Some?
  {
    var u := s.user.value;
    AdminAppointmentView(s.id, u.title, u.firstName, u.lastName, u.email, u.phoneNumber,
                         FormatTime(TimeOf(s.start)), LowerCaseName(s.roomType), s.notes)
  }

  /** getAppointmentsForAdmins: the date's booked slots as views, in the
      order the finder returns them. */
  function GetAppointmentsForAdmins(slots: seq<AppointmentSlot>, date: Date): (r: seq<AdminAppointmentView>)
    ensures |r| == |BookedOn(slots, date)|
  {
    BookedOnMeans(slots, date);
    var b := BookedOn(slots, date);
    seq(|b|, k requires 0 <= k < |b| => AdminView(b[k]))
  }

  /** The admins' list shows the date's bookings, earliest first: view k
      is the k-th of the date's booked slots, which are exactly the table's
      booked slots of that date, in ascending start order. */
  lemma AdminListIsDaysBookingsInOrder(slots: seq<AppointmentSlot>, date: Date)
    ensures var b := BookedOn(slots, date);
            && (forall s :: s in b <==> s in slots && s.user.Some? && DateOf(s.start) == date)
            && SortedBy(b, StartLe)
            && |GetAppointmentsForAdmins(slots, date)| == |b|
            && forall k :: 0 <= k < |b| ==>
                 && b[k].user.Some?
                 && GetAppointmentsForAdmins(slots, date)[k] == AdminView(b[k])
  {
    BookedOnMeans(slots, date);
  }

  /** With two bookings on the date, earlier first, the list holds their
      two views in that order. */
  lemma AdminListOfTwo(x: AppointmentSlot, y: AppointmentSlot, date: Date)
    requires x.user.Some? && y.user.Some?
    requires StartOfDay(date) <= x.start < y.start <= At(date, LAST_SECOND_OF_DAY)
    ensures GetAppointmentsForAdmins([x, y], date) == [AdminView(x), AdminView(y)]
  {
    BookedOnTwo(x, y, date);
  }

  /** The two bookings of 1 December 2000, at 1:10 in the bath and 2:20 in
      the shower, are listed in that order with the users' details, the
      times as "1:10 AM" and "2:20 AM" and the room types in lower case. */
  lemma AdminListExample()
    ensures var d := 11292;
            var someUser := MikvahUser(1, "some title", "some-first", "some-last", "some-email@example.com", "", "", false, "", "1234567890", "", "", "", "", "", "", false);
            var anotherUser := MikvahUser(2, "another title", "another-first", "another-last", "another-email@example.com", "", "", false, "", "0987654321", "", "", "", "", "", "", false);
            var slot1 := AppointmentSlot(111, At(d, Of(1, 10)), Some(someUser), None, Some("some notes"), Bath);
            var slot2 := AppointmentSlot(222, At(d, Of(2, 20)), Some(anotherUser), None, Some("another notes"), Shower);
            GetAppointmentsForAdmins([slot1, slot2], d) == [
              AdminAppointmentView(111, "some title", "some-first", "some-last", "some-email@example.com", "1234567890",
                                   "1:10 AM", "bath", Some("some notes")),
              AdminAppointmentView(222, "another title", "another-first", "another-last", "another-email@example.com", "0987654321",
                                   "2:20 AM", "shower", Some("another notes"))]
  {
    var d := 11292;
    var someUser := MikvahUser(1, "some title", "some-first", "some-last", "some-email@example.com", "", "", false, "", "1234567890", "", "", "", "", "", "", false);
    var anotherUser := MikvahUser(2, "another title", "another-first", "another-last", "another-email@example.com", "", "", false, "", "0987654321", "", "", "", "", "", "", false);
    var slot1 := AppointmentSlot(111, At(d, Of(1, 10)), Some(someUser), None, Some("some notes"), Bath);
    var slot2 := AppointmentSlot(222, At(d, Of(2, 20)), Some(anotherUser), None, Some("another notes"), Shower);
    AtParts(d, Of(1, 10));
    AtParts(d, Of(2, 20));
    AdminListOfTwo(slot1, slot2, d);
    FormatTimeExamples();
  }
}
