/** AppointmentSlotCreationService.java: the hourly job that fills the slot
    table for the next fourteen days from the hours table. */
module SlotCreation {
  import opened Wrappers
  import opened Temporal
  import opened Zmanim
  import opened DailyHoursData
  import opened DailyHoursService
  import opened SlotData
  import opened Sorting

  /** ROOM_TYPE_TO_APPOINTMENT_LENGTH, in seconds. */
  function AppointmentLength(rt: RoomType): (d: int)
    ensures d > 0
  {
    if rt.Shower? then 30 * 60 else 75 * 60
  }

  /** APPOINTMENT_ROOM_TYPE_TO_LIST_OF_START_TIME_OFFSETS, in minutes after
      opening: one entry per room, five showers and seven baths. */
  function StartOffsets(rt: RoomType): seq<int>
  {
    if rt.Shower? then [25, 25, 30, 30, 35] else [0, 0, 5, 5, 10, 10, 10]
  }

  /** The keys of that map, in the order ImmutableMap.of gives them. */
  const ROOM_TYPES: seq<RoomType> := [Shower, Bath]

  /** How many days ahead, from tomorrow, createSlots fills. */
  const DAYS_AHEAD: nat := 14

  /** wouldEndAfterClosing: the appointment's end is strictly after closing,
      so one ending exactly at closing is allowed. */
  predicate WouldEndAfterClosing(rt: RoomType, appointmentStart: DateTime, closing: DateTime)
  {
    appointmentStart + AppointmentLength(rt) > closing
  }

  /** An appointment ending exactly at closing is allowed, and once a start
      would end after closing, so would every later start: the while loop
      stops at the first start that does not fit. */
  lemma WouldEndAfterClosingFromThenOn(rt: RoomType, s: DateTime, s': DateTime, closing: DateTime)
    ensures s + AppointmentLength(rt) == closing ==> !WouldEndAfterClosing(rt, s, closing)
    ensures s <= s' && WouldEndAfterClosing(rt, s, closing) ==> WouldEndAfterClosing(rt, s', closing)
  {
  }

  /** The first start createAppointments tries: the day at the opening time
      plus the offset (LocalTime.plusMinutes, which wraps at midnight). */
  function OffsetStart(day: Date, hours: DailyHours, offset: int): DateTime
    requires hours.opening.Some?
  {
    At(day, PlusMinutes(hours.opening.value, offset))
  }

  /** The first start lies on the day asked for, even when the opening plus
      the offset passes midnight and wraps to the early morning. */
  lemma OffsetStartOnDay(day: Date, hours: DailyHours, offset: int)
    requires hours.opening.Some?
    ensures DateOf(OffsetStart(day, hours, offset)) == day
    ensures (TimeOf(OffsetStart(day, hours, offset)) - hours.opening.value - 60 * offset) % SECONDS_PER_DAY == 0
  {
    AtParts(day, PlusMinutes(hours.opening.value, offset));
  }

  /** The closing of the hours row, on the row's own day. */
  function ClosingOf(hours: DailyHours): DateTime
    requires hours.closing.Some?
  {
    At(hours.day, hours.closing.value)
  }

  /** The starts the while loop of createAppointments visits: from the
      first start, one appointment length apart, until an appointment
      would end after closing. */
  function Progression(rt: RoomType, start: DateTime, closing: DateTime): seq<DateTime>
    decreases closing - start
  {
    if WouldEndAfterClosing(rt, start, closing) then []
    else [start] + Progression(rt, start + AppointmentLength(rt), closing)
  }

  /** The loop visits nothing exactly when the first appointment would end
      after closing; otherwise it begins at the first start, and its last
      start ends by closing while the one after it would not. */
  lemma {:induction false} ProgressionStopsAtFirstMisfit(rt: RoomType, start: DateTime, closing: DateTime)
    ensures var r := Progression(rt, start, closing);
            && (r == [] <==> WouldEndAfterClosing(rt, start, closing))
            && (r != [] ==> r[0] == start && r[|r| - 1] + AppointmentLength(rt) <= closing
                            && WouldEndAfterClosing(rt, r[|r| - 1] + AppointmentLength(rt), closing))
    decreases closing - start
  {
    if !WouldEndAfterClosing(rt, start, closing) {
      ProgressionStopsAtFirstMisfit(rt, start + AppointmentLength(rt), closing);
    }
  }

  /** The k-th start of a progression is k appointment lengths after the
      first, and the progression holds exactly the appointments that end
      by closing. */
  lemma {:induction false} ProgressionIsArithmetic(rt: RoomType, start: DateTime, closing: DateTime)
    ensures forall k :: 0 <= k < |Progression(rt, start, closing)| ==>
              Progression(rt, start, closing)[k] == start + k * AppointmentLength(rt)
    ensures forall k: nat :: k < |Progression(rt, start, closing)| <==>
              start + k * AppointmentLength(rt) + AppointmentLength(rt) <= closing
    decreases closing - start
  {
    var d := AppointmentLength(rt);
    var p := Progression(rt, start, closing);
    if WouldEndAfterClosing(rt, start, closing) {
      forall k: nat ensures start + k * d + d > closing {
        assert k * d >= 0;
      }
    } else {
      var rest := Progression(rt, start + d, closing);
      ProgressionIsArithmetic(rt, start + d, closing);
      assert p == [start] + rest;
      forall k | 0 <= k < |p| ensures p[k] == start + k * d {
        if k > 0 {
          assert p[k] == rest[k - 1];
          assert (k - 1) * d + d == k * d;
        }
      }
      forall k: nat ensures k < |p| <==> start + k * d + d <= closing {
        if k > 0 {
          assert (k - 1) * d + d == k * d;
          assert k - 1 < |rest| <==> start + d + (k - 1) * d + d <= closing;
        }
      }
    }
  }

  /** A time is visited by a progression exactly when it is a whole number
      of appointment lengths after the first start and the appointment
      starting then ends by closing. */
  lemma {:induction false} ProgressionMembership(rt: RoomType, start: DateTime, closing: DateTime, t: DateTime)
    ensures t in Progression(rt, start, closing) <==>
              start <= t && (t - start) % AppointmentLength(rt) == 0 && t + AppointmentLength(rt) <= closing
  {
    var d := AppointmentLength(rt);
    var p := Progression(rt, start, closing);
    ProgressionIsArithmetic(rt, start, closing);
    if t in p {
      var k :| 0 <= k < |p| && p[k] == t;
      assert t - start == k * d;
      MultipleHasNoRemainder(k, rt);
      assert start + k * d + d <= closing;
    }
    if start <= t && (t - start) % d == 0 && t + d <= closing {
      var k: nat := (t - start) / d;
      assert t - start == d * k;
      assert start + k * d + d <= closing;
      assert p[k] == t;
    }
  }

  lemma {:induction false} MultipleHasNoRemainder(k: nat, rt: RoomType)
    ensures (k * AppointmentLength(rt)) % AppointmentLength(rt) == 0
  {
    if rt.Shower? {
      assert (k * 1800) % 1800 == 0;
    } else {
      assert (k * 4500) % 4500 == 0;
    }
  }

  /** The starts of a progression strictly increase, so none repeats. */
  lemma {:induction false} ProgressionHasNoRepeats(rt: RoomType, start: DateTime, closing: DateTime, t: DateTime)
    ensures multiset(Progression(rt, start, closing))[t] == if t in Progression(rt, start, closing) then 1 else 0
  {
    var p := Progression(rt, start, closing);
    ProgressionIsArithmetic(rt, start, closing);
    forall i, j | 0 <= i < j < |p| ensures p[i] < p[j] {
      assert j * AppointmentLength(rt) == i * AppointmentLength(rt) + (j - i) * AppointmentLength(rt);
    }
    StrictlyIncreasingCount(p, t);
  }

  lemma {:induction false} StrictlyIncreasingCount(p: seq<DateTime>, t: DateTime)
    requires forall i, j :: 0 <= i < j < |p| ==> p[i] < p[j]
    ensures multiset(p)[t] == if t in p then 1 else 0
  {
    if p != [] {
      assert p == [p[0]] + p[1..];
      StrictlyIncreasingCount(p[1..], t);
      if p[0] == t {
        assert t !in p[1..];
      }
    }
  }

  /** The starts a run of createAppointments saves: those of the
      progression that are not among the day's existing starts. */
  function Saved(starts: seq<DateTime>, existing: seq<DateTime>): seq<DateTime>
  {
    if starts == [] then []
    else (if starts[0] in existing then [] else [starts[0]]) + Saved(starts[1..], existing)
  }

  /** A start is saved exactly when it is in the progression and not among
      the existing starts. */
  lemma {:induction false} SavedMembers(starts: seq<DateTime>, existing: seq<DateTime>)
    ensures forall t :: t in Saved(starts, existing) <==> t in starts && t !in existing
  {
    if starts != [] {
      SavedMembers(starts[1..], existing);
      assert forall t :: t in starts <==> t == starts[0] || t in starts[1..];
    }
  }

  /** With no existing starts nothing is filtered out; this is the only
      case createSlots reaches. */
  lemma {:induction false} SavedWithoutExisting(starts: seq<DateTime>)
    ensures Saved(starts, []) == starts
  {
    if starts != [] {
      SavedWithoutExisting(starts[1..]);
      assert starts == [starts[0]] + starts[1..];
    }
  }

  /** The slots repo.save appends for these starts, with the ids generated
      from firstId on. */
  function NewSlots(firstId: nat, starts: seq<DateTime>, rt: RoomType): (r: seq<AppointmentSlot>)
    ensures |r| == |starts|
    ensures forall k :: 0 <= k < |r| ==> r[k] == NewSlot(firstId + k, starts[k], rt)
  {
    if starts == [] then []
    else NewSlots(firstId, starts[..|starts| - 1], rt) + [NewSlot(firstId + |starts| - 1, starts[|starts| - 1], rt)]
  }

  lemma {:induction false} NewSlotsAppend(firstId: nat, a: seq<DateTime>, b: seq<DateTime>, rt: RoomType)
    ensures NewSlots(firstId, a + b, rt) == NewSlots(firstId, a, rt) + NewSlots(firstId + |a|, b, rt)
  {
    var l := NewSlots(firstId, a + b, rt);
    var r := NewSlots(firstId, a, rt) + NewSlots(firstId + |a|, b, rt);
    forall k | 0 <= k < |l| ensures l[k] == r[k] {
      if k >= |a| {
        assert (a + b)[k] == b[k - |a|];
      }
    }
  }

  /** The starts of all offsets of a room type, offset by offset. */
  function OffsetsStarts(rt: RoomType, day: Date, hours: DailyHours, offsets: seq<int>): seq<DateTime>
    requires hours.opening.Some? && hours.closing.Some?
  {
    if offsets == [] then []
    else
      OffsetsStarts(rt, day, hours, offsets[..|offsets| - 1])
        + Progression(rt, OffsetStart(day, hours, offsets[|offsets| - 1]), ClosingOf(hours))
  }

  /** The starts createSlots generates for one room type on one day. */
  function PairStarts(rt: RoomType, day: Date, hours: DailyHours): seq<DateTime>
    requires hours.opening.Some? && hours.closing.Some?
  {
    OffsetsStarts(rt, day, hours, StartOffsets(rt))
  }

  /** The offset's progression reaches the time: the time is a whole
      number of appointment lengths after the offset's first start, and an
      appointment starting then ends by closing. */
  ghost predicate Reaches(rt: RoomType, day: Date, hours: DailyHours, offset: int, t: DateTime)
    requires hours.opening.Some? && hours.closing.Some?
  {
    && OffsetStart(day, hours, offset) <= t
    && (t - OffsetStart(day, hours, offset)) % AppointmentLength(rt) == 0
    && t + AppointmentLength(rt) <= ClosingOf(hours)
  }

  /** How many of the offsets reach the time, counting repeated offsets
      each time they occur. */
  ghost function Reaching(rt: RoomType, day: Date, hours: DailyHours, offsets: seq<int>, t: DateTime): nat
    requires hours.opening.Some? && hours.closing.Some?
  {
    if offsets == [] then 0
    else
      Reaching(rt, day, hours, offsets[..|offsets| - 1], t)
        + (if Reaches(rt, day, hours, offsets[|offsets| - 1], t) then 1 else 0)
  }

  /** Each start occurs among the generated starts exactly as often as
      there are offsets reaching it: a start is repeated once per room. */
  lemma {:induction false} StartMultiplicity(rt: RoomType, day: Date, hours: DailyHours, offsets: seq<int>, t: DateTime)
    requires hours.opening.Some? && hours.closing.Some?
    ensures multiset(OffsetsStarts(rt, day, hours, offsets))[t] == Reaching(rt, day, hours, offsets, t)
  {
    if offsets != [] {
      var n := |offsets| - 1;
      var p := Progression(rt, OffsetStart(day, hours, offsets[n]), ClosingOf(hours));
      assert multiset(OffsetsStarts(rt, day, hours, offsets))
          == multiset(OffsetsStarts(rt, day, hours, offsets[..n])) + multiset(p);
      StartMultiplicity(rt, day, hours, offsets[..n], t);
      ProgressionHasNoRepeats(rt, OffsetStart(day, hours, offsets[n]), ClosingOf(hours), t);
      ProgressionMembership(rt, OffsetStart(day, hours, offsets[n]), ClosingOf(hours), t);
      assert (t in p) == Reaches(rt, day, hours, offsets[n], t);
    }
  }

  /** Every generated start is reached by one of the offsets, so its
      appointment ends by closing, and it lies on the row's day. */
  lemma {:induction false} OffsetsStartsFit(rt: RoomType, day: Date, hours: DailyHours, offsets: seq<int>, t: DateTime)
    requires hours.opening.Some? && hours.closing.Some? && hours.day == day
    requires t in OffsetsStarts(rt, day, hours, offsets)
    ensures exists o :: o in offsets && Reaches(rt, day, hours, o, t)
    ensures DateOf(t) == day
  {
    var n := |offsets| - 1;
    if t in OffsetsStarts(rt, day, hours, offsets[..n]) {
      OffsetsStartsFit(rt, day, hours, offsets[..n], t);
      var o :| o in offsets[..n] && Reaches(rt, day, hours, o, t);
      assert o in offsets;
    } else {
      ProgressionMembership(rt, OffsetStart(day, hours, offsets[n]), ClosingOf(hours), t);
      assert offsets[n] in offsets;
      assert Reaches(rt, day, hours, offsets[n], t);
      assert StartOfDay(day) <= t < StartOfDay(day + 1);
    }
  }

  /** The existence check of createSlots: the slots of a room type between
      the start of the day and the start of the next day, both included. */
  function DayQuery(day: Date, rt: RoomType): Query
  {
    Query(StartOfDay(day), StartOfDay(day + 1), Some(rt), AnyUser)
  }

  /** One iteration of the inner loop of createSlots: a day and a room type. */
  datatype Step = Step(day: Date, roomType: RoomType)

  /** The steps of one day, in the order of ROOM_TYPES. */
  function DaySteps(day: Date): seq<Step>
  {
    [Step(day, ROOM_TYPES[0]), Step(day, ROOM_TYPES[1])]
  }

  /** The steps of createSlots over the first n days after today, in the
      order its two loops take them. */
  function Steps(today: Date, n: nat): seq<Step>
  {
    if n == 0 then [] else Steps(today, n - 1) + DaySteps(today + n)
  }

  /** Every step of the first n days is on one of those days. */
  lemma {:induction false} StepsWithin(today: Date, n: nat)
    ensures DaysWithin(Steps(today, n), today + 1, today + n)
  {
    if n > 0 {
      var steps := Steps(today, n);
      StepsWithin(today, n - 1);
      forall i | 0 <= i < |steps| ensures today + 1 <= steps[i].day <= today + n {
        if i < |Steps(today, n - 1)| {
          assert steps[i] == Steps(today, n - 1)[i];
        }
      }
    }
  }

  /** Every room type of each of the first n days has its step. */
  lemma {:induction false} StepsCover(today: Date, n: nat, day: Date, rt: RoomType)
    requires today + 1 <= day <= today + n
    ensures Step(day, rt) in Steps(today, n)
  {
    if day < today + n {
      StepsCover(today, n - 1, day, rt);
    } else if rt.Shower? {
      assert Steps(today, n)[|Steps(today, n)| - 2] == Step(day, rt);
    } else {
      assert Steps(today, n)[|Steps(today, n)| - 1] == Step(day, rt);
    }
  }

  ghost predicate DaysWithin(steps: seq<Step>, lo: Date, hi: Date)
  {
    forall i :: 0 <= i < |steps| ==> lo <= steps[i].day <= hi
  }

  /** One step of createSlots, as a function of the slot table: skipped
      when the day already has slots of the room type, has no hours row, is
      closed, or is the eve of Shabbos or a yom tov; otherwise the generated
      slots are appended. */
  function SlotsAfterStep(slots: seq<AppointmentSlot>, table: HoursTable, alm: Almanac, s: Step): seq<AppointmentSlot>
    requires OpenRowsTimed(table)
  {
    if Select(slots, DayQuery(s.day, s.roomType)) != [] then slots
    else if s.day !in table then slots
    else if table[s.day].closed || IsLeilYomTovOrShabbos(alm, s.day) then slots
    else slots + NewSlots(|slots|, PairStarts(s.roomType, s.day, table[s.day]), s.roomType)
  }

  /** The slot table after the steps, taken in order. */
  function SlotsAfter(slots: seq<AppointmentSlot>, table: HoursTable, alm: Almanac, steps: seq<Step>): seq<AppointmentSlot>
    requires OpenRowsTimed(table)
  {
    if steps == [] then slots
    else SlotsAfterStep(SlotsAfter(slots, table, alm, steps[..|steps| - 1]), table, alm, steps[|steps| - 1])
  }

  /** One more step after the others. */
  lemma {:induction false} SlotsAfterSnoc(slots: seq<AppointmentSlot>, table: HoursTable, alm: Almanac, steps: seq<Step>, s: Step)
    requires OpenRowsTimed(table)
    ensures SlotsAfter(slots, table, alm, steps + [s]) == SlotsAfterStep(SlotsAfter(slots, table, alm, steps), table, alm, s)
  {
    assert (steps + [s])[..|steps|] == steps;
  }

  /** A slot as createSlots makes it on that day: free, without charge or
      notes, on an open day that is not the eve of Shabbos or a yom tov,
      at a start one of its room type's offsets reaches. */
  ghost predicate CreatedOn(table: HoursTable, alm: Almanac, day: Date, x: AppointmentSlot)
    requires OpenRowsTimed(table)
  {
    && x.user.None? && x.stripeChargeId.None? && x.notes.None?
    && DateOf(x.start) == day
    && day in table && !table[day].closed && !IsLeilYomTovOrShabbos(alm, day)
    && exists o :: o in StartOffsets(x.roomType) && Reaches(x.roomType, day, table[day], o, x.start)
  }

  /** The table grows at its end only. */
  ghost predicate Extends(longer: seq<AppointmentSlot>, shorter: seq<AppointmentSlot>)
  {
    |shorter| <= |longer| && longer[..|shorter|] == shorter
  }

  /** From `slots` to `r` the table only grows, and every added slot has its
      position as id and was created on a day in [lo, hi]. */
  ghost predicate AddsCreatedSlots(table: HoursTable, alm: Almanac, slots: seq<AppointmentSlot>,
                                   r: seq<AppointmentSlot>, lo: Date, hi: Date)
    requires OpenRowsTimed(table)
  {
    && Extends(r, slots)
    && AllCreatedBetween(table, alm, r, |slots|, lo, hi)
  }

  /** The slot was created on a day in [lo, hi]. */
  ghost predicate CreatedBetween(table: HoursTable, alm: Almanac, x: AppointmentSlot, lo: Date, hi: Date)
    requires OpenRowsTimed(table)
  {
    lo <= DateOf(x.start) <= hi && CreatedOn(table, alm, DateOf(x.start), x)
  }

  /** Every slot from position `from` on has its position as id and was
      created on a day in [lo, hi]. */
  ghost predicate AllCreatedBetween(table: HoursTable, alm: Almanac, r: seq<AppointmentSlot>, from: nat, lo: Date, hi: Date)
    requires OpenRowsTimed(table)
    decreases |r| - from
  {
    from >= |r|
    || (r[from].id == from && CreatedBetween(table, alm, r[from], lo, hi)
        && AllCreatedBetween(table, alm, r, from + 1, lo, hi))
  }

  lemma {:induction false} AllCreatedBetweenMeans(table: HoursTable, alm: Almanac, r: seq<AppointmentSlot>, from: nat,
                                                  lo: Date, hi: Date)
    requires OpenRowsTimed(table)
    ensures AllCreatedBetween(table, alm, r, from, lo, hi)
            <==> forall k :: from <= k < |r| ==> r[k].id == k && CreatedBetween(table, alm, r[k], lo, hi)
    decreases |r| - from
  {
    if from < |r| {
      AllCreatedBetweenMeans(table, alm, r, from + 1, lo, hi);
    }
  }

  lemma {:induction false} AddsChain(table: HoursTable, alm: Almanac, a: seq<AppointmentSlot>, b: seq<AppointmentSlot>,
                                     c: seq<AppointmentSlot>, lo: Date, hi: Date)
    requires OpenRowsTimed(table)
    requires AddsCreatedSlots(table, alm, a, b, lo, hi) && AddsCreatedSlots(table, alm, b, c, lo, hi)
    ensures AddsCreatedSlots(table, alm, a, c, lo, hi)
  {
    assert c[..|a|] == c[..|b|][..|a|];
    AllCreatedBetweenMeans(table, alm, b, |a|, lo, hi);
    AllCreatedBetweenMeans(table, alm, c, |b|, lo, hi);
    AllCreatedBetweenMeans(table, alm, c, |a|, lo, hi);
    forall k | |a| <= k < |b| ensures c[k] == b[k] {
      assert c[..|b|][k] == c[k];
    }
  }

  lemma {:induction false} AddsWiden(table: HoursTable, alm: Almanac, a: seq<AppointmentSlot>, b: seq<AppointmentSlot>,
                                     lo: Date, hi: Date, lo': Date, hi': Date)
    requires OpenRowsTimed(table) && AddsCreatedSlots(table, alm, a, b, lo, hi) && lo' <= lo && hi <= hi'
    ensures AddsCreatedSlots(table, alm, a, b, lo', hi')
  {
    AllCreatedBetweenMeans(table, alm, b, |a|, lo, hi);
    AllCreatedBetweenMeans(table, alm, b, |a|, lo', hi');
  }

  lemma {:induction false} NothingAdded(table: HoursTable, alm: Almanac, a: seq<AppointmentSlot>, lo: Date, hi: Date)
    requires OpenRowsTimed(table)
    ensures AddsCreatedSlots(table, alm, a, a, lo, hi)
  {
    assert a[..|a|] == a;
  }

  /** Adding created slots keeps every id equal to its table position. */
  lemma {:induction false} AddsKeepsIds(table: HoursTable, alm: Almanac, slots: seq<AppointmentSlot>,
                                        r: seq<AppointmentSlot>, lo: Date, hi: Date)
    requires OpenRowsTimed(table) && IdsAreIndices(slots) && AddsCreatedSlots(table, alm, slots, r, lo, hi)
    ensures IdsAreIndices(r)
  {
    AllCreatedBetweenMeans(table, alm, r, |slots|, lo, hi);
    forall k | 0 <= k < |slots| ensures r[k].id == k {
      assert r[..|slots|][k] == r[k];
    }
  }

  /** One step keeps the existing slots and appends slots created on its
      day, with the next ids. */
  lemma {:induction false} StepShape(slots: seq<AppointmentSlot>, table: HoursTable, alm: Almanac, s: Step)
    requires Keyed(table) && OpenRowsTimed(table)
    ensures AddsCreatedSlots(table, alm, slots, SlotsAfterStep(slots, table, alm, s), s.day, s.day)
  {
    var r := SlotsAfterStep(slots, table, alm, s);
    var day, rt := s.day, s.roomType;
    if r == slots {
      NothingAdded(table, alm, slots, day, day);
    } else {
      var starts := PairStarts(rt, day, table[day]);
      assert r == slots + NewSlots(|slots|, starts, rt);
      assert r[..|slots|] == slots;
      forall k | |slots| <= k < |r| ensures r[k].id == k && DateOf(r[k].start) == day && CreatedOn(table, alm, day, r[k]) {
        assert r[k] == NewSlot(k, starts[k - |slots|], rt);
        assert starts[k - |slots|] in starts;
        OffsetsStartsFit(rt, day, table[day], StartOffsets(rt), starts[k - |slots|]);
      }
      AllCreatedBetweenMeans(table, alm, r, |slots|, day, day);
    }
  }

  /** The slots of a run over [lo, hi], followed by the slots of a step on a
      day in [lo, hi], are a run over [lo, hi]. */
  lemma {:induction false} ShapeStep(table: HoursTable, alm: Almanac, slots: seq<AppointmentSlot>, before: seq<AppointmentSlot>,
                                     after: seq<AppointmentSlot>, lo: Date, hi: Date, day: Date)
    requires OpenRowsTimed(table) && lo <= day <= hi
    requires AddsCreatedSlots(table, alm, slots, before, lo, hi)
    requires AddsCreatedSlots(table, alm, before, after, day, day)
    ensures AddsCreatedSlots(table, alm, slots, after, lo, hi)
  {
    AddsWiden(table, alm, before, after, day, day, lo, hi);
    AddsChain(table, alm, slots, before, after, lo, hi);
  }

  /** What a run of steps adds: slots with the next ids, each created on the
      day of one of the steps. */
  lemma {:induction false} RunShape(slots: seq<AppointmentSlot>, table: HoursTable, alm: Almanac, steps: seq<Step>, lo: Date, hi: Date)
    requires Keyed(table) && OpenRowsTimed(table) && DaysWithin(steps, lo, hi)
    ensures AddsCreatedSlots(table, alm, slots, SlotsAfter(slots, table, alm, steps), lo, hi)
    decreases |steps|
  {
    if steps == [] {
      NothingAdded(table, alm, slots, lo, hi);
    } else {
      var n := |steps| - 1;
      assert DaysWithin(steps[..n], lo, hi) by {
        forall i | 0 <= i < n ensures lo <= steps[..n][i].day <= hi {
          assert steps[..n][i] == steps[i];
        }
      }
      assert lo <= steps[n].day <= hi;
      RunShape(slots, table, alm, steps[..n], lo, hi);
      StepShape(SlotsAfter(slots, table, alm, steps[..n]), table, alm, steps[n]);
      ShapeStep(table, alm, slots, SlotsAfter(slots, table, alm, steps[..n]), SlotsAfter(slots, table, alm, steps),
                lo, hi, steps[n].day);
    }
  }

  /** A step createSlots has nothing more to do for. */
  ghost predicate Settled(slots: seq<AppointmentSlot>, table: HoursTable, alm: Almanac, s: Step)
    requires OpenRowsTimed(table)
  {
    || Select(slots, DayQuery(s.day, s.roomType)) != []
    || s.day !in table
    || table[s.day].closed
    || IsLeilYomTovOrShabbos(alm, s.day)
    || PairStarts(s.roomType, s.day, table[s.day]) == []
  }

  /** A settled step stays settled when slots are appended. */
  lemma {:induction false} SettledStaysSettled(slots: seq<AppointmentSlot>, longer: seq<AppointmentSlot>, table: HoursTable,
                                               alm: Almanac, s: Step)
    requires OpenRowsTimed(table) && Settled(slots, table, alm, s) && Extends(longer, slots)
    ensures Settled(longer, table, alm, s)
  {
    var q := DayQuery(s.day, s.roomType);
    if Select(slots, q) != [] {
      var x := Select(slots, q)[0];
      SelectMembership(slots, q);
      SelectMembership(longer, q);
      assert x in Select(slots, q);
      var k :| 0 <= k < |slots| && slots[k] == x;
      assert longer[..|slots|][k] == x;
      assert x in Select(longer, q);
    }
  }

  /** After it is taken a step is settled: the slots it appended are found
      by the existence check on the next run. */
  lemma {:induction false} StepSettles(slots: seq<AppointmentSlot>, table: HoursTable, alm: Almanac, s: Step)
    requires Keyed(table) && OpenRowsTimed(table)
    ensures Settled(SlotsAfterStep(slots, table, alm, s), table, alm, s)
  {
    var r := SlotsAfterStep(slots, table, alm, s);
    var day, rt := s.day, s.roomType;
    if r != slots {
      var starts := PairStarts(rt, day, table[day]);
      assert r[|slots|] == NewSlot(|slots|, starts[0], rt);
      assert starts[0] in starts;
      OffsetsStartsFit(rt, day, table[day], StartOffsets(rt), starts[0]);
      assert Matches(r[|slots|], DayQuery(day, rt));
      assert r[|slots|] in r;
      SelectMembership(r, DayQuery(day, rt));
    }
  }

  /** A step only appends. */
  lemma {:induction false} StepExtends(slots: seq<AppointmentSlot>, table: HoursTable, alm: Almanac, s: Step)
    requires OpenRowsTimed(table)
    ensures Extends(SlotsAfterStep(slots, table, alm, s), slots)
  {
    assert SlotsAfterStep(slots, table, alm, s)[..|slots|] == slots;
  }

  /** Every one of the steps is settled. */
  ghost predicate AllSettled(slots: seq<AppointmentSlot>, table: HoursTable, alm: Almanac, steps: seq<Step>)
    requires OpenRowsTimed(table)
    decreases |steps|
  {
    || steps == []
    || (Settled(slots, table, alm, steps[|steps| - 1]) && AllSettled(slots, table, alm, steps[..|steps| - 1]))
  }

  lemma {:induction false} AllSettledMeans(slots: seq<AppointmentSlot>, table: HoursTable, alm: Almanac, steps: seq<Step>)
    requires OpenRowsTimed(table)
    ensures AllSettled(slots, table, alm, steps) <==> forall s :: s in steps ==> Settled(slots, table, alm, s)
    decreases |steps|
  {
    if steps != [] {
      var n := |steps| - 1;
      AllSettledMeans(slots, table, alm, steps[..n]);
      assert steps == steps[..n] + [steps[n]];
    }
  }

  /** Appending slots keeps settled steps settled. */
  lemma {:induction false} AllSettledStays(before: seq<AppointmentSlot>, after: seq<AppointmentSlot>,
                                           table: HoursTable, alm: Almanac, steps: seq<Step>)
    requires OpenRowsTimed(table) && AllSettled(before, table, alm, steps) && Extends(after, before)
    ensures AllSettled(after, table, alm, steps)
    decreases |steps|
  {
    if steps != [] {
      AllSettledStays(before, after, table, alm, steps[..|steps| - 1]);
      SettledStaysSettled(before, after, table, alm, steps[|steps| - 1]);
    }
  }

  /** The last step settles itself and keeps the earlier ones settled. */
  lemma {:induction false} RunStepSettles(before: seq<AppointmentSlot>, table: HoursTable, alm: Almanac, earlier: seq<Step>, s: Step)
    requires Keyed(table) && OpenRowsTimed(table) && AllSettled(before, table, alm, earlier)
    ensures Settled(SlotsAfterStep(before, table, alm, s), table, alm, s)
    ensures AllSettled(SlotsAfterStep(before, table, alm, s), table, alm, earlier)
  {
    StepSettles(before, table, alm, s);
    StepExtends(before, table, alm, s);
    AllSettledStays(before, SlotsAfterStep(before, table, alm, s), table, alm, earlier);
  }

  /** After a run every one of its steps is settled. */
  lemma {:induction false} RunSettles(slots: seq<AppointmentSlot>, table: HoursTable, alm: Almanac, steps: seq<Step>)
    requires Keyed(table) && OpenRowsTimed(table)
    ensures AllSettled(SlotsAfter(slots, table, alm, steps), table, alm, steps)
    decreases |steps|
  {
    if steps != [] {
      var n := |steps| - 1;
      RunSettles(slots, table, alm, steps[..n]);
      RunStepSettles(SlotsAfter(slots, table, alm, steps[..n]), table, alm, steps[..n], steps[n]);
    }
  }

  /** A settled step changes nothing. */
  lemma {:induction false} SettledStepIsUnchanged(slots: seq<AppointmentSlot>, table: HoursTable, alm: Almanac, s: Step)
    requires OpenRowsTimed(table) && Settled(slots, table, alm, s)
    ensures SlotsAfterStep(slots, table, alm, s) == slots
  {
    if Select(slots, DayQuery(s.day, s.roomType)) == [] && s.day in table && !table[s.day].closed
       && !IsLeilYomTovOrShabbos(alm, s.day) {
      assert slots + NewSlots(|slots|, [], s.roomType) == slots;
    }
  }

  /** Once every step is settled a run changes nothing. */
  lemma {:induction false} SettledRunIsUnchanged(slots: seq<AppointmentSlot>, table: HoursTable, alm: Almanac, steps: seq<Step>)
    requires OpenRowsTimed(table) && AllSettled(slots, table, alm, steps)
    ensures SlotsAfter(slots, table, alm, steps) == slots
    decreases |steps|
  {
    if steps != [] {
      var n := |steps| - 1;
      SettledRunIsUnchanged(slots, table, alm, steps[..n]);
      SettledStepIsUnchanged(slots, table, alm, steps[n]);
    }
  }

  /** Running createSlots again on the same day, with the same hours,
      creates nothing. */
  lemma {:induction false} CreateSlotsIsIdempotent(slots: seq<AppointmentSlot>, table: HoursTable, alm: Almanac, today: Date)
    requires Keyed(table) && OpenRowsTimed(table)
    ensures SlotsAfter(SlotsAfter(slots, table, alm, Steps(today, DAYS_AHEAD)), table, alm, Steps(today, DAYS_AHEAD))
            == SlotsAfter(slots, table, alm, Steps(today, DAYS_AHEAD))
  {
    RunSettles(slots, table, alm, Steps(today, DAYS_AHEAD));
    SettledRunIsUnchanged(SlotsAfter(slots, table, alm, Steps(today, DAYS_AHEAD)), table, alm, Steps(today, DAYS_AHEAD));
  }

  /** After a run, each of the fourteen days that is open, is not the eve
      of Shabbos or a yom tov, and leaves room for an appointment has slots
      of each room type. */
  lemma {:induction false} CreateSlotsCoversFortnight(slots: seq<AppointmentSlot>, table: HoursTable, alm: Almanac, today: Date,
                                                      day: Date, rt: RoomType)
    requires Keyed(table) && OpenRowsTimed(table)
    requires today + 1 <= day <= today + DAYS_AHEAD
    requires day in table && !table[day].closed && !IsLeilYomTovOrShabbos(alm, day)
    requires PairStarts(rt, day, table[day]) != []
    ensures Select(SlotsAfter(slots, table, alm, Steps(today, DAYS_AHEAD)), DayQuery(day, rt)) != []
  {
    var r := SlotsAfter(slots, table, alm, Steps(today, DAYS_AHEAD));
    RunSettles(slots, table, alm, Steps(today, DAYS_AHEAD));
    AllSettledMeans(r, table, alm, Steps(today, DAYS_AHEAD));
    StepsCover(today, DAYS_AHEAD, day, rt);
    assert Settled(r, table, alm, Step(day, rt));
  }

  /** Everything createSlots adds is a free slot on one of the fourteen
      days after today, created as CreatedOn describes; the slots that were
      there stay as they were. */
  lemma {:induction false} CreateSlotsAddsOnlyCreatedSlots(slots: seq<AppointmentSlot>, table: HoursTable, alm: Almanac, today: Date)
    requires IdsAreIndices(slots) && Keyed(table) && OpenRowsTimed(table)
    ensures AddsCreatedSlots(table, alm, slots, SlotsAfter(slots, table, alm, Steps(today, DAYS_AHEAD)),
                             today + 1, today + DAYS_AHEAD)
    ensures IdsAreIndices(SlotsAfter(slots, table, alm, Steps(today, DAYS_AHEAD)))
  {
    StepsWithin(today, DAYS_AHEAD);
    RunShape(slots, table, alm, Steps(today, DAYS_AHEAD), today + 1, today + DAYS_AHEAD);
    AddsKeepsIds(table, alm, slots, SlotsAfter(slots, table, alm, Steps(today, DAYS_AHEAD)), today + 1, today + DAYS_AHEAD);
  }

  /** The list of a finder's starts, as the stream's map(getStart). */
  function StartsOf(slots: seq<AppointmentSlot>): (r: seq<DateTime>)
    ensures |r| == |slots|
  {
    if slots == [] then [] else [slots[0].start] + StartsOf(slots[1..])
  }

  /** A progression's saved starts are its head, unless existing, and the
      saved starts of the rest. */
  lemma {:induction false} SavedStep(start: DateTime, rest: seq<DateTime>, existing: seq<DateTime>)
    ensures Saved([start] + rest, existing) == (if start in existing then [] else [start]) + Saved(rest, existing)
  {
    assert ([start] + rest)[1..] == rest;
  }

  /** The while loop of createAppointments, one start further: the start
      is saved unless it exists. */
  lemma {:induction false} ProgressionStep(all: seq<DateTime>, saved: seq<DateTime>, rt: RoomType, start: DateTime,
                                           closing: DateTime, existing: seq<DateTime>)
    returns (next: seq<DateTime>)
    requires !WouldEndAfterClosing(rt, start, closing)
    requires all == saved + Saved(Progression(rt, start, closing), existing)
    ensures all == next + Saved(Progression(rt, start + AppointmentLength(rt), closing), existing)
    ensures start !in existing ==> next == saved + [start]
    ensures start in existing ==> next == saved
  {
    var rest := Progression(rt, start + AppointmentLength(rt), closing);
    assert Progression(rt, start, closing) == [start] + rest;
    SavedStep(start, rest, existing);
    if start in existing {
      next := saved;
      assert saved + ([] + Saved(rest, existing)) == saved + Saved(rest, existing);
    } else {
      next := saved + [start];
      assert saved + ([start] + Saved(rest, existing)) == next + Saved(rest, existing);
    }
  }

  /** When the loop of createAppointments stops, every start it was to
      save is saved. */
  lemma {:induction false} NothingLeft(all: seq<DateTime>, saved: seq<DateTime>, rt: RoomType, start: DateTime,
                                       closing: DateTime, existing: seq<DateTime>)
    requires WouldEndAfterClosing(rt, start, closing)
    requires all == saved + Saved(Progression(rt, start, closing), existing)
    ensures all == saved
  {
    assert Saved(Progression(rt, start, closing), existing) == [];
  }

  /** Appending one more new slot extends NewSlots by its next start. */
  lemma {:induction false} AppendOneSlot(base: seq<AppointmentSlot>, before: seq<AppointmentSlot>, saved: seq<DateTime>,
                                         t: DateTime, rt: RoomType)
    requires before == base + NewSlots(|base|, saved, rt)
    ensures before + [NewSlot(|before|, t, rt)] == base + NewSlots(|base|, saved + [t], rt)
  {
    assert (saved + [t])[..|saved|] == saved;
  }

  /** The inner loop of createSlots, one room type further. */
  lemma {:induction false} NextStep(start: seq<AppointmentSlot>, before: seq<AppointmentSlot>, after: seq<AppointmentSlot>,
                                    table: HoursTable, alm: Almanac, done: seq<Step>, day: Date, j: nat)
    requires OpenRowsTimed(table) && j < |ROOM_TYPES|
    requires before == SlotsAfter(start, table, alm, done + DaySteps(day)[..j])
    requires after == SlotsAfterStep(before, table, alm, Step(day, ROOM_TYPES[j]))
    ensures after == SlotsAfter(start, table, alm, done + DaySteps(day)[..j + 1])
  {
    assert done + DaySteps(day)[..j + 1] == (done + DaySteps(day)[..j]) + [Step(day, ROOM_TYPES[j])];
    SlotsAfterSnoc(start, table, alm, done + DaySteps(day)[..j], Step(day, ROOM_TYPES[j]));
  }

  /** The offsets loop of createSlots, one offset further: with no existing
      starts, createAppointments saves the offset's whole progression. */
  lemma {:induction false} NextOffset(base: seq<AppointmentSlot>, before: seq<AppointmentSlot>, after: seq<AppointmentSlot>,
                                      rt: RoomType, day: Date, hours: DailyHours, offsets: seq<int>, k: nat,
                                      existing: seq<DateTime>)
    requires hours.opening.Some? && hours.closing.Some? && k < |offsets| && existing == []
    requires before == base + NewSlots(|base|, OffsetsStarts(rt, day, hours, offsets[..k]), rt)
    requires after == before + NewSlots(|before|, Saved(Progression(rt, OffsetStart(day, hours, offsets[k]), ClosingOf(hours)),
                                                        existing), rt)
    ensures after == base + NewSlots(|base|, OffsetsStarts(rt, day, hours, offsets[..k + 1]), rt)
  {
    SavedWithoutExisting(Progression(rt, OffsetStart(day, hours, offsets[k]), ClosingOf(hours)));
    AppendOffset(base, before, rt, day, hours, offsets, k);
  }

  /** Appending the slots of one more offset extends the offsets' slots. */
  lemma {:induction false} AppendOffset(base: seq<AppointmentSlot>, before: seq<AppointmentSlot>, rt: RoomType, day: Date,
                                        hours: DailyHours, offsets: seq<int>, k: nat)
    requires hours.opening.Some? && hours.closing.Some? && k < |offsets|
    requires before == base + NewSlots(|base|, OffsetsStarts(rt, day, hours, offsets[..k]), rt)
    ensures before + NewSlots(|before|, Progression(rt, OffsetStart(day, hours, offsets[k]), ClosingOf(hours)), rt)
            == base + NewSlots(|base|, OffsetsStarts(rt, day, hours, offsets[..k + 1]), rt)
  {
    var pre := offsets[..k + 1];
    assert pre[..|pre| - 1] == offsets[..k] && pre[|pre| - 1] == offsets[k];
    AppendStarts(base, before, OffsetsStarts(rt, day, hours, offsets[..k]),
                 Progression(rt, OffsetStart(day, hours, offsets[k]), ClosingOf(hours)),
                 OffsetsStarts(rt, day, hours, pre), rt);
  }

  lemma {:induction false} AppendStarts(base: seq<AppointmentSlot>, before: seq<AppointmentSlot>, a: seq<DateTime>,
                                        p: seq<DateTime>, whole: seq<DateTime>, rt: RoomType)
    requires whole == a + p && before == base + NewSlots(|base|, a, rt)
    ensures before + NewSlots(|before|, p, rt) == base + NewSlots(|base|, whole, rt)
  {
    NewSlotsAppend(|base|, a, p, rt);
  }

  /** The existing starts createSlotsForRoomType looks up are empty
      exactly when no slot of the room type starts on the day. */
  lemma {:induction false} ExistingOnDay(slots: seq<AppointmentSlot>, day: Date, rt: RoomType, existing: seq<DateTime>)
    requires existing == StartsOf(FindByStartBetweenAndRoomType(slots, StartOfDay(day), StartOfDay(day + 1), rt))
    ensures existing == [] <==> Select(slots, DayQuery(day, rt)) == []
  {
    var found := Select(slots, DayQuery(day, rt));
    assert |existing| == |SortBy(found, StartLe)| == |found|;
  }

  /** AppointmentSlotCreationService: the slot table it appends to, the
      hours table it reads and the almanac for the configured zone. */
  class AppointmentSlotCreationService {
    var slots: seq<AppointmentSlot>
    var hoursTable: HoursTable
    const almanac: Almanac

    ghost predicate Valid()
      reads this
    {
      IdsAreIndices(slots) && Keyed(hoursTable) && OpenRowsTimed(hoursTable)
    }

    constructor (alm: Almanac, table: HoursTable, existing: seq<AppointmentSlot>)
      requires IdsAreIndices(existing) && Keyed(table) && OpenRowsTimed(table)
      ensures Valid()
      ensures slots == existing && hoursTable == table && almanac == alm
    {
      slots := existing;
      hoursTable := table;
      almanac := alm;
    }

    /** repo.save of a new slot: it gets the next generated id. */
    method SaveNewSlot(start: DateTime, rt: RoomType)
      requires Valid()
      modifies this
      ensures Valid() && hoursTable == old(hoursTable)
      ensures slots == old(slots) + [NewSlot(|old(slots)|, start, rt)]
    {
      slots := slots + [NewSlot(|slots|, start, rt)];
    }

    /** createAppointments: walk one offset's progression, saving each start
        that is not among the existing ones. */
    method CreateAppointments(rt: RoomType, day: Date, hours: DailyHours, offset: int, existingStartTimes: seq<DateTime>)
      requires Valid() && hours.opening.Some? && hours.closing.Some?
      modifies this
      ensures Valid() && hoursTable == old(hoursTable)
      ensures slots == old(slots) + NewSlots(|old(slots)|, Saved(Progression(rt, OffsetStart(day, hours, offset),
                                                                             ClosingOf(hours)), existingStartTimes), rt)
    {
      var appointmentStart := OffsetStart(day, hours, offset);
      var closing := ClosingOf(hours);
      ghost var all := Saved(Progression(rt, appointmentStart, closing), existingStartTimes);
      ghost var saved: seq<DateTime> := [];
      while !WouldEndAfterClosing(rt, appointmentStart, closing)
        invariant Valid() && hoursTable == old(hoursTable)
        invariant all == saved + Saved(Progression(rt, appointmentStart, closing), existingStartTimes)
        invariant slots == old(slots) + NewSlots(|old(slots)|, saved, rt)
        decreases closing - appointmentStart
      {
        ghost var next := ProgressionStep(all, saved, rt, appointmentStart, closing, existingStartTimes);
        if appointmentStart !in existingStartTimes {
          ghost var before := slots;
          SaveNewSlot(appointmentStart, rt);
          AppendOneSlot(old(slots), before, saved, appointmentStart, rt);
        }
        saved := next;
        appointmentStart := appointmentStart + AppointmentLength(rt);
      }
      NothingLeft(all, saved, rt, appointmentStart, closing, existingStartTimes);
    }

    /** createSlots: for each of the fourteen days after today and each
        room type, generate the day's slots unless some exist already or
        the day has no hours, is closed, or is the eve of Shabbos or a yom
        tov. */
    method CreateSlots(today: Date)
      requires Valid()
      modifies this
      ensures Valid() && hoursTable == old(hoursTable)
      ensures slots == SlotsAfter(old(slots), hoursTable, almanac, Steps(today, DAYS_AHEAD))
    {
      var day := today;
      for i := 0 to DAYS_AHEAD
        invariant Valid() && hoursTable == old(hoursTable)
        invariant day == today + i
        invariant slots == SlotsAfter(old(slots), hoursTable, almanac, Steps(today, i))
      {
        day := day + 1;
        var start := StartOfDay(day);
        var end := StartOfDay(day + 1);
        ghost var done := Steps(today, i);
        assert done + DaySteps(day)[..0] == done;
        for j := 0 to |ROOM_TYPES|
          invariant Valid() && hoursTable == old(hoursTable)
          invariant slots == SlotsAfter(old(slots), hoursTable, almanac, done + DaySteps(day)[..j])
        {
          var rt := ROOM_TYPES[j];
          ghost var before := slots;
          CreateSlotsForRoomType(day, rt, start, end);
          NextStep(old(slots), before, slots, hoursTable, almanac, done, day, j);
        }
        assert DaySteps(day)[..|ROOM_TYPES|] == DaySteps(day);
      }
    }

    /** The body of createSlots's inner loop, for one day and room type. */
    method CreateSlotsForRoomType(day: Date, rt: RoomType, start: DateTime, end: DateTime)
      requires Valid() && start == StartOfDay(day) && end == StartOfDay(day + 1)
      modifies this
      ensures Valid() && hoursTable == old(hoursTable)
      ensures slots == SlotsAfterStep(old(slots), hoursTable, almanac, Step(day, rt))
    {
      var existingStartTimes := StartsOf(FindByStartBetweenAndRoomType(slots, start, end, rt));
      ExistingOnDay(slots, day, rt, existingStartTimes);
      if existingStartTimes != [] {
        return;
      }
      var hoursOptional := GetHoursForDay(hoursTable, day);
      if hoursOptional.Some? {
        var hours := hoursOptional.value;
        if hours.closed || IsLeilYomTovOrShabbos(almanac, day) {
          return;
        }
        CreateForEachOffset(rt, day, hours, existingStartTimes);
      }
    }

    /** The loop of createSlots over the room type's start offsets, which it
        reaches with no existing starts. */
    method CreateForEachOffset(rt: RoomType, day: Date, hours: DailyHours, existingStartTimes: seq<DateTime>)
      requires Valid() && hours.opening.Some? && hours.closing.Some? && existingStartTimes == []
      modifies this
      ensures Valid() && hoursTable == old(hoursTable)
      ensures slots == old(slots) + NewSlots(|old(slots)|, PairStarts(rt, day, hours), rt)
    {
      var offsets := StartOffsets(rt);
      for k := 0 to |offsets|
        invariant Valid() && hoursTable == old(hoursTable)
        invariant slots == old(slots) + NewSlots(|old(slots)|, OffsetsStarts(rt, day, hours, offsets[..k]), rt)
      {
        ghost var before := slots;
        CreateAppointments(rt, day, hours, offsets[k], existingStartTimes);
        NextOffset(old(slots), before, slots, rt, day, hours, offsets, k, existingStartTimes);
      }
      assert offsets[..|offsets|] == offsets;
    }
  }
}
