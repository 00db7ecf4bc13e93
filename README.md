# Mikvah appointment service: hours, slots and bookings

This project models the scheduling core of the mikvah website's Spring
service and proves properties of the model. The core has three parts.

- **The hours engine** (`DailyHoursCreationService`) runs hourly. From the
  zmanim of each day (tzais and candle lighting) and the Jewish holidays, it
  computes the day's row of the hours table. A row is either closed, or an
  opening and a closing time. It writes the rows for the week from the
  previous Sunday and the two weeks after it, and saves a row only when it
  differs from the stored one.
- **The slot generator** (`AppointmentSlotCreationService`) fills the slot
  table for the fourteen days after today. For each day and room type that
  has no slots yet, it starts one run per room (five showers, seven baths)
  at the opening plus that room's offset. Each run steps by the appointment
  length until an appointment would end after closing.
- **The booking service** (`AppointmentService`) reserves, reschedules and
  cancels appointments. It charges non-members through Stripe, refunds on
  cancellation, and appends every booking change to a reservation history.
  It also answers three read queries: the free times clients may book, and
  the day's appointment lists for attendants and for admins.

Alongside these sit the pieces they rely on:

- the `DailyHours` row with its optional getters;
- the read-only `DailyHoursService` queries;
- the ordering of `AvailableDateTimeAndRoomType`;
- the `Plan` id table.

The modules follow the source files:

| file | module | models |
|---|---|---|
| `temporal.dfy` | `Temporal` | `LocalTime`, `LocalDate` and `LocalDateTime` as seconds of the day, epoch days and seconds |
| `almanac.dfy` | `Zmanim` | the calendar library, as an almanac of per-day functions |
| `daily_hours.dfy` | `DailyHoursData` | `DailyHours` |
| `daily_hours_service.dfy` | `DailyHoursService` | `DailyHoursService` |
| `daily_hours_creation.dfy` | `DailyHoursCreation` | `DailyHoursCreationService` |
| `slot_data.dfy` | `SlotData` | `AppointmentSlot` and the slot repository's finders |
| `slot_creation.dfy` | `SlotCreation` | `AppointmentSlotCreationService` |
| `booking.dfy` | `Booking` | the state-changing half of `AppointmentService` |
| `appointment_views.dfy` | `AppointmentViews` | the read-only half of `AppointmentService` |
| `available_time.dfy` | `AvailableTime` | `AvailableDateTimeAndRoomType` |
| `plan.dfy` | `Plans` | `Plan` |
| `sorting.dfy` | `Sorting` | the stable sort of `Stream.sorted` |
| `wrappers.dfy` | `Wrappers` | `Option` and `Result` |

Where the source changes state, the model does too. The services that do are
classes whose tables are fields:

- `DailyHoursCreationService` holds the hours table as a map keyed by day.
- `AppointmentSlotCreationService` and `AppointmentService` hold the slot
  table as a sequence. A slot's id is its position, and `repo.save` of a new
  slot appends.

Each method is proved against a function of its old state, and the
properties are stated as lemmas about those functions. The loops of the
source are `while` and `for` loops with their invariants. The pure parts
(rounding, the closing clamp, the day's row, the read queries) are
functions.

A time of day is a second in [0, 86400). `plusHours` and `plusMinutes` wrap
at midnight as `LocalTime`'s do, and `truncatedTo(MINUTES)` drops the
seconds.

## Model

| member | source | states |
|---|---|---|
| Temporal.PreviousSunday | src/main/java/org/lamikvah/website/service/DailyHoursCreationService.java:75 | `previous(SUNDAY)` is a Sunday strictly before the date, at most a week back |
| Temporal.NextSunday | src/main/java/org/lamikvah/website/service/DailyHoursCreationService.java:78 | `next(SUNDAY)` is a Sunday strictly after the date, at most a week ahead, exactly a week ahead from a Sunday |
| Temporal.PreviousOrSameSunday | src/main/java/org/lamikvah/website/service/DailyHoursService.java:25 | `previousOrSame(SUNDAY)` is a Sunday on or before the date, less than a week back |
| Temporal.PreviousVersusPreviousOrSame | src/main/java/org/lamikvah/website/service/DailyHoursService.java:25 | the two week starts agree except on a Sunday, where the hours engine's goes back a whole week and the hours query's stays |
| Zmanim.LeilMeansTomorrowIsShabbosOrYomTov | src/main/java/org/lamikvah/website/service/DailyHoursCreationService.java:265-272 | the evening of a date begins Shabbos or a yom tov (a Friday, or the next day is a yom tov) exactly when the next civil day is a Saturday or a yom tov; `AppointmentSlotCreationService.java:120-131` asks the same question |
| DailyHoursData.DailyHours.OpeningLocalTime | src/main/java/org/lamikvah/website/data/DailyHours.java:36-44 | empty exactly when `opening` is null, otherwise that time |
| DailyHoursData.DailyHours.ClosingLocalTime | src/main/java/org/lamikvah/website/data/DailyHours.java:46-55 | empty exactly when `closing` is null, otherwise that time |
| DailyHoursService.GetHoursForDay | src/main/java/org/lamikvah/website/service/DailyHoursService.java:34-37 | empty exactly when the table has no row for the date; otherwise the row stored under that day |
| DailyHoursService.FindByDayBetween | src/main/java/org/lamikvah/website/dao/DailyHoursRepository.java:11 | the table's rows with a day in [lo, hi], both ends included, every such row, in strictly ascending day order |
| DailyHoursService.GetHoursForCurrentWeek | src/main/java/org/lamikvah/website/service/DailyHoursService.java:23-32 | at most eight rows, every stored row from the Sunday on or before today through the Sunday after, in ascending day order |
| Plans.IndexPlans | src/main/java/org/lamikvah/website/data/Plan.java:17-26 | the static initializer succeeds exactly when the ids are pairwise distinct; then every plan sits under its id and the keys are exactly the ids; otherwise it reports two plans sharing the reported id |
| Plans.PlanIdsAreDistinct | src/main/java/org/lamikvah/website/data/Plan.java:9-15 | the four Stripe plan ids are pairwise distinct |
| Plans.PlanIdsAreTheKeys | src/main/java/org/lamikvah/website/data/Plan.java:9-26 | the plans' ids are exactly the keys of `ID_TO_PLAN_MAP` |
| Plans.InitializeIdToPlanMap | src/main/java/org/lamikvah/website/data/Plan.java:17-26 | the initializer never raises its Error and builds exactly the id table `standard-1`, `silver-1`, `gold-1`, `platinum-1` |
| Plans.IndexIsIdToPlanMap | src/main/java/org/lamikvah/website/data/Plan.java:17-26 | a map holding each plan under its id, with no other keys, is `ID_TO_PLAN_MAP` |
| Plans.ForStripePlanName | src/main/java/org/lamikvah/website/data/Plan.java:38-42 | a plan found for an id has that id |
| Plans.ForStripePlanNameInverts | src/main/java/org/lamikvah/website/data/Plan.java:21-42 | looking a plan up by its own id gives it back; an id no plan has gives empty |
| AvailableTime.CompareToOrdersByStartThenRoomType | src/main/java/org/lamikvah/website/data/AvailableDateTimeAndRoomType.java:13-15 | the start decides first; at equal starts SHOWER comes before BATH and nothing else is below |
| AvailableTime.CompareToIsConsistentWithEquals | src/main/java/org/lamikvah/website/data/AvailableDateTimeAndRoomType.java:21-25 | `compareTo` is zero exactly when the two values are equal, and swapping the arguments flips its sign |
| AvailableTime.LeIsTotalPreorder | src/main/java/org/lamikvah/website/data/AvailableDateTimeAndRoomType.java:13-25 | the natural order is total and transitive, so `sorted()` can sort by it |
| AvailableTime.LeIsAntisymmetric | src/main/java/org/lamikvah/website/data/AvailableDateTimeAndRoomType.java:13-25 | two values ordered both ways are equal |
| Sorting.SortBy | src/main/java/org/lamikvah/website/service/AppointmentService.java:75 | the result is a permutation of the input: the same elements, each as often, and the same length |
| Sorting.SortBySorted | src/main/java/org/lamikvah/website/service/AppointmentService.java:75 | under a total preorder the result is ordered |
| Sorting.SortByIsStable | src/main/java/org/lamikvah/website/service/AppointmentService.java:339 | the sort is stable: the elements that compare equal to any given one come out in the order they went in |
| Sorting.StringLeTotal | src/main/java/org/lamikvah/website/service/AppointmentService.java:339 | string comparison orders any two strings one way or the other |
| Sorting.StringLeTransitive | src/main/java/org/lamikvah/website/service/AppointmentService.java:339 | string comparison is transitive |
| SlotData.SelectMembership | src/main/java/org/lamikvah/website/dao/AppointmentSlotRepository.java:13-24 | a finder returns exactly the table's slots that match its query |
| SlotData.SelectInIdOrder | src/main/java/org/lamikvah/website/dao/AppointmentSlotRepository.java:16 | a finder's results have strictly increasing ids |
| SlotData.FirstSelectedIsLowest | src/main/java/org/lamikvah/website/dao/AppointmentSlotRepository.java:16 | the first result is the lowest-id matching slot of the table: no slot before it matches |
| SlotData.OrderedFinder | src/main/java/org/lamikvah/website/dao/AppointmentSlotRepository.java:13-24 | an `OrderByStartAsc` finder returns the matching slots, each as often as stored, in ascending start order |
| SlotData.FindFreeAtMeans | src/main/java/org/lamikvah/website/dao/AppointmentSlotRepository.java:16 | `findByStartAndRoomTypeAndMikvahUserIsNullOrderByIdAsc` returns exactly the unassigned slots of that room type at exactly that start, in increasing id order |
| SlotData.FindByStartBetweenMeans | src/main/java/org/lamikvah/website/dao/AppointmentSlotRepository.java:18 | `findByStartBetweenOrderByStartAsc` returns exactly the slots starting in [start, end], none more often than stored, earliest first |
| SlotData.FindFreeBetweenMeans | src/main/java/org/lamikvah/website/dao/AppointmentSlotRepository.java:20-21 | `findByStartBetweenAndMikvahUserOrderByStartAsc` with a null user returns exactly the unassigned slots starting in [start, end], none more often than stored, earliest first |
| DailyHoursCreation.RoundToNextTimeEndingIn5or0 | src/main/java/org/lamikvah/website/service/DailyHoursCreationService.java:253-263 | the result is on a five-minute mark with zero seconds, less than five minutes after the input truncated to the minute, across midnight too |
| DailyHoursCreation.RoundingIsUnique | src/main/java/org/lamikvah/website/service/DailyHoursCreationService.java:253-263 | any five-minute mark less than five minutes after the truncated input is the rounding's result, so the result is the first such mark |
| DailyHoursCreation.RoundingFixesMarks | src/main/java/org/lamikvah/website/service/DailyHoursCreationService.java:253-263 | a time already on a five-minute mark is left alone |
| DailyHoursCreation.RoundingIsIdempotent | src/main/java/org/lamikvah/website/service/DailyHoursCreationService.java:253-263 | rounding twice is rounding once |
| DailyHoursCreation.CalculateClosing | src/main/java/org/lamikvah/website/service/DailyHoursCreationService.java:166-192 | every closing lies in [9:30 PM, 11 PM] or is 11:59 PM |
| DailyHoursCreation.ClosingByRegularTime | src/main/java/org/lamikvah/website/service/DailyHoursCreationService.java:168-191 | with three hours after opening wrapped at midnight: before noon gives 11:59 PM; before 9:30 PM gives 9:30 PM; within [9:30 PM, 11 PM] it is kept; after 11 PM gives 11 PM |
| DailyHoursCreation.EarlyClosingIsUnreachable | src/main/java/org/lamikvah/website/service/DailyHoursCreationService.java:174-180 | whenever three hours after opening passes 11 PM, at least two hours remain until 11 PM, so "close two hours after opening" never happens |
| DailyHoursCreation.ClosingForOpeningAt2125 | src/main/java/org/lamikvah/website/service/DailyHoursCreationService.java:183-185 | an opening at 9:25 PM closes at 11:59 PM |
| DailyHoursCreation.CreateHoursForDay | src/main/java/org/lamikvah/website/service/DailyHoursCreationService.java:106-164 | the row is for the context's day; a closed row has no times and an open row has both |
| DailyHoursCreation.HoursForDayShape | src/main/java/org/lamikvah/website/service/DailyHoursCreationService.java:106-164 | closed exactly on a fast's eve; on the eve of Shabbos or yom tov it opens at candle lighting plus an hour, rounded, and closes exactly 30 minutes later; on every other open day the closing is `calculateClosing` of the opening |
| DailyHoursCreation.ClosedExactlyOnFastEves | src/main/java/org/lamikvah/website/service/DailyHoursCreationService.java:111-114 | a day is closed exactly when the next day is Yom Kippur or Tisha B'Av, whatever else holds |
| DailyHoursCreation.OpeningsOnFiveMinuteMarks | src/main/java/org/lamikvah/website/service/DailyHoursCreationService.java:116-161 | with the week's latest tzais on a mark, every open day opens on a five-minute mark |
| DailyHoursCreation.MotzeiYomKippurOpensAnHourAfterTzais | src/main/java/org/lamikvah/website/service/DailyHoursCreationService.java:124-130 | the night after Yom Kippur opens at its own tzais plus an hour, rounded up |
| DailyHoursCreation.LeilPurimOpensAnHourAfterWeeksLatest | src/main/java/org/lamikvah/website/service/DailyHoursCreationService.java:132-139 | the eve of Purim opens exactly an hour after the week's latest tzais |
| DailyHoursCreation.MotzeiTishaBavOpensAnHourAfterWeeksLatest | src/main/java/org/lamikvah/website/service/DailyHoursCreationService.java:141-148 | the night after Tisha B'Av opens exactly an hour after the week's latest tzais |
| DailyHoursCreation.MotzeiShabbosOpensAfterTzais | src/main/java/org/lamikvah/website/service/DailyHoursCreationService.java:150-156 | Saturday night and the night after a yom tov open 45 minutes after that day's tzais, rounded up |
| DailyHoursCreation.OrdinaryNightOpensAtWeeksLatest | src/main/java/org/lamikvah/website/service/DailyHoursCreationService.java:158-161 | every night the default branch serves (no Shabbos, yom tov or fast on either side, no Purim the next day; other holidays allowed) opens at the week's rounded latest tzais and closes at `calculateClosing` of it |
| DailyHoursCreation.ClosingWindow | src/main/java/org/lamikvah/website/service/DailyHoursCreationService.java:124-192 | apart from Friday and yom tov nights, an open day closes within [9:30 PM, 11 PM] or at 11:59 PM |
| DailyHoursCreation.CalculateClosingFollowsOpening | src/main/java/org/lamikvah/website/service/DailyHoursCreationService.java:166-192 | `calculateClosing` gives a time after the opening exactly when the opening is before 11:59 PM |
| DailyHoursCreation.OpensBeforeClosing | src/main/java/org/lamikvah/website/service/DailyHoursCreationService.java:124-161 | every open day that is not a Friday or yom tov night opens before it closes, once the week's latest tzais is on a five-minute mark |
| DailyHoursCreation.EveOpensBeforeClosingOnlyBefore2330 | src/main/java/org/lamikvah/website/service/DailyHoursCreationService.java:116-121 | a Friday or yom tov night opens before it closes exactly when it opens before 11:30 PM; a later opening closes after midnight, before it opens |
| DailyHoursCreation.MaxTzaisIsMaximum | src/main/java/org/lamikvah/website/service/DailyHoursCreationService.java:236-245 | the scan's value is the maximum: no day's tzais is later, and some day's tzais equals it |
| DailyHoursCreation.WeeksLatestTzais | src/main/java/org/lamikvah/website/service/DailyHoursCreationService.java:247 | the week's latest tzais is on a five-minute mark |
| DailyHoursCreation.GetLatestTzaisForWeek | src/main/java/org/lamikvah/website/service/DailyHoursCreationService.java:234-251 | the loop returns the rounded maximum tzais of the seven days from Sunday |
| DailyHoursCreation.WeekContextAt | src/main/java/org/lamikvah/website/service/DailyHoursCreationService.java:196-225 | the k-th context is the k-th day's context, and all share the week's one latest tzais |
| DailyHoursCreation.ContextFor | src/main/java/org/lamikvah/website/service/DailyHoursCreationService.java:210-223 | a day's context carries its date and the shared latest tzais, its tzais and candle lighting cut to the whole minute (at most 59 seconds earlier), never both a fast eve and Purim eve, and never both after Yom Kippur and after Tisha B'Av |
| DailyHoursCreation.CreateDayContextsForWeek | src/main/java/org/lamikvah/website/service/DailyHoursCreationService.java:194-227 | the loop builds the seven days' contexts in order |
| DailyHoursCreation.WeekContextDates | src/main/java/org/lamikvah/website/service/DailyHoursCreationService.java:199-211 | the k-th context's date is Sunday plus k |
| DailyHoursCreation.WeekRowAt | src/main/java/org/lamikvah/website/service/DailyHoursCreationService.java:84-104 | the k-th row of the week is the row of Sunday plus k, made with the week's latest tzais |
| DailyHoursCreation.WeekRowsConsecutive | src/main/java/org/lamikvah/website/service/DailyHoursCreationService.java:84-104 | the week's rows are its seven consecutive days, each well formed |
| DailyHoursCreation.RowWrites | src/main/java/org/lamikvah/website/service/DailyHoursCreationService.java:92-102 | saving a row costs no write exactly when an equal row is stored under its day, and at most two (a delete and a save) |
| DailyHoursCreation.PutConsecutive | src/main/java/org/lamikvah/website/service/DailyHoursCreationService.java:84-104 | after saving consecutive rows, each of their days maps to its row, other days are untouched, and the table stays keyed and well formed |
| DailyHoursCreation.NoWritesIffUpToDate | src/main/java/org/lamikvah/website/service/DailyHoursCreationService.java:92-102 | saving consecutive rows writes nothing exactly when every one is already stored |
| DailyHoursCreation.SecondPassWritesNothing | src/main/java/org/lamikvah/website/service/DailyHoursCreationService.java:84-104 | saving the same rows again writes nothing |
| DailyHoursCreation.ThreeWeeksFromConsecutive | src/main/java/org/lamikvah/website/service/DailyHoursCreationService.java:70-82 | the three weeks' rows are 21 consecutive days from the Sunday |
| DailyHoursCreation.ThreeWeeksInTurn | src/main/java/org/lamikvah/website/service/DailyHoursCreationService.java:70-82 | saving the weeks one after another is saving their 21 rows in order, with the same writes |
| DailyHoursCreation.ThreeWeeksReachFortnight | src/main/java/org/lamikvah/website/service/DailyHoursCreationService.java:70-82 | after a run every day from today to today + 13 has a row, and today + 14 too unless today is a Sunday |
| DailyHoursCreation.SecondRunWritesNothing | src/main/java/org/lamikvah/website/service/DailyHoursCreationService.java:70-104 | running the job twice on the same day writes nothing the second time |
| DailyHoursCreation.DailyHoursCreationService.GetTimezone | src/main/java/org/lamikvah/website/service/DailyHoursCreationService.java:294-300 | returns the configured zone and caches it |
| DailyHoursCreation.DailyHoursCreationService.SaveHours | src/main/java/org/lamikvah/website/service/DailyHoursCreationService.java:90-102 | the day now maps to the row, with `RowWrites` repository writes |
| DailyHoursCreation.DailyHoursCreationService.CalculateHoursForWeek | src/main/java/org/lamikvah/website/service/DailyHoursCreationService.java:84-104 | the table is the old one with the week's rows saved in order, and the writes are counted |
| DailyHoursCreation.DailyHoursCreationService.CreateHoursForNext3Weeks | src/main/java/org/lamikvah/website/service/DailyHoursCreationService.java:70-82 | the table is the old one with the three weeks from the previous Sunday saved one week at a time |
| SlotCreation.AppointmentLength | src/main/java/org/lamikvah/website/service/AppointmentSlotCreationService.java:31-33 | every appointment length is positive (30 minutes for a shower, 75 for a bath) |
| SlotCreation.WouldEndAfterClosingFromThenOn | src/main/java/org/lamikvah/website/service/AppointmentSlotCreationService.java:110-118 | an appointment ending exactly at closing is allowed, and once a start would end after closing every later start would too |
| SlotCreation.OffsetStartOnDay | src/main/java/org/lamikvah/website/service/AppointmentSlotCreationService.java:92-93 | the first start of a run is on the day being filled, at the opening plus the offset round the clock |
| SlotCreation.ProgressionStopsAtFirstMisfit | src/main/java/org/lamikvah/website/service/AppointmentSlotCreationService.java:96-106 | the loop visits nothing exactly when the first appointment would end after closing; otherwise it starts at the first start, and its last start ends by closing while the next one would not |
| SlotCreation.ProgressionIsArithmetic | src/main/java/org/lamikvah/website/service/AppointmentSlotCreationService.java:92-117 | the k-th start is the first start plus k lengths, and a start is visited exactly when its appointment ends at or before closing |
| SlotCreation.ProgressionMembership | src/main/java/org/lamikvah/website/service/AppointmentSlotCreationService.java:92-117 | a time is visited exactly when it is a whole number of lengths after the first start and its appointment ends no later than closing |
| SlotCreation.ProgressionHasNoRepeats | src/main/java/org/lamikvah/website/service/AppointmentSlotCreationService.java:96-106 | one run visits each start at most once |
| SlotCreation.SavedMembers | src/main/java/org/lamikvah/website/service/AppointmentSlotCreationService.java:100-104 | a start is saved exactly when it is visited and not among the existing starts |
| SlotCreation.SavedWithoutExisting | src/main/java/org/lamikvah/website/service/AppointmentSlotCreationService.java:68-100 | with no existing starts, which is the only case that reaches the check, every visited start is saved |
| SlotCreation.StartMultiplicity | src/main/java/org/lamikvah/website/service/AppointmentSlotCreationService.java:39-80 | a day has as many slots at a start as there are offsets whose run reaches it, so repeated offsets give one slot per room |
| SlotCreation.OffsetsStartsFit | src/main/java/org/lamikvah/website/service/AppointmentSlotCreationService.java:77-106 | every generated start falls on the row's day and is reached by one of the offsets |
| SlotCreation.StepsWithin | src/main/java/org/lamikvah/website/service/AppointmentSlotCreationService.java:58-63 | the days scanned lie from tomorrow to today + 14 |
| SlotCreation.StepsCover | src/main/java/org/lamikvah/website/service/AppointmentSlotCreationService.java:58-63 | each of those days is scanned for each room type |
| SlotCreation.RunShape | src/main/java/org/lamikvah/website/service/AppointmentSlotCreationService.java:54-86 | a run over scanned days only appends slots created for those days, each unassigned, of its room type, ending by closing, on an open day that is not a Friday or yom tov eve |
| SlotCreation.SettledStepIsUnchanged | src/main/java/org/lamikvah/website/service/AppointmentSlotCreationService.java:63-70 | a day and room type that already has slots gets nothing new |
| SlotCreation.CreateSlotsIsIdempotent | src/main/java/org/lamikvah/website/service/AppointmentSlotCreationService.java:54-86 | running createSlots a second time on the same day adds nothing |
| SlotCreation.CreateSlotsCoversFortnight | src/main/java/org/lamikvah/website/service/AppointmentSlotCreationService.java:54-86 | after a run, every open day in the fortnight that is not a Friday or yom tov eve, and whose hours leave room for an appointment, has slots of each room type |
| SlotCreation.CreateSlotsAddsOnlyCreatedSlots | src/main/java/org/lamikvah/website/service/AppointmentSlotCreationService.java:54-118 | createSlots only appends slots that fit the rules above, and ids stay table positions |
| SlotCreation.ExistingOnDay | src/main/java/org/lamikvah/website/service/AppointmentSlotCreationService.java:61-70 | the existing start list is empty exactly when the day has no slot of the room type |
| SlotCreation.AppointmentSlotCreationService.SaveNewSlot | src/main/java/org/lamikvah/website/service/AppointmentSlotCreationService.java:97-103 | saving appends an unassigned slot with the next id |
| SlotCreation.AppointmentSlotCreationService.CreateAppointments | src/main/java/org/lamikvah/website/service/AppointmentSlotCreationService.java:88-108 | the loop appends a new slot for each visited start not among the existing starts, in order |
| SlotCreation.AppointmentSlotCreationService.CreateForEachOffset | src/main/java/org/lamikvah/website/service/AppointmentSlotCreationService.java:77-80 | the offsets loop appends each offset's slots in turn |
| SlotCreation.AppointmentSlotCreationService.CreateSlotsForRoomType | src/main/java/org/lamikvah/website/service/AppointmentSlotCreationService.java:63-82 | one day and room type: nothing when slots exist, the row is missing or closed, or the day is a Friday or yom tov eve; otherwise the offsets' runs |
| SlotCreation.AppointmentSlotCreationService.CreateSlots | src/main/java/org/lamikvah/website/service/AppointmentSlotCreationService.java:54-86 | the nested loops leave the table `SlotsAfter` the fourteen days' steps |
| Booking.Create | src/main/java/org/lamikvah/website/service/AppointmentService.java:89-150 | the table keeps its size and no refund is asked; a refusal leaves slots and history alone; a booking names an unassigned slot of the table at the requested time and room type, with the request's notes |
| Booking.Edit | src/main/java/org/lamikvah/website/service/AppointmentService.java:152-224 | the table keeps its size and no charge or refund is asked; a failure changes nothing; a success names an existing slot, and a move lands at the requested time in the slot's room type |
| Booking.Cancel | src/main/java/org/lamikvah/website/service/AppointmentService.java:226-280 | the table keeps its size and no charge is made; a refusal changes nothing; after a success the slot has no user; a refund id is returned only when the refund went through |
| Booking.PaymentResult | src/main/java/org/lamikvah/website/service/AppointmentService.java:296-326 | members owe nothing; anyone else succeeds exactly when the charge goes through, and a charge id comes only from that charge |
| Booking.FirstFreeIsLowest | src/main/java/org/lamikvah/website/service/AppointmentService.java:109-122 | the slot taken is the lowest-id unassigned slot of the table at that time and room type |
| Booking.FreeSlotExists | src/main/java/org/lamikvah/website/service/AppointmentService.java:109-119 | the free-slot finder is non-empty exactly when some slot of the table is free there |
| Booking.CreateRefusals | src/main/java/org/lamikvah/website/service/AppointmentService.java:96-120 | fails for today once opening has passed; else fails when no slot is free; else succeeds exactly when the user is a member or the charge goes through |
| Booking.CreateFailureKeepsTables | src/main/java/org/lamikvah/website/service/AppointmentService.java:96-123 | a refused reservation changes neither slots, history nor refunds; only a failed charge attempt is recorded |
| Booking.OnlyNonMembersAreCharged | src/main/java/org/lamikvah/website/service/AppointmentService.java:296-310 | members are never charged; a non-member who passes both checks is charged once, the configured cost and currency |
| Booking.CreateBooksLowestFreeSlot | src/main/java/org/lamikvah/website/service/AppointmentService.java:109-150 | success books the lowest-id free slot with the user, notes and charge id, changes no other slot, and appends one MADE entry with that charge id |
| Booking.CreateKeepsInvariant | src/main/java/org/lamikvah/website/service/AppointmentService.java:89-150 | ids stay positions, only booked slots carry a charge, and the history refers to existing slots |
| Booking.CancelRefusals | src/main/java/org/lamikvah/website/service/AppointmentService.java:229-254 | a missing or unassigned slot gives empty and no change; then a caller who is neither owner nor admin is refused; then a same-day cancel after opening; a refusal changes nothing |
| Booking.CancelByAnotherCopyIsRefused | src/main/java/org/lamikvah/website/service/AppointmentService.java:237 | the owner test compares whole users: a non-admin caller who differs from the slot's user only in the notes is refused |
| Booking.CancelClearsSlot | src/main/java/org/lamikvah/website/service/AppointmentService.java:255-294 | success clears user, charge and notes whatever the refund does, refunds exactly when a charge id is present, returns the refund id or empty, and appends one CANCELED entry naming the caller |
| Booking.CancelKeepsInvariant | src/main/java/org/lamikvah/website/service/AppointmentService.java:226-280 | cancellation keeps the table invariants |
| Booking.EditRefusals | src/main/java/org/lamikvah/website/service/AppointmentService.java:154-173 | fails exactly on an unknown id, or on a new time with no free slot of the slot's room type; a failed edit changes nothing |
| Booking.EditNotesOnly | src/main/java/org/lamikvah/website/service/AppointmentService.java:213-224 | without a new time only the notes change, possibly to null, and no history entry is written |
| Booking.EditMovesAppointment | src/main/java/org/lamikvah/website/service/AppointmentService.java:163-211 | the lowest-id free slot gets the old user and charge id and the new notes or else the old; the old slot is cleared; MADE then CANCELED entries are appended, the latter with a null user |
| Booking.EditKeepsInvariant | src/main/java/org/lamikvah/website/service/AppointmentService.java:152-211 | editing keeps the table invariants |
| Booking.CancelUndoesCreate | src/main/java/org/lamikvah/website/service/AppointmentService.java:226-280 | cancelling a just-made reservation gives the slot back without user or charge, refunds any charge made, and leaves MADE then CANCELED in the history |
| Booking.AppointmentService.HandleUserPayment | src/main/java/org/lamikvah/website/service/AppointmentService.java:296-326 | the result is `PaymentResult`, and a charge request is recorded exactly for non-members |
| Booking.AppointmentService.RefundCharge | src/main/java/org/lamikvah/website/service/AppointmentService.java:282-294 | records the refund request and returns the refund id, or empty on failure |
| Booking.AppointmentService.CreateAppointment | src/main/java/org/lamikvah/website/service/AppointmentService.java:89-150 | the result and new state are those of the transaction `Create`, and the invariants hold |
| Booking.AppointmentService.UpdateNotes | src/main/java/org/lamikvah/website/service/AppointmentService.java:213-224 | only the slot's notes change |
| Booking.AppointmentService.EditAppointment | src/main/java/org/lamikvah/website/service/AppointmentService.java:152-211 | the result and new state are those of the transaction `Edit` |
| Booking.AppointmentService.CancelAppointment | src/main/java/org/lamikvah/website/service/AppointmentService.java:226-280 | the result and new state are those of the transaction `Cancel` |
| AppointmentViews.FormatTime | src/main/java/org/lamikvah/website/service/AppointmentService.java:41 | the "h:mm a" text has seven or eight characters, a colon before the two minute digits and a space before the marker, which reads AM exactly before noon |
| AppointmentViews.ParseFormattedTime | src/main/java/org/lamikvah/website/service/AppointmentService.java:41 | reading an "h:mm a" text back gives the time truncated to the minute |
| AppointmentViews.FormatTimeShowsMinutes | src/main/java/org/lamikvah/website/service/AppointmentService.java:41 | two times format alike exactly when they agree to the minute |
| AppointmentViews.FormatTimeExamples | src/test/java/org/lamikvah/website/service/AppointmentServiceTest.java:45-67 | 01:10 is "1:10 AM", 02:20 is "2:20 AM", 21:00 is "9:00 PM", 22:00 is "10:00 PM" |
| AppointmentViews.DistinctMeans | src/main/java/org/lamikvah/website/service/AppointmentService.java:75 | `distinct()` keeps every value and each at most once |
| AppointmentViews.AvailableFromAsWritten | src/main/java/org/lamikvah/website/service/AppointmentService.java:63-69 | as written, once today has opened the window start always falls on today, whatever the closing; otherwise it is now |
| AppointmentViews.AvailableFrom | src/main/java/org/lamikvah/website/service/AppointmentService.java:63-69 | corrected: once today has opened the window starts after today's closing and before one minute past the next midnight; otherwise at now |
| AppointmentViews.AvailableFromAsWrittenWraps | src/main/java/org/lamikvah/website/service/AppointmentService.java:63-69 | as written, a closing of 11:59 PM makes the window start at midnight of today, before the opening already passed |
| AppointmentViews.AvailableFromAsWrittenExample | src/main/java/org/lamikvah/website/service/AppointmentService.java:63-69 | opening 9:25 PM, closing 11:59 PM as the hours engine sets them, asked at 9:30 PM: as written the window starts at midnight of today |
| AppointmentViews.AvailableFromIsAfterClosing | src/main/java/org/lamikvah/website/service/AppointmentService.java:63-69 | once today has opened, the window starts after every time of today up to closing; otherwise at now; and it agrees with the source except at closing 11:59 PM |
| AppointmentViews.OfferedValues | src/main/java/org/lamikvah/website/service/AppointmentService.java:75-76 | a value is in the sorted distinct list exactly when some found slot maps to it |
| AppointmentViews.OfferedFromFreeSlots | src/main/java/org/lamikvah/website/service/AppointmentService.java:72-77 | from any window start, a time and room type is offered exactly when some unassigned slot has it and starts within eight days of the start |
| AppointmentViews.OfferedFromStrictlyAscends | src/main/java/org/lamikvah/website/service/AppointmentService.java:75-76 | from any window start, the offered list is strictly ascending by start then room type, so it has no repeats |
| AppointmentViews.GetAvailableTimesAsWritten | src/main/java/org/lamikvah/website/service/AppointmentService.java:58-78 | as written, the offered list is strictly ascending in `compareTo` order |
| AppointmentViews.GetAvailableTimes | src/main/java/org/lamikvah/website/service/AppointmentService.java:58-78 | corrected: the offered list is strictly ascending in `compareTo` order |
| AppointmentViews.AvailableTimesAreFreeSlots | src/main/java/org/lamikvah/website/service/AppointmentService.java:58-78 | for the as-written list and for the corrected one, a time and room type is offered exactly when some unassigned slot has it and starts within eight days of that list's window start |
| AppointmentViews.AvailableTimesAsWrittenReoffersToday | src/main/java/org/lamikvah/website/service/AppointmentService.java:67-68 | with today's closing at 11:59 PM and the opening passed, every free slot of today, those already begun included, is in the as-written list and in none of the corrected one |
| AppointmentViews.BookedMembers | src/main/java/org/lamikvah/website/service/AppointmentService.java:333 | the filter keeps exactly the slots that have a user |
| AppointmentViews.BookedKeepsOrder | src/main/java/org/lamikvah/website/service/AppointmentService.java:333 | the filter keeps start order |
| AppointmentViews.OnDate | src/main/java/org/lamikvah/website/service/AppointmentService.java:331-332 | a time lies between the day's `LocalTime.MIN` and `LocalTime.MAX` exactly when it is on that day |
| AppointmentViews.BookedOnMeans | src/main/java/org/lamikvah/website/service/AppointmentService.java:328-363 | a day's booked slots are exactly the table's slots with a user starting on that day, in start order |
| AppointmentViews.GetAppointmentsForAttendantsAsWritten | src/main/java/org/lamikvah/website/service/AppointmentService.java:328-342 | as written, one view per booked slot of today |
| AppointmentViews.GetAppointmentsForAttendants | src/main/java/org/lamikvah/website/service/AppointmentService.java:328-342 | corrected: one view per booked slot of today |
| AppointmentViews.AttendantListIsTodaysBookingsInOrder | src/main/java/org/lamikvah/website/service/AppointmentService.java:328-342 | corrected: the attendants' list has one view per booked slot of today, in start order |
| AppointmentViews.TimeTextLeIsTotalPreorder | src/main/java/org/lamikvah/website/service/AppointmentService.java:339 | comparing views by their time text is a total preorder |
| AppointmentViews.AttendantListAsWrittenSortsByText | src/main/java/org/lamikvah/website/service/AppointmentService.java:328-342 | as written, the list holds the same views, ordered by the text of their times |
| AppointmentViews.AttendantListOfTwo | src/main/java/org/lamikvah/website/service/AppointmentService.java:328-342 | two bookings of today give their two views in start order, or as written in text order |
| AppointmentViews.AttendantListAsWrittenMisorders | src/main/java/org/lamikvah/website/service/AppointmentService.java:339 | as written, bookings at 9 PM and 10 PM are listed 10 PM first; the corrected list has 9 PM first |
| AppointmentViews.GetAppointmentsForAdmins | src/main/java/org/lamikvah/website/service/AppointmentService.java:344-363 | one view per booked slot of the day |
| AppointmentViews.AdminListIsDaysBookingsInOrder | src/main/java/org/lamikvah/website/service/AppointmentService.java:344-363 | the admins' list has one view per booked slot of the day, in start order, with the user's details, the formatted time and the room type in lower case |
| AppointmentViews.AdminListOfTwo | src/main/java/org/lamikvah/website/service/AppointmentService.java:344-363 | two bookings of the day give their two views in start order |
| AppointmentViews.AdminListExample | src/test/java/org/lamikvah/website/service/AppointmentServiceTest.java:37-68 | the unit test's two slots give "1:10 AM"/"bath" and then "2:20 AM"/"shower" with their users and notes |

## Left out

- Email confirmations are not modelled. They are sent after the booking has been saved and change no table.
- The Stripe SDK is not modelled. Each charge or refund is a parameter that says whether the call succeeded, and the requests made are recorded in the service state.
- The zmanim and Jewish calendar libraries compute with floating point. They are an `Almanac` of per-day functions: tzais, candle lighting and the holiday of each day.
- The wall clock and time zones are not modelled. "now" and "today" are parameters. The booking and query side reads them in the configured zone (AppointmentService.java:60, 95 and 240, DailyHoursService.java:25). The two scheduled jobs read today's date in the server's default zone instead (DailyHoursCreationService.java:75, AppointmentSlotCreationService.java:58). So the `today` of `DailyHoursCreation.DailyHoursCreationService.CreateHoursForNext3Weeks` and `SlotCreation.AppointmentSlotCreationService.CreateSlots` need not be the date the booking services see; near midnight, on a server in another zone, they can be a day apart.
- Transactions, scheduling and concurrency are not modelled. Each service method is one atomic step, and each scheduled run is one method call.
- Generated ids are the slot's position in the table.
- Dates are epoch days. The day of the week counts from epoch day 0, a Thursday; years, months and days of the month are not modelled.
- AvailableTime.CompareTo: `LocalDateTime.compareTo` is modelled only by its sign.
- Times carry no fractions of a second, so `LocalTime.MAX` is 11:59:59 PM.
- AppointmentViews.FormatTime: the "h:mm a" formatter uses English AM/PM markers; other locales are not modelled.
- SlotCreation.AppointmentSlotCreationService.CreateSlots requires every open hours row to have both times; closed rows are skipped before their times are read, as in the source. The source would throw a NullPointerException on an open row without times. The hours engine writes only well-formed rows (`DailyHoursCreation.PutConsecutive`), and those are timed (`DailyHoursData.WellFormedRowsAreTimed`).
- The two services that write slots each hold their own copy of the slot table. The model does not join them into one shared repository.
- The history log keeps no `created` timestamp.
- A null text field of a `MikvahUser` is modelled as a string, so a null field and an empty one compare alike.
- The data classes lag the services that use them. `AppointmentSlot` has no room type and `MikvahUser` has no admin flag, although the services read both. The view classes also differ from what the services build. The model follows the services.
- A Friday or yom tov night that opens at 11:30 PM or later closes half an hour later on the clock, which is before its opening, because `LocalTime.plusMinutes` wraps. The model follows the code and promises opening before closing only on other open days and on eves that open before 11:30 PM (`DailyHoursCreation.OpensBeforeClosing`, `DailyHoursCreation.EveOpensBeforeClosingOnlyBefore2330`).
- `DailyHoursCreationServiceTest` expects an opening at 9:25 PM to close at 11:25 PM. The code gives 11:59 PM, because three hours later wraps past midnight. The model follows the code (`DailyHoursCreation.ClosingForOpeningAt2125`).

## Findings

| source | as written | input that shows it | evidently intended | confidence | as-written member | corrected member |
|---|---|---|---|---|---|---|
| src/main/java/org/lamikvah/website/service/AppointmentService.java:339 | the attendants' list is sorted by the "h:mm a" text, which compares character by character | bookings today at 9:00 PM and 10:00 PM: "10:00 PM" sorts before "9:00 PM" | the day's appointments in time order, as the admins' list gives them | high; not executed | AppointmentViews.GetAppointmentsForAttendantsAsWritten (AppointmentViews.AttendantListAsWrittenMisorders) | AppointmentViews.GetAppointmentsForAttendants (AppointmentViews.AttendantListIsTodaysBookingsInOrder) |
| src/main/java/org/lamikvah/website/service/AppointmentService.java:67-68 | the window starts at today's closing plus one minute as a `LocalTime`, which wraps to midnight of today when closing is 11:59 PM | opening 9:25 PM, which the hours engine closes at 11:59 PM (DailyHoursCreation.ClosingForOpeningAt2125), asked at 9:30 PM, free slots at 9:25 PM and 10:00 PM: the window starts at 00:00 today and offers both again, the one already begun included | the window starts after today's closing | medium; not executed | AppointmentViews.GetAvailableTimesAsWritten (AppointmentViews.AvailableTimesAsWrittenReoffersToday, AppointmentViews.AvailableFromAsWrittenWraps, AppointmentViews.AvailableFromAsWrittenExample) | AppointmentViews.GetAvailableTimes (AppointmentViews.AvailableFromIsAfterClosing, AppointmentViews.AvailableTimesAreFreeSlots) |
