/** The appointment records (AppointmentSlot, MikvahUser, ReservationHistoryLog,
    RoomType) with the fields the services read and write, and the finders
    of AppointmentSlotRepository as queries over the slot table. */
module SlotData {
  import opened Wrappers
  import opened Temporal
  import opened Sorting

  /** RoomType, in declaration order: SHOWER before BATH. */
  datatype RoomType = Shower | Bath

  /** Enum.ordinal(). */
  function Ordinal(rt: RoomType): nat
  {
    if rt.Shower? then 0 else 1
  }

  /** Enum.name().toLowerCase(). */
  function LowerCaseName(rt: RoomType): string
  {
    if rt.Shower? then "shower" else "bath"
  }

  /** MikvahUser: the entity's fields in declaration order, and `admin`,
      the flag cancelAppointment asks about. Lombok's equals compares every
      field, which is datatype equality here; a null text is modelled as a
      plain string. */
  datatype MikvahUser = MikvahUser(
    id: int,
    title: string,
    firstName: string,
    lastName: string,
    email: string,
    auth0UserId: string,
    stripeCustomerId: string,
    member: bool,
    notes: string,
    phoneNumber: string,
    addressLine1: string,
    addressLine2: string,
    city: string,
    stateCode: string,
    postalCode: string,
    countryCode: string,
    admin: bool)

  /** AppointmentSlot with the room type the services set and read. A null
      user, charge id or notes is None. */
  datatype AppointmentSlot = AppointmentSlot(
    id: nat,
    start: DateTime,
    user: Option<MikvahUser>,
    stripeChargeId: Option<string>,
    notes: Option<string>,
    roomType: RoomType)

  /** The actions written to the reservation history. */
  datatype AppointmentAction = Made | Canceled

  /** ReservationHistoryLog without its creation timestamp; the slot is
      referred to by its id. */
  datatype ReservationHistoryLog = ReservationHistoryLog(
    slotId: nat,
    user: Option<MikvahUser>,
    action: AppointmentAction,
    stripeId: Option<string>)

  /** The slot table: each slot sits at the position given by its
      generated id. */
  ghost predicate IdsAreIndices(slots: seq<AppointmentSlot>)
  {
    forall i :: 0 <= i < |slots| ==> slots[i].id == i
  }

  /** A new, unassigned slot as createAppointments builds it. */
  function NewSlot(id: nat, start: DateTime, rt: RoomType): AppointmentSlot
  {
    AppointmentSlot(id, start, None, None, None, rt)
  }

  /** What a finder asks of the assigned user. */
  datatype UserCondition = AnyUser | Unassigned

  /** The conditions of a derived query: the start lies in [lo, hi] (both
      ends included, as Between is), and optionally a room type and an
      unassigned user. */
  datatype Query = Query(lo: DateTime, hi: DateTime, roomType: Option<RoomType>, user: UserCondition)

  predicate Matches(s: AppointmentSlot, q: Query)
  {
    && q.lo <= s.start <= q.hi
    && (q.roomType.Some? ==> s.roomType == q.roomType.value)
    && (q.user.Unassigned? ==> s.user.None?)
  }

  /** The slots matching a query, in table (that is, id) order. */
  function Select(slots: seq<AppointmentSlot>, q: Query): (r: seq<AppointmentSlot>)
    ensures |r| <= |slots|
  {
    if slots == [] then []
    else
      var n := |slots| - 1;
      Select(slots[..n], q) + (if Matches(slots[n], q) then [slots[n]] else [])
  }

  /** Select returns exactly the table's slots that match the query. */
  lemma {:induction false} SelectMembership(slots: seq<AppointmentSlot>, q: Query)
    ensures forall x :: x in Select(slots, q) <==> x in slots && Matches(x, q)
  {
    if slots != [] {
      var n := |slots| - 1;
      SelectMembership(slots[..n], q);
      assert slots == slots[..n] + [slots[n]];
    }
  }

  /** A table entry's id is below the table's length. */
  lemma IdBelowLength(slots: seq<AppointmentSlot>, x: AppointmentSlot)
    requires IdsAreIndices(slots) && x in slots
    ensures x.id < |slots| && slots[x.id] == x
  {
  }

  /** Select keeps the table order: the ids it returns strictly increase. */
  lemma {:induction false} SelectInIdOrder(slots: seq<AppointmentSlot>, q: Query)
    requires IdsAreIndices(slots)
    ensures forall i, j :: 0 <= i < j < |Select(slots, q)| ==> Select(slots, q)[i].id < Select(slots, q)[j].id
  {
    if slots != [] {
      var n := |slots| - 1;
      assert IdsAreIndices(slots[..n]);
      SelectInIdOrder(slots[..n], q);
      var front := Select(slots[..n], q);
      SelectMembership(slots[..n], q);
      forall x | x in front ensures x.id < n {
        IdBelowLength(slots[..n], x);
      }
    }
  }

  /** The first slot Select returns is the lowest-id match: no slot before
      it in the table matches. */
  lemma FirstSelectedIsLowest(slots: seq<AppointmentSlot>, q: Query)
    requires IdsAreIndices(slots) && Select(slots, q) != []
    ensures Select(slots, q)[0].id < |slots| && slots[Select(slots, q)[0].id] == Select(slots, q)[0]
    ensures Matches(Select(slots, q)[0], q)
    ensures forall j :: 0 <= j < Select(slots, q)[0].id ==> !Matches(slots[j], q)
  {
    var r := Select(slots, q);
    SelectMembership(slots, q);
    assert r[0] in r;
    IdBelowLength(slots, r[0]);
    SelectInIdOrder(slots, q);
  }

  function StartLe(a: AppointmentSlot, b: AppointmentSlot): bool
  {
    a.start <= b.start
  }

  lemma StartLeIsTotalPreorder()
    ensures TotalPreorder(StartLe)
  {
  }

  /** findByStartAndRoomTypeAndMikvahUserIsNullOrderByIdAsc: the free slots
      of a room type at exactly that start, lowest id first. */
  function FindFreeAt(slots: seq<AppointmentSlot>, start: DateTime, rt: RoomType): seq<AppointmentSlot>
  {
    Select(slots, Query(start, start, Some(rt), Unassigned))
  }

  /** findByStartBetweenAndRoomTypeOrderByStartAsc. */
  function FindByStartBetweenAndRoomType(slots: seq<AppointmentSlot>, lo: DateTime, hi: DateTime, rt: RoomType)
    : seq<AppointmentSlot>
  {
    SortBy(Select(slots, Query(lo, hi, Some(rt), AnyUser)), StartLe)
  }

  /** findByStartBetweenAndMikvahUserOrderByStartAsc with a null user,
      which Spring Data turns into "mikvah_user_id is null". */
  function FindFreeBetween(slots: seq<AppointmentSlot>, lo: DateTime, hi: DateTime): seq<AppointmentSlot>
  {
    SortBy(Select(slots, Query(lo, hi, None, Unassigned)), StartLe)
  }

  /** findByStartBetweenOrderByStartAsc. */
  function FindByStartBetween(slots: seq<AppointmentSlot>, lo: DateTime, hi: DateTime): seq<AppointmentSlot>
  {
    SortBy(Select(slots, Query(lo, hi, None, AnyUser)), StartLe)
  }

  /** The free-slot finder returns exactly the table's unassigned slots of
      that room type at exactly that start, in id order. */
  lemma FindFreeAtMeans(slots: seq<AppointmentSlot>, start: DateTime, rt: RoomType)
    ensures forall x :: x in FindFreeAt(slots, start, rt) <==>
              x in slots && x.start == start && x.roomType == rt && x.user.None?
    ensures IdsAreIndices(slots) ==>
              forall i, j :: 0 <= i < j < |FindFreeAt(slots, start, rt)| ==>
                FindFreeAt(slots, start, rt)[i].id < FindFreeAt(slots, start, rt)[j].id
  {
    var q := Query(start, start, Some(rt), Unassigned);
    SelectMembership(slots, q);
    if IdsAreIndices(slots) {
      SelectInIdOrder(slots, q);
    }
  }

  /** The free slots of a window: exactly the table's unassigned slots
      starting in [lo, hi], each as often as stored, earliest first. */
  lemma FindFreeBetweenMeans(slots: seq<AppointmentSlot>, lo: DateTime, hi: DateTime)
    ensures forall x :: x in FindFreeBetween(slots, lo, hi) <==> x in slots && lo <= x.start <= hi && x.user.None?
    ensures multiset(FindFreeBetween(slots, lo, hi)) <= multiset(slots)
    ensures SortedBy(FindFreeBetween(slots, lo, hi), StartLe)
  {
    var q := Query(lo, hi, None, Unassigned);
    OrderedFinder(slots, q);
    SelectSubMultiset(slots, q);
  }

  /** The slots of a window: exactly the table's slots starting in
      [lo, hi], each as often as stored, earliest first. */
  lemma FindByStartBetweenMeans(slots: seq<AppointmentSlot>, lo: DateTime, hi: DateTime)
    ensures forall x :: x in FindByStartBetween(slots, lo, hi) <==> x in slots && lo <= x.start <= hi
    ensures multiset(FindByStartBetween(slots, lo, hi)) <= multiset(slots)
    ensures SortedBy(FindByStartBetween(slots, lo, hi), StartLe)
  {
    var q := Query(lo, hi, None, AnyUser);
    OrderedFinder(slots, q);
    SelectSubMultiset(slots, q);
  }

  /** Select takes each slot at most as often as the table holds it. */
  lemma {:induction false} SelectSubMultiset(slots: seq<AppointmentSlot>, q: Query)
    ensures multiset(Select(slots, q)) <= multiset(slots)
  {
    if slots != [] {
      var n := |slots| - 1;
      SelectSubMultiset(slots[..n], q);
      assert slots == slots[..n] + [slots[n]];
    }
  }

  /** A finder that orders by start returns exactly the matching slots,
      each as often as in the table, in ascending start order. */
  lemma OrderedFinder(slots: seq<AppointmentSlot>, q: Query)
    ensures multiset(SortBy(Select(slots, q), StartLe)) == multiset(Select(slots, q))
    ensures forall x :: x in SortBy(Select(slots, q), StartLe) <==> x in slots && Matches(x, q)
    ensures SortedBy(SortBy(Select(slots, q), StartLe), StartLe)
  {
    var r := SortBy(Select(slots, q), StartLe);
    assert forall x :: x in r <==> x in multiset(r);
    SelectMembership(slots, q);
    StartLeIsTotalPreorder();
    SortBySorted(Select(slots, q), StartLe);
  }
}
