/** AppointmentService.java, its state-changing half: reserving a slot
    (createAppointment with handleUserPayment), rescheduling or re-noting
    it (editAppointment, updateNotes) and cancelling it (cancelAppointment
    with refundCharge). Each transactional method is one atomic step over
    the slot table and the reservation history; the clock is the `now`
    parameter and each Stripe call is an outcome passed in, with the calls
    made recorded in the store. */
module Booking {
  import opened Wrappers
  import opened Temporal
  import opened DailyHoursData
  import opened DailyHoursService
  import opened SlotData

  /** AppointmentRequest: the requested start, room type and notes. */
  datatype AppointmentRequest = AppointmentRequest(time: DateTime, roomType: RoomType, notes: Option<string>)

  /** UpdateAppointmentRequest: a null time asks only for new notes. */
  datatype UpdateAppointmentRequest = UpdateAppointmentRequest(time: Option<DateTime>, notes: Option<string>)

  /** AppointmentSlotDto, with the fields the service sets. */
  datatype AppointmentSlotDto = AppointmentSlotDto(id: nat, start: DateTime, notes: Option<string>, roomType: RoomType)

  function ToDto(s: AppointmentSlot): AppointmentSlotDto
  {
    AppointmentSlotDto(s.id, s.start, s.notes, s.roomType)
  }

  /** The exceptions the service throws, by cause: AppointmentCreationException
      for the first three and for an unknown slot, ServerErrorException for
      the two refusals of cancelAppointment. */
  datatype BookingError =
    | AlreadyOpenToday
    | NoSlotAvailable
    | PaymentProblem(cardMessage: Option<string>)
    | UnknownAppointment
    | NotOwnAppointment
    | CancelAfterOpening

  /** What Charge.create does: returns a charge, throws a CardException
      with a message, or throws another StripeException. */
  datatype ChargeOutcome = Charged(chargeId: string) | CardDeclined(message: string) | GatewayFailed

  /** What Refund.create does: returns a refund or throws. */
  datatype RefundOutcome = Refunded(refundId: string) | RefundFailed

  /** The parameters of a Charge.create call. */
  datatype ChargeRequest = ChargeRequest(customer: string, amount: int, currency: string, descriptor: string)

  /** The configured appointment cost and currency. */
  datatype Config = Config(appointmentCost: int, currency: string)

  /** The state the service works on: the slot table, the reservation
      history, and the charges and refunds (by charge id) asked of Stripe. */
  datatype Store = Store(
    slots: seq<AppointmentSlot>,
    log: seq<ReservationHistoryLog>,
    charges: seq<ChargeRequest>,
    refunds: seq<string>)

  /** A transaction's result (a value or the exception thrown) and the
      store after it. */
  datatype Outcome<T> = Outcome(result: Result<T, BookingError>, store: Store)

  /** A slot without a user carries no charge: the table every operation
      keeps. */
  ghost predicate NoChargeWithoutUser(slots: seq<AppointmentSlot>)
  {
    forall i :: 0 <= i < |slots| && slots[i].user.None? ==> slots[i].stripeChargeId.None?
  }

  /** Every history entry refers to a slot of the table. */
  ghost predicate LogRefersToSlots(log: seq<ReservationHistoryLog>, n: nat)
  {
    forall k :: 0 <= k < |log| ==> log[k].slotId < n
  }

  ghost predicate StoreValid(st: Store)
  {
    IdsAreIndices(st.slots) && NoChargeWithoutUser(st.slots) && LogRefersToSlots(st.log, |st.slots|)
  }

  /** The same-day cutoff shared by createAppointment and cancelAppointment:
      the date is today, today has an hours row with an opening time, and
      now is strictly after that opening. */
  predicate OpenAlready(table: HoursTable, now: DateTime, date: Date)
  {
    && DateOf(now) == date
    && GetHoursForDay(table, date).Some?
    && GetHoursForDay(table, date).value.OpeningLocalTime().Some?
    && TimeOf(now) > GetHoursForDay(table, date).value.OpeningLocalTime().value
  }

  /** StringUtils.isEmpty: null or the empty string. */
  predicate IsEmpty(s: Option<string>)
  {
    s.None? || s.value == ""
  }

  /** The Charge.create call handleUserPayment makes. */
  function ChargeFor(user: MikvahUser, config: Config): ChargeRequest
  {
    ChargeRequest(user.stripeCustomerId, config.appointmentCost, config.currency, "Appointment")
  }

  /** handleUserPayment's result: members owe nothing; anyone else gets the
      charge id, or the exception the failed charge turns into. */
  function PaymentResult(user: MikvahUser, gateway: ChargeOutcome): (r: Result<Option<string>, BookingError>)
    ensures user.member ==> r == Success(None)
    ensures !user.member ==> (r.Success? <==> gateway.Charged?)
    ensures r.Success? && r.value.Some? ==> !user.member && gateway == Charged(r.value.value)
  {
    if user.member then Success(None)
    else
      match gateway
      case Charged(id) => Success(Some(id))
      case CardDeclined(message) => Failure(PaymentProblem(Some(message)))
      case GatewayFailed => Failure(PaymentProblem(None))
  }

  /** refundCharge's result: the refund id, or empty when the refund fails. */
  function RefundResult(refund: RefundOutcome): Option<string>
  {
    if refund.Refunded? then Some(refund.refundId) else None
  }

  /** The slot a successful createAppointment books: the user, the
      request's notes, and the charge id when there is one. */
  function Booked(slot: AppointmentSlot, user: MikvahUser, notes: Option<string>, chargeId: Option<string>): AppointmentSlot
  {
    slot.(user := Some(user), notes := notes, stripeChargeId := if chargeId.Some? then chargeId else slot.stripeChargeId)
  }

  /** A slot as cancelAppointment and editAppointment leave it: no user, no
      charge, no notes. */
  function Cleared(slot: AppointmentSlot): AppointmentSlot
  {
    slot.(user := None, stripeChargeId := None, notes := None)
  }

  /** createAppointment as one transaction. */
  function Create(st: Store, table: HoursTable, config: Config, request: AppointmentRequest, user: MikvahUser,
                  now: DateTime, gateway: ChargeOutcome): (r: Outcome<AppointmentSlotDto>)
    requires IdsAreIndices(st.slots)
    ensures |r.store.slots| == |st.slots| && r.store.refunds == st.refunds
    ensures r.result.Failure? ==> r.store.slots == st.slots && r.store.log == st.log
    ensures r.result.Success? ==>
              && r.result.value.id < |st.slots| && st.slots[r.result.value.id].user.None?
              && r.result.value.start == request.time && r.result.value.roomType == request.roomType
              && r.result.value.notes == request.notes
  {
    if OpenAlready(table, now, DateOf(request.time)) then Outcome(Failure(AlreadyOpenToday), st)
    else
      var possible := FindFreeAt(st.slots, request.time, request.roomType);
      if possible == [] then Outcome(Failure(NoSlotAvailable), st)
      else
        var charges := if user.member then st.charges else st.charges + [ChargeFor(user, config)];
        var payment := PaymentResult(user, gateway);
        if payment.Failure? then Outcome(Failure(payment.error), st.(charges := charges))
        else
          FirstSelectedIsLowest(st.slots, Query(request.time, request.time, Some(request.roomType), Unassigned));
          var booked := Booked(possible[0], user, request.notes, payment.value);
          Outcome(Success(ToDto(booked)),
                  st.(slots := st.slots[booked.id := booked],
                      log := st.log + [ReservationHistoryLog(booked.id, Some(user), Made, payment.value)],
                      charges := charges))
  }

  /** editAppointment (with updateNotes) as one transaction. When the free
      slot found is the edited slot itself, both writes go to the one
      entity, and the returned slot is the entity after both. */
  function Edit(st: Store, slotId: int, request: UpdateAppointmentRequest): (r: Outcome<AppointmentSlotDto>)
    requires IdsAreIndices(st.slots)
    ensures |r.store.slots| == |st.slots| && r.store.charges == st.charges && r.store.refunds == st.refunds
    ensures r.result.Failure? ==> r.store == st
    ensures r.result.Success? ==> 0 <= slotId < |st.slots|
    ensures r.result.Success? && request.time.Some? ==>
              r.result.value.start == request.time.value && r.result.value.roomType == st.slots[slotId].roomType
  {
    if !(0 <= slotId < |st.slots|) then Outcome(Failure(UnknownAppointment), st)
    else
      var existing := st.slots[slotId];
      if request.time.None? then
        var renoted := existing.(notes := request.notes);
        Outcome(Success(ToDto(renoted)), st.(slots := st.slots[slotId := renoted]))
      else
        var possible := FindFreeAt(st.slots, request.time.value, existing.roomType);
        if possible == [] then Outcome(Failure(NoSlotAvailable), st)
        else
          FirstSelectedIsLowest(st.slots, Query(request.time.value, request.time.value, Some(existing.roomType), Unassigned));
          var moved := possible[0].(user := existing.user,
                                    notes := if request.notes.None? then existing.notes else request.notes,
                                    stripeChargeId := existing.stripeChargeId);
          var slots := st.slots[moved.id := moved][slotId := Cleared(existing)];
          Outcome(Success(ToDto(slots[moved.id])),
                  st.(slots := slots,
                      log := st.log + [ReservationHistoryLog(moved.id, moved.user, Made, moved.stripeChargeId),
                                       ReservationHistoryLog(slotId, None, Canceled, None)]))
  }

  /** cancelAppointment as one transaction. */
  function Cancel(st: Store, table: HoursTable, user: MikvahUser, slotId: int, now: DateTime,
                  refund: RefundOutcome): (r: Outcome<Option<string>>)
    ensures |r.store.slots| == |st.slots| && r.store.charges == st.charges
    ensures r.result.Failure? ==> r.store == st
    ensures r.result.Success? && 0 <= slotId < |st.slots| ==> r.store.slots[slotId].user.None?
    ensures r.result.Success? && r.result.value.Some? ==> refund.Refunded?
  {
    if !(0 <= slotId < |st.slots|) || st.slots[slotId].user.None? then Outcome(Success(None), st)
    else
      var slot := st.slots[slotId];
      if slot.user.value != user && !user.admin then Outcome(Failure(NotOwnAppointment), st)
      else if OpenAlready(table, now, DateOf(slot.start)) then Outcome(Failure(CancelAfterOpening), st)
      else
        var refunding := !IsEmpty(slot.stripeChargeId);
        var refundId := if refunding then RefundResult(refund) else None;
        Outcome(Success(refundId),
                st.(slots := st.slots[slotId := Cleared(slot)],
                    log := st.log + [ReservationHistoryLog(slotId, Some(user), Canceled, refundId)],
                    refunds := if refunding then st.refunds + [slot.stripeChargeId.value] else st.refunds))
  }

  /** A slot findByStartAndRoomTypeAndMikvahUserIsNull returns. */
  predicate IsFreeAt(s: AppointmentSlot, time: DateTime, rt: RoomType)
  {
    s.start == time && s.roomType == rt && s.user.None?
  }

  /** The first slot the free-slot finder returns is the lowest-id free slot
      at that start and room type. */
  lemma FirstFreeIsLowest(slots: seq<AppointmentSlot>, time: DateTime, rt: RoomType)
    requires IdsAreIndices(slots) && FindFreeAt(slots, time, rt) != []
    ensures FindFreeAt(slots, time, rt)[0].id < |slots|
    ensures slots[FindFreeAt(slots, time, rt)[0].id] == FindFreeAt(slots, time, rt)[0]
    ensures IsFreeAt(FindFreeAt(slots, time, rt)[0], time, rt)
    ensures forall j :: 0 <= j < FindFreeAt(slots, time, rt)[0].id ==> !IsFreeAt(slots[j], time, rt)
  {
    var q := Query(time, time, Some(rt), Unassigned);
    FirstSelectedIsLowest(slots, q);
    forall j | 0 <= j < FindFreeAt(slots, time, rt)[0].id ensures !IsFreeAt(slots[j], time, rt) {
      assert !Matches(slots[j], q);
    }
  }

  /** There is a free slot exactly when some slot of the table is free at
      that start and room type. */
  lemma FreeSlotExists(slots: seq<AppointmentSlot>, time: DateTime, rt: RoomType)
    ensures FindFreeAt(slots, time, rt) != [] <==> exists j :: 0 <= j < |slots| && IsFreeAt(slots[j], time, rt)
  {
    var q := Query(time, time, Some(rt), Unassigned);
    SelectMembership(slots, q);
    if FindFreeAt(slots, time, rt) != [] {
      var x := FindFreeAt(slots, time, rt)[0];
      assert x in FindFreeAt(slots, time, rt);
      var j :| 0 <= j < |slots| && slots[j] == x;
      assert IsFreeAt(slots[j], time, rt);
    }
    if exists j :: 0 <= j < |slots| && IsFreeAt(slots[j], time, rt) {
      var j :| 0 <= j < |slots| && IsFreeAt(slots[j], time, rt);
      assert slots[j] in slots && Matches(slots[j], q);
    }
  }

  /** createAppointment refuses, checking in this order: a request for today
      once the mikvah is open, a time without a free slot of the room type,
      and a charge that fails; otherwise it books. */
  lemma CreateRefusals(st: Store, table: HoursTable, config: Config, request: AppointmentRequest, user: MikvahUser,
                       now: DateTime, gateway: ChargeOutcome)
    requires IdsAreIndices(st.slots)
    ensures Create(st, table, config, request, user, now, gateway).result == Failure(AlreadyOpenToday) <==>
                  OpenAlready(table, now, DateOf(request.time))
    ensures Create(st, table, config, request, user, now, gateway).result == Failure(NoSlotAvailable) <==>
                  !OpenAlready(table, now, DateOf(request.time))
                  && !(exists j :: 0 <= j < |st.slots| && IsFreeAt(st.slots[j], request.time, request.roomType))
    ensures Create(st, table, config, request, user, now, gateway).result.Success? <==>
                  !OpenAlready(table, now, DateOf(request.time))
                  && (exists j :: 0 <= j < |st.slots| && IsFreeAt(st.slots[j], request.time, request.roomType))
                  && (user.member || gateway.Charged?)
  {
    FreeSlotExists(st.slots, request.time, request.roomType);
  }

  /** A refused reservation writes neither the slot table nor the history;
      only a charge attempt that failed is left behind. */
  lemma CreateFailureKeepsTables(st: Store, table: HoursTable, config: Config, request: AppointmentRequest,
                                 user: MikvahUser, now: DateTime, gateway: ChargeOutcome)
    requires IdsAreIndices(st.slots)
    requires Create(st, table, config, request, user, now, gateway).result.Failure?
    ensures Create(st, table, config, request, user, now, gateway).store
              == st.(charges := Create(st, table, config, request, user, now, gateway).store.charges)
    ensures Create(st, table, config, request, user, now, gateway).result.error.PaymentProblem? ==>
                  Create(st, table, config, request, user, now, gateway).store.charges == st.charges + [ChargeFor(user, config)]
    ensures !Create(st, table, config, request, user, now, gateway).result.error.PaymentProblem? ==>
                  Create(st, table, config, request, user, now, gateway).store == st
  {
  }

  /** Members are never charged: the gateway is not asked. Anyone else who
      reaches payment is charged once, the configured cost in the configured
      currency. */
  lemma OnlyNonMembersAreCharged(st: Store, table: HoursTable, config: Config, request: AppointmentRequest,
                                 user: MikvahUser, now: DateTime, gateway: ChargeOutcome)
    requires IdsAreIndices(st.slots)
    ensures user.member ==> Create(st, table, config, request, user, now, gateway).store.charges == st.charges
    ensures !user.member && Create(st, table, config, request, user, now, gateway).result != Failure(AlreadyOpenToday)
              && Create(st, table, config, request, user, now, gateway).result != Failure(NoSlotAvailable) ==>
                  Create(st, table, config, request, user, now, gateway).store.charges == st.charges + [ChargeFor(user, config)]
  {
  }

  /** A successful reservation books the lowest-id free slot at the time
      and room type: the user, the notes and the charge id, if any, go into
      that slot alone, and exactly one MADE entry with the same charge id
      is appended to the history. */
  lemma CreateBooksLowestFreeSlot(st: Store, table: HoursTable, config: Config, request: AppointmentRequest,
                                  user: MikvahUser, now: DateTime, gateway: ChargeOutcome)
    requires IdsAreIndices(st.slots)
    requires Create(st, table, config, request, user, now, gateway).result.Success?
    ensures var o := Create(st, table, config, request, user, now, gateway);
            var id := o.result.value.id;
            var chargeId := if user.member then None else Some(gateway.chargeId);
            && id < |st.slots|
            && IsFreeAt(st.slots[id], request.time, request.roomType)
            && (forall j :: 0 <= j < id ==> !IsFreeAt(st.slots[j], request.time, request.roomType))
            && o.store.slots == st.slots[id := Booked(st.slots[id], user, request.notes, chargeId)]
            && o.store.log == st.log + [ReservationHistoryLog(id, Some(user), Made, chargeId)]
            && o.store.refunds == st.refunds
            && o.result.value == ToDto(o.store.slots[id])
  {
    FirstFreeIsLowest(st.slots, request.time, request.roomType);
  }

  /** createAppointment keeps the table invariants. */
  lemma CreateKeepsInvariant(st: Store, table: HoursTable, config: Config, request: AppointmentRequest,
                             user: MikvahUser, now: DateTime, gateway: ChargeOutcome)
    requires StoreValid(st)
    ensures StoreValid(Create(st, table, config, request, user, now, gateway).store)
  {
    var o := Create(st, table, config, request, user, now, gateway);
    if o.result.Success? {
      CreateBooksLowestFreeSlot(st, table, config, request, user, now, gateway);
      var id := o.result.value.id;
      assert o.store.slots[id].user.Some? && o.store.slots[id].id == id;
    }
  }

  /** cancelAppointment on a missing or unassigned slot returns empty and
      changes nothing; otherwise it refuses, checking in this order, a
      caller who is neither the slot's user nor an admin, and a slot for
      today once the mikvah is open. */
  lemma CancelRefusals(st: Store, table: HoursTable, user: MikvahUser, slotId: int, now: DateTime, refund: RefundOutcome)
    ensures !(0 <= slotId < |st.slots| && st.slots[slotId].user.Some?) ==>
                  Cancel(st, table, user, slotId, now, refund) == Outcome(Success(None), st)
    ensures 0 <= slotId < |st.slots| && st.slots[slotId].user.Some? ==>
                  && (Cancel(st, table, user, slotId, now, refund).result == Failure(NotOwnAppointment) <==>
                        st.slots[slotId].user.value != user && !user.admin)
                  && (Cancel(st, table, user, slotId, now, refund).result == Failure(CancelAfterOpening) <==>
                        (st.slots[slotId].user.value == user || user.admin)
                        && OpenAlready(table, now, DateOf(st.slots[slotId].start)))
    ensures Cancel(st, table, user, slotId, now, refund).result.Failure? ==>
                  Cancel(st, table, user, slotId, now, refund).store == st
  {
  }

  /** The owner test compares whole users: a caller who is not an admin and
      differs from the slot's user in any field, even only in the notes, is
      refused. */
  lemma CancelByAnotherCopyIsRefused(st: Store, table: HoursTable, owner: MikvahUser, notes: string, slotId: int,
                                     now: DateTime, refund: RefundOutcome)
    requires 0 <= slotId < |st.slots| && st.slots[slotId].user == Some(owner)
    requires notes != owner.notes && !owner.admin
    ensures Cancel(st, table, owner.(notes := notes), slotId, now, refund) == Outcome(Failure(NotOwnAppointment), st)
  {
  }

  /** A cancellation that goes through clears the slot's user, charge and
      notes whether or not the refund succeeds, asks for a refund exactly
      when the slot carries a non-empty charge id, returns the refund id
      (empty when the refund fails), and appends one CANCELED entry naming
      the caller and the refund id. */
  lemma CancelClearsSlot(st: Store, table: HoursTable, user: MikvahUser, slotId: int, now: DateTime, refund: RefundOutcome)
    requires 0 <= slotId < |st.slots| && st.slots[slotId].user.Some?
    requires Cancel(st, table, user, slotId, now, refund).result.Success?
    ensures var o := Cancel(st, table, user, slotId, now, refund);
            var charge := st.slots[slotId].stripeChargeId;
            var refundId := if IsEmpty(charge) then None else RefundResult(refund);
            && o.result == Success(refundId)
            && o.store.slots == st.slots[slotId := Cleared(st.slots[slotId])]
            && o.store.log == st.log + [ReservationHistoryLog(slotId, Some(user), Canceled, refundId)]
            && o.store.refunds == (if IsEmpty(charge) then st.refunds else st.refunds + [charge.value])
            && o.store.charges == st.charges
    ensures Cancel(st, table, user, slotId, now, refund).result.value.Some? <==>
                  !IsEmpty(st.slots[slotId].stripeChargeId) && refund.Refunded?
  {
  }

  /** cancelAppointment keeps the table invariants. */
  lemma CancelKeepsInvariant(st: Store, table: HoursTable, user: MikvahUser, slotId: int, now: DateTime, refund: RefundOutcome)
    requires StoreValid(st)
    ensures StoreValid(Cancel(st, table, user, slotId, now, refund).store)
  {
  }

  /** editAppointment fails on an unknown slot, and on a new time with no
      free slot of the slot's room type; a failed edit changes nothing. */
  lemma EditRefusals(st: Store, slotId: int, request: UpdateAppointmentRequest)
    requires IdsAreIndices(st.slots)
    ensures Edit(st, slotId, request).result == Failure(UnknownAppointment) <==> !(0 <= slotId < |st.slots|)
    ensures Edit(st, slotId, request).result == Failure(NoSlotAvailable) <==>
                  && 0 <= slotId < |st.slots| && request.time.Some?
                  && !(exists j :: 0 <= j < |st.slots| && IsFreeAt(st.slots[j], request.time.value, st.slots[slotId].roomType))
    ensures Edit(st, slotId, request).result.Failure? ==> Edit(st, slotId, request).store == st
  {
    if 0 <= slotId < |st.slots| && request.time.Some? {
      FreeSlotExists(st.slots, request.time.value, st.slots[slotId].roomType);
    }
  }

  /** Without a new time only the notes change, and they may become null;
      nothing is written to the history. */
  lemma EditNotesOnly(st: Store, slotId: int, request: UpdateAppointmentRequest)
    requires IdsAreIndices(st.slots) && 0 <= slotId < |st.slots| && request.time.None?
    ensures Edit(st, slotId, request).store == st.(slots := st.slots[slotId := st.slots[slotId].(notes := request.notes)])
    ensures Edit(st, slotId, request).result == Success(ToDto(st.slots[slotId].(notes := request.notes)))
  {
  }

  /** A reschedule moves the appointment to the lowest-id free slot at the
      new time with the same room type: it gets the old user and charge id,
      and the request's notes or else the old ones; then the old slot is
      cleared. The history gets a MADE entry for the new slot and then a
      CANCELED entry for the old one whose user is null, read after the
      clearing. */
  lemma EditMovesAppointment(st: Store, slotId: int, request: UpdateAppointmentRequest)
    requires IdsAreIndices(st.slots) && request.time.Some?
    requires Edit(st, slotId, request).result.Success?
    ensures 0 <= slotId < |st.slots| && Edit(st, slotId, request).result.value.id < |st.slots|
    ensures var o := Edit(st, slotId, request);
            var existing := st.slots[slotId];
            var id := o.result.value.id;
            var moved := st.slots[id].(user := existing.user,
                                       notes := if request.notes.None? then existing.notes else request.notes,
                                       stripeChargeId := existing.stripeChargeId);
            && IsFreeAt(st.slots[id], request.time.value, existing.roomType)
            && (forall j :: 0 <= j < id ==> !IsFreeAt(st.slots[j], request.time.value, existing.roomType))
            && o.store.slots == st.slots[id := moved][slotId := Cleared(existing)]
            && o.store.log == st.log + [ReservationHistoryLog(id, existing.user, Made, existing.stripeChargeId),
                                        ReservationHistoryLog(slotId, None, Canceled, None)]
            && o.store.charges == st.charges && o.store.refunds == st.refunds
            && (id != slotId ==> o.result.value == ToDto(moved))
  {
    FirstFreeIsLowest(st.slots, request.time.value, st.slots[slotId].roomType);
  }

  /** editAppointment keeps the table invariants. */
  lemma EditKeepsInvariant(st: Store, slotId: int, request: UpdateAppointmentRequest)
    requires StoreValid(st)
    ensures StoreValid(Edit(st, slotId, request).store)
  {
    var o := Edit(st, slotId, request);
    if o.result.Success? && request.time.Some? {
      EditMovesAppointment(st, slotId, request);
      var id := o.result.value.id;
      assert st.slots[id].user.None?;
    }
  }

  /** Cancelling an appointment just made, by the same user and at the same
      moment, gives the slot back as it was, except for any notes the free
      slot had: no user, no charge. A charge made for it is asked back, and
      the history holds the MADE entry and then the CANCELED entry. */
  lemma CancelUndoesCreate(st: Store, table: HoursTable, config: Config, request: AppointmentRequest, user: MikvahUser,
                           now: DateTime, gateway: ChargeOutcome, refund: RefundOutcome)
    requires StoreValid(st)
    requires Create(st, table, config, request, user, now, gateway).result.Success?
    ensures Create(st, table, config, request, user, now, gateway).result.value.id < |st.slots|
    ensures var c := Create(st, table, config, request, user, now, gateway);
            var id := c.result.value.id;
            var k := Cancel(c.store, table, user, id, now, refund);
            var chargeId := if user.member then None else Some(gateway.chargeId);
            var refundId := if IsEmpty(chargeId) then None else RefundResult(refund);
            && k.result == Success(refundId)
            && k.store.slots == st.slots[id := st.slots[id].(notes := None)]
            && k.store.log == st.log + [ReservationHistoryLog(id, Some(user), Made, chargeId),
                                        ReservationHistoryLog(id, Some(user), Canceled, refundId)]
            && k.store.refunds == (if IsEmpty(chargeId) then st.refunds else st.refunds + [chargeId.value])
  {
    CreateBooksLowestFreeSlot(st, table, config, request, user, now, gateway);
    var c := Create(st, table, config, request, user, now, gateway);
    var id := c.result.value.id;
    assert c.store.slots[id].user == Some(user) && c.store.slots[id].start == request.time;
    CancelClearsSlot(c.store, table, user, id, now, refund);
    assert Cleared(c.store.slots[id]) == st.slots[id].(notes := None);
  }

  /** AppointmentService: the slot table and reservation history it saves
      to, the Stripe calls it has made, the hours table it reads and the
      configured appointment cost. */
  class AppointmentService {
    var slots: seq<AppointmentSlot>
    var log: seq<ReservationHistoryLog>
    var charges: seq<ChargeRequest>
    var refunds: seq<string>
    const hoursTable: HoursTable
    const config: Config

    function State(): Store
      reads this
    {
      Store(slots, log, charges, refunds)
    }

    ghost predicate Valid()
      reads this
    {
      StoreValid(State())
    }

    constructor (table: HoursTable, cfg: Config, existing: seq<AppointmentSlot>)
      requires IdsAreIndices(existing) && NoChargeWithoutUser(existing)
      ensures Valid() && State() == Store(existing, [], [], [])
      ensures hoursTable == table && config == cfg
    {
      slots := existing;
      log := [];
      charges := [];
      refunds := [];
      hoursTable := table;
      config := cfg;
    }

    /** handleUserPayment: a member is let through without a call; anyone
        else is charged the appointment cost. */
    method HandleUserPayment(user: MikvahUser, gateway: ChargeOutcome) returns (r: Result<Option<string>, BookingError>)
      modifies this`charges
      ensures r == PaymentResult(user, gateway)
      ensures charges == if user.member then old(charges) else old(charges) + [ChargeFor(user, config)]
    {
      if user.member {
        return Success(None);
      }
      charges := charges + [ChargeFor(user, config)];
      r := PaymentResult(user, gateway);
    }

    /** refundCharge: ask Stripe to refund the charge. */
    method RefundCharge(stripeChargeId: string, refund: RefundOutcome) returns (r: Option<string>)
      modifies this`refunds
      ensures r == RefundResult(refund)
      ensures refunds == old(refunds) + [stripeChargeId]
    {
      refunds := refunds + [stripeChargeId];
      r := RefundResult(refund);
    }

    /** createAppointment. */
    method CreateAppointment(request: AppointmentRequest, user: MikvahUser, now: DateTime, gateway: ChargeOutcome)
      returns (r: Result<AppointmentSlotDto, BookingError>)
      requires Valid()
      modifies this
      ensures Valid()
      ensures Outcome(r, State()) == Create(old(State()), hoursTable, config, request, user, now, gateway)
    {
      if OpenAlready(hoursTable, now, DateOf(request.time)) {
        return Failure(AlreadyOpenToday);
      }
      var possibleSlots := FindFreeAt(slots, request.time, request.roomType);
      if possibleSlots == [] {
        return Failure(NoSlotAvailable);
      }
      var stripeChargeId := HandleUserPayment(user, gateway);
      if stripeChargeId.Failure? {
        return Failure(stripeChargeId.error);
      }
      FirstFreeIsLowest(slots, request.time, request.roomType);
      var slot := Booked(possibleSlots[0], user, request.notes, stripeChargeId.value);
      slots := slots[slot.id := slot];
      log := log + [ReservationHistoryLog(slot.id, Some(user), Made, stripeChargeId.value)];
      r := Success(ToDto(slot));
      CreateKeepsInvariant(old(State()), hoursTable, config, request, user, now, gateway);
    }

    /** updateNotes: only the slot's notes change. */
    method UpdateNotes(existingSlot: AppointmentSlot, notes: Option<string>) returns (r: AppointmentSlotDto)
      requires Valid() && existingSlot.id < |slots| && slots[existingSlot.id] == existingSlot
      modifies this`slots
      ensures Valid()
      ensures slots == old(slots)[existingSlot.id := existingSlot.(notes := notes)]
      ensures r == ToDto(existingSlot.(notes := notes))
    {
      var updated := existingSlot.(notes := notes);
      slots := slots[existingSlot.id := updated];
      r := ToDto(updated);
    }

    /** editAppointment. */
    method EditAppointment(slotId: int, request: UpdateAppointmentRequest) returns (r: Result<AppointmentSlotDto, BookingError>)
      requires Valid()
      modifies this
      ensures Valid()
      ensures Outcome(r, State()) == Edit(old(State()), slotId, request)
    {
      if !(0 <= slotId < |slots|) {
        return Failure(UnknownAppointment);
      }
      var existingSlot := slots[slotId];
      if request.time.None? {
        var dto := UpdateNotes(existingSlot, request.notes);
        return Success(dto);
      }
      var possibleSlots := FindFreeAt(slots, request.time.value, existingSlot.roomType);
      if possibleSlots == [] {
        return Failure(NoSlotAvailable);
      }
      FirstFreeIsLowest(slots, request.time.value, existingSlot.roomType);
      var newSlot := possibleSlots[0].(user := existingSlot.user,
                                       notes := if request.notes.None? then existingSlot.notes else request.notes,
                                       stripeChargeId := existingSlot.stripeChargeId);
      slots := slots[newSlot.id := newSlot];
      log := log + [ReservationHistoryLog(newSlot.id, newSlot.user, Made, newSlot.stripeChargeId)];
      slots := slots[slotId := Cleared(existingSlot)];
      log := log + [ReservationHistoryLog(slotId, slots[slotId].user, Canceled, None)];
      r := Success(ToDto(slots[newSlot.id]));
      EditKeepsInvariant(old(State()), slotId, request);
    }

    /** cancelAppointment. */
    method CancelAppointment(user: MikvahUser, slotId: int, now: DateTime, refund: RefundOutcome)
      returns (r: Result<Option<string>, BookingError>)
      requires Valid()
      modifies this
      ensures Valid()
      ensures Outcome(r, State()) == Cancel(old(State()), hoursTable, user, slotId, now, refund)
    {
      if !(0 <= slotId < |slots|) {
        return Success(None);
      }
      var slot := slots[slotId];
      if slot.user.None? {
        return Success(None);
      }
      if slot.user.value != user && !user.admin {
        return Failure(NotOwnAppointment);
      }
      if OpenAlready(hoursTable, now, DateOf(slot.start)) {
        return Failure(CancelAfterOpening);
      }
      var refundId := None;
      if !IsEmpty(slot.stripeChargeId) {
        refundId := RefundCharge(slot.stripeChargeId.value, refund);
      }
      slots := slots[slotId := Cleared(slot)];
      log := log + [ReservationHistoryLog(slotId, Some(user), Canceled, refundId)];
      r := Success(refundId);
      CancelKeepsInvariant(old(State()), hoursTable, user, slotId, now, refund);
    }
  }
}
