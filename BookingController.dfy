/** The booking endpoints: each resolves the caller (a parameter here: the real endpoint
    derives it from the authenticated e-mail address), checks that the booking belongs to
    the caller, and hands over to the booking service. The batch repair walks the caller's
    corrupted bookings and repairs each in its own transaction. */
module BookingController {
  import opened Common
  import opened Entities
  import opened Repository
  import opened Stores
  import opened BookingService

  /** Why an endpoint answered with an error. */
  datatype ControllerError =
    | Service(error: BookingError)
    | NotOwner
    | OwnerMissing
    | StatusMissing

  /** The HTTP status of an endpoint error other than the repair's: 403 for another user's
      booking, 400 otherwise. */
  function StatusCode(e: ControllerError): (code: int)
    ensures code == 403 <==> e.NotOwner?
    ensures code == 400 || code == 403
  {
    RejectionStatus(e.NotOwner?)
  }

  /** `"Slot-" + booking.getSlotId()`, which prints "null" for a missing id. */
  function SlotLabel(slotId: Option<int>): string
  {
    "Slot-" + (if slotId.None? then "null" else IntToString(slotId.value))
  }

  /** The ownership check shared by checkout, cancel and details: the booking must exist,
      and its owner (which must be set) must be the caller. */
  function OwnedBooking(t: Tables, bookingId: int, callerId: int): (r: Result<BookingRecord, ControllerError>)
    ensures r.Ok? <==> LookupBooking(t, Some(bookingId)).Some? && LookupBooking(t, Some(bookingId)).value.userId == Some(callerId)
    ensures r.Ok? ==> r.value == LookupBooking(t, Some(bookingId)).value
    ensures r == Err(NotOwner) <==>
              LookupBooking(t, Some(bookingId)).Some? && LookupBooking(t, Some(bookingId)).value.userId.Some? &&
              LookupBooking(t, Some(bookingId)).value.userId.value != callerId
  {
    match LookupBooking(t, Some(bookingId))
    case None => Err(Service(BookingNotFound))
    case Some(b) =>
      if b.userId.None? then Err(OwnerMissing)
      else if b.userId.value != callerId then Err(NotOwner)
      else Ok(b)
  }

  // ------------------------------------------------------------------
  // book
  // ------------------------------------------------------------------

  /** The response of the book and details endpoints. */
  function EndpointView(b: BookingRecord, withPayment: bool): (r: Result<BookingResponse, ControllerError>)
    ensures r.Err? <==> b.status.None?
    ensures r.Ok? ==> r.value.slotNumber == Some(SlotLabel(b.slotId)) && r.value.status == b.status.value.Name()
    ensures r.Ok? ==> r.value.vehicleType == TypeName(b.vehicleType)
    ensures r.Ok? && !withPayment ==> r.value.parkingFee.None? && r.value.transactionId.None?
  {
    if b.status.None? then Err(StatusMissing)
    else Ok(BookingResponse(b.id, b.slotId, Some(SlotLabel(b.slotId)), TypeName(b.vehicleType), b.entryTime, b.exitTime,
                            None, None, b.status.value.Name(),
                            if withPayment then b.parkingFee else None,
                            if withPayment then b.transactionId else None, None))
  }

  /** `POST /book` by user `callerId`: the request's user id is replaced by the caller's. */
  function BookSpec(t: Tables, req: BookingRecord, callerId: int, fromString: string -> Option<VehicleType>)
    : (Result<BookingResponse, ControllerError>, Tables)
  {
    var (r, t') := BookSlotSpec(t, req.(userId := Some(callerId)), fromString);
    match r
    case Err(e) => (Err(Service(e)), t')
    case Ok(b) => (EndpointView(b, false), t')
  }

  method Book(store: ParkingStore, booking: Booking, callerId: int, fromString: string -> Option<VehicleType>)
    returns (r: Result<BookingResponse, ControllerError>)
    requires store.Valid()
    modifies store, booking
    ensures store.Valid()
    ensures (r, store.State()) == BookSpec(old(store.State()), old(booking.Snapshot()), callerId, fromString)
  {
    booking.SetUserId(Some(callerId));
    var booked := BookSlot(store, booking, fromString);
    if booked.Err? {
      return Err(Service(booked.error));
    }
    r := EndpointView(booked.value, false);
  }

  /** Whatever user id the request carries, the booking is made for the caller, and a
      booking made through the endpoint is reported ACTIVE. */
  lemma BookIsForCaller(t: Tables, req: BookingRecord, callerId: int, fromString: string -> Option<VehicleType>)
    requires ValidTables(t)
    ensures var (r, t') := BookSpec(t, req, callerId, fromString);
      BookSpec(t, req.(userId := Some(callerId + 1)), callerId, fromString) == (r, t') &&
      (r.Ok? ==> r.value.status == "ACTIVE" && r.value.id.Some? &&
                 LookupBooking(t', r.value.id).Some? && LookupBooking(t', r.value.id).value.userId == Some(callerId))
  {
    var b := req.(userId := Some(callerId));
    assert req.(userId := Some(callerId + 1)).(userId := Some(callerId)) == b;
    if BookSlotSpec(t, b, fromString).0.Ok? {
      BookSlotSuccess(t, b, fromString);
    }
  }

  // ------------------------------------------------------------------
  // checkout, cancel, details
  // ------------------------------------------------------------------

  /** `POST /{bookingId}/checkout` by user `callerId` at time `now`. */
  function CheckoutEndpointSpec(t: Tables, bookingId: int, callerId: int, now: int, fees: FeeCalculator)
    : (Result<CheckoutResponse, ControllerError>, Tables)
  {
    match OwnedBooking(t, bookingId, callerId)
    case Err(e) => (Err(e), t)
    case Ok(_) =>
      var (r, t') := CheckoutSpec(t, bookingId, now, fees);
      (if r.Ok? then Ok(r.value) else Err(Service(r.error)), t')
  }

  method CheckoutEndpoint(store: ParkingStore, bookingId: int, callerId: int, now: int, fees: FeeCalculator)
    returns (r: Result<CheckoutResponse, ControllerError>)
    requires store.Valid()
    modifies store
    ensures store.Valid()
    ensures (r, store.State()) == CheckoutEndpointSpec(old(store.State()), bookingId, callerId, now, fees)
  {
    var owned := OwnedBooking(store.State(), bookingId, callerId);
    if owned.Err? {
      return Err(owned.error);
    }
    var checkedOut := CheckoutBooking(store, bookingId, now, fees);
    r := if checkedOut.Ok? then Ok(checkedOut.value) else Err(Service(checkedOut.error));
  }

  /** `DELETE /{bookingId}` by user `callerId` at time `now`. */
  function CancelEndpointSpec(t: Tables, bookingId: int, callerId: int, now: int): (Result<(), ControllerError>, Tables)
  {
    match OwnedBooking(t, bookingId, callerId)
    case Err(e) => (Err(e), t)
    case Ok(_) =>
      var (r, t') := CancelSpec(t, bookingId, now);
      (if r.Ok? then Ok(()) else Err(Service(r.error)), t')
  }

  method CancelEndpoint(store: ParkingStore, bookingId: int, callerId: int, now: int) returns (r: Result<(), ControllerError>)
    requires store.Valid()
    modifies store
    ensures store.Valid()
    ensures (r, store.State()) == CancelEndpointSpec(old(store.State()), bookingId, callerId, now)
  {
    var owned := OwnedBooking(store.State(), bookingId, callerId);
    if owned.Err? {
      return Err(owned.error);
    }
    var cancelled := CancelBooking(store, bookingId, now);
    r := if cancelled.Ok? then Ok(()) else Err(Service(cancelled.error));
  }

  /** Checkout and cancel on a booking the caller does not own are refused before the
      service runs: nothing changes, and another user's booking is answered with 403. For
      the owner they do exactly what the service does. */
  lemma GatedEndpointsChangeNothingForOthers(t: Tables, bookingId: int, callerId: int, now: int, fees: FeeCalculator)
    ensures var owned := OwnedBooking(t, bookingId, callerId);
      (owned.Err? ==>
         CheckoutEndpointSpec(t, bookingId, callerId, now, fees) == (Err(owned.error), t) &&
         CancelEndpointSpec(t, bookingId, callerId, now) == (Err(owned.error), t)) &&
      (owned.Ok? ==>
         CheckoutEndpointSpec(t, bookingId, callerId, now, fees).1 == CheckoutSpec(t, bookingId, now, fees).1 &&
         CancelEndpointSpec(t, bookingId, callerId, now).1 == CancelSpec(t, bookingId, now).1)
  {
  }

  /** `GET /{bookingId}`: the owner's view of the booking, with its fee and transaction id. */
  function BookingDetails(t: Tables, bookingId: int, callerId: int): (r: Result<BookingResponse, ControllerError>)
    ensures r.Ok? ==> OwnedBooking(t, bookingId, callerId).Ok?
    ensures r.Ok? ==> var b := LookupBooking(t, Some(bookingId)).value;
              r.value.id == b.id && r.value.parkingFee == b.parkingFee && r.value.transactionId == b.transactionId &&
              r.value.slotNumber == Some(SlotLabel(b.slotId))
    ensures OwnedBooking(t, bookingId, callerId).Err? ==> r == Err(OwnedBooking(t, bookingId, callerId).error)
    ensures r.Ok? <==> OwnedBooking(t, bookingId, callerId).Ok? && OwnedBooking(t, bookingId, callerId).value.status.Some?
  {
    match OwnedBooking(t, bookingId, callerId)
    case Err(e) => Err(e)
    case Ok(b) => EndpointView(b, true)
  }

  // ------------------------------------------------------------------
  // fix-corrupted
  // ------------------------------------------------------------------

  /** The repair endpoint's answer. */
  datatype RepairReport = RepairReport(message: string, fixedCount: nat, bookingIds: seq<int>)

  /** The caller's bookings the repair selects. A booking of the caller without a status
      makes the selection throw (the endpoint then answers 500). */
  function RepairCandidates(t: Tables, callerId: int): (r: Result<seq<BookingRecord>, ControllerError>)
    ensures r.Err? <==> exists i :: 0 <= i < |t.bookings| && t.bookings[i].userId == Some(callerId) && t.bookings[i].status.None?
    ensures r.Ok? ==> forall i :: 0 <= i < |r.value| ==>
                        r.value[i] in t.bookings && r.value[i].userId == Some(callerId) && IsCorrupted(r.value[i])
    ensures r.Ok? ==> forall i :: 0 <= i < |t.bookings| && t.bookings[i].userId == Some(callerId) && IsCorrupted(t.bookings[i])
                        ==> t.bookings[i] in r.value
  {
    var mine := FindByUserId(t.bookings, callerId);
    if exists i :: 0 <= i < |mine| && mine[i].status.None? then
      var i :| 0 <= i < |mine| && mine[i].status.None?;
      assert mine[i] in t.bookings;
      Err(StatusMissing)
    else
      assert forall i :: 0 <= i < |t.bookings| && t.bookings[i].userId == Some(callerId) ==> t.bookings[i] in mine;
      Ok(Filter(mine, IsCorrupted))
  }

  /** Repairing `bs` one after another, each in its own transaction: the ids repaired
      without error, in order, and the tables afterwards. A booking without an id cannot
      be looked up and is skipped. */
  function FixAll(t: Tables, bs: seq<BookingRecord>): (seq<int>, Tables)
    decreases |bs|
  {
    if bs == [] then ([], t)
    else
      var (fixed, t1) := FixAll(t, bs[..|bs| - 1]);
      var b := bs[|bs| - 1];
      if b.id.None? then (fixed, t1)
      else
        var (r, t2) := FixCorruptedSpec(t1, b.id.value);
        (if r.Ok? then fixed + [b.id.value] else fixed, t2)
  }

  /** `POST /fix-corrupted` by user `callerId`. */
  function FixCorruptedBookingsSpec(t: Tables, callerId: int): (Result<RepairReport, ControllerError>, Tables)
  {
    match RepairCandidates(t, callerId)
    case Err(e) => (Err(e), t)
    case Ok(corrupted) =>
      if corrupted == [] then (Ok(RepairReport("No corrupted bookings found", 0, [])), t)
      else
        var (ids, t') := FixAll(t, corrupted);
        (Ok(RepairReport("Corrupted bookings fixed successfully", |ids|, ids)), t')
  }

  method FixCorruptedBookings(store: ParkingStore, callerId: int) returns (r: Result<RepairReport, ControllerError>)
    requires store.Valid()
    modifies store
    ensures store.Valid()
    ensures (r, store.State()) == FixCorruptedBookingsSpec(old(store.State()), callerId)
  {
    var candidates := RepairCandidates(store.State(), callerId);
    if candidates.Err? {
      return Err(candidates.error);
    }
    var corrupted := candidates.value;
    if corrupted == [] {
      return Ok(RepairReport("No corrupted bookings found", 0, []));
    }
    var fixedIds := RepairEach(store, corrupted);
    r := Ok(RepairReport("Corrupted bookings fixed successfully", |fixedIds|, fixedIds));
  }

  /** The repair loop: each booking is repaired in its own transaction, and a repair that
      fails is skipped without stopping the others. */
  method RepairEach(store: ParkingStore, corrupted: seq<BookingRecord>) returns (fixedIds: seq<int>)
    requires store.Valid()
    modifies store
    ensures store.Valid()
    ensures (fixedIds, store.State()) == FixAll(old(store.State()), corrupted)
  {
    ghost var t := store.State();
    fixedIds := [];
    var k := 0;
    while k < |corrupted|
      invariant 0 <= k <= |corrupted|
      invariant store.Valid()
      invariant (fixedIds, store.State()) == FixAll(t, corrupted[..k])
    {
      var booking := corrupted[k];
      ghost var prefix := corrupted[..k + 1];
      assert prefix[..|prefix| - 1] == corrupted[..k] && prefix[|prefix| - 1] == booking;
      if booking.id.Some? {
        var fixed := FixCorruptedBooking(store, booking.id.value);
        if fixed.Ok? {
          fixedIds := fixedIds + [booking.id.value];
        }
      }
      k := k + 1;
    }
    assert corrupted[..k] == corrupted;
  }

  /** One repair keeps every row's id, leaves each row as it was or with its exit time
      cleared, and does not touch the slots. */
  lemma FixCorruptedFrame(t: Tables, id: int)
    ensures var t' := FixCorruptedSpec(t, id).1;
      |t'.bookings| == |t.bookings| && t'.slots == t.slots &&
      forall i :: 0 <= i < |t.bookings| ==>
        t'.bookings[i] == t.bookings[i] || t'.bookings[i] == t.bookings[i].(exitTime := None)
  {
    var b := LookupBooking(t, Some(id));
    if b.Some? && IsCorrupted(b.value) {
      var i := BookingIndex(t, Some(id)).value;
      assert BookingIndex(t, b.value.(exitTime := None).id) == Some(i);
    }
  }

  /** The batch keeps every row's id, leaves each row as it was or with its exit time
      cleared, and does not touch the slots; when every selected booking can be looked up,
      every one of them is repaired and reported, in order. */
  lemma {:induction false} FixAllRepairsEvery(t: Tables, bs: seq<BookingRecord>)
    ensures var (ids, t') := FixAll(t, bs);
      |t'.bookings| == |t.bookings| && t'.slots == t.slots &&
      (forall i :: 0 <= i < |t.bookings| ==>
         t'.bookings[i].id == t.bookings[i].id &&
         (t'.bookings[i] == t.bookings[i] || t'.bookings[i] == t.bookings[i].(exitTime := None))) &&
      ((forall j :: 0 <= j < |bs| ==> bs[j] in t.bookings && bs[j].id.Some?) ==>
         |ids| == |bs| && forall j :: 0 <= j < |bs| ==> Some(ids[j]) == bs[j].id)
    decreases |bs|
  {
    FixAllFrame(t, bs);
    if forall j :: 0 <= j < |bs| ==> bs[j] in t.bookings && bs[j].id.Some? {
      FixAllReportsAll(t, bs);
    }
  }

  lemma {:induction false} FixAllFrame(t: Tables, bs: seq<BookingRecord>)
    ensures var t' := FixAll(t, bs).1;
      |t'.bookings| == |t.bookings| && t'.slots == t.slots &&
      forall i :: 0 <= i < |t.bookings| ==>
        t'.bookings[i].id == t.bookings[i].id &&
        (t'.bookings[i] == t.bookings[i] || t'.bookings[i] == t.bookings[i].(exitTime := None))
    decreases |bs|
  {
    if bs != [] {
      var front := bs[..|bs| - 1];
      FixAllFrame(t, front);
      var b := bs[|bs| - 1];
      if b.id.Some? {
        FixCorruptedFrame(FixAll(t, front).1, b.id.value);
      }
    }
  }

  lemma {:induction false} FixAllReportsAll(t: Tables, bs: seq<BookingRecord>)
    requires forall j :: 0 <= j < |bs| ==> bs[j] in t.bookings && bs[j].id.Some?
    ensures |FixAll(t, bs).0| == |bs|
    ensures forall j :: 0 <= j < |bs| ==> Some(FixAll(t, bs).0[j]) == bs[j].id
    decreases |bs|
  {
    if bs != [] {
      var front := bs[..|bs| - 1];
      assert forall j :: 0 <= j < |front| ==> front[j] == bs[j];
      FixAllReportsAll(t, front);
      FixAllFrame(t, front);
      var (fixed, t1) := FixAll(t, front);
      var b := bs[|bs| - 1];
      var k :| 0 <= k < |t.bookings| && t.bookings[k] == b;
      assert t1.bookings[k].id == b.id;
      assert LookupBooking(t1, b.id).Some?;
      assert FixCorruptedSpec(t1, b.id.value).0.Ok?;
      var ids := fixed + [b.id.value];
      assert FixAll(t, bs).0 == ids;
      forall j | 0 <= j < |bs|
        ensures Some(ids[j]) == bs[j].id
      {
        if j < |front| {
          assert ids[j] == fixed[j] && bs[j] == front[j];
        }
      }
    }
  }

  /** The repair selects exactly the caller's ACTIVE bookings with an exit time; with none
      it reports 0 and writes nothing; otherwise it reports every one of them as fixed, in
      order, and only clears exit times. */
  lemma RepairReportsEveryCorruptedBooking(t: Tables, callerId: int)
    requires ValidTables(t)
    ensures var (r, t') := FixCorruptedBookingsSpec(t, callerId);
      var c := RepairCandidates(t, callerId);
      (r.Err? ==> t' == t) &&
      (c.Ok? && c.value == [] ==> r == Ok(RepairReport("No corrupted bookings found", 0, [])) && t' == t) &&
      (c.Ok? ==> r.Ok? && r.value.fixedCount == |c.value| == |r.value.bookingIds| &&
                 (forall j :: 0 <= j < |c.value| ==> Some(r.value.bookingIds[j]) == c.value[j].id)) &&
      |t'.bookings| == |t.bookings| && t'.slots == t.slots &&
      (forall i :: 0 <= i < |t.bookings| ==> t'.bookings[i] == t.bookings[i] || t'.bookings[i] == t.bookings[i].(exitTime := None))
  {
    var c := RepairCandidates(t, callerId);
    if c.Ok? && c.value != [] {
      forall j | 0 <= j < |c.value|
        ensures c.value[j] in t.bookings && c.value[j].id.Some?
      {
        var k :| 0 <= k < |t.bookings| && t.bookings[k] == c.value[j];
      }
      FixAllRepairsEvery(t, c.value);
    }
  }
}
